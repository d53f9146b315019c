/** The basic policy engine: rule normalisation and deny-overrides evaluation. */
module Policy {
  import opened Prelude
  import opened Contracts
  import opened Glob

  // Rules are copied when the engine is made, so a structured value of a rule is identical to no
  // value of an input.
  datatype EnvValue = Scalar(value: LabelValue) | Structured(text: string)

  type Environment = map<string, EnvValue>

  datatype Effect = Allow | Deny

  type StringList = Option<seq<string>>

  datatype Conditions = Conditions(
    anyRoles: StringList, allRoles: StringList, anyGroups: StringList, allGroups: StringList,
    anyScopes: StringList, allScopes: StringList, anyEntitlements: StringList, allEntitlements: StringList,
    requireLabels: Option<LabelSet>, forbidLabels: Option<LabelSet>, environment: Option<Environment>)

  datatype Resource = Resource(kind: string, id: Option<string>, labels: Option<LabelSet>)

  datatype Input = Input(
    identity: EffectiveIdentity, action: string, resource: Option<Resource>, environment: Option<Environment>)

  // A decision token is a text, or made for each evaluation.
  datatype Token = Fixed(text: string) | Made(factory: Input -> Option<string>)

  datatype Rule = Rule(
    id: Option<string>, actions: seq<string>, effect: Effect,
    resourceType: Option<string>, resourceId: Option<string>, resourceLabels: Option<LabelSet>,
    conditions: Option<Conditions>, reason: Option<string>, obligations: Option<string>, decisionJwt: Option<Token>)

  datatype Decision = Decision(
    allow: bool, reason: Option<string>, obligations: Option<string>, decisionJwt: Option<string>)

  const DEFAULT_DENY := Decision(false, Some("policy.default.deny"), None, None)

  // ------------------------------------------------------------ rules as written

  predicate Blank(s: string) { Trim(s) == "" }

  ghost predicate AllBlank(list: seq<string>) {
    forall s :: s in list ==> Blank(s)
  }

  ghost predicate MeetsAny(list: StringList, held: seq<string>) {
    list.None? || AllBlank(list.value) || exists s :: s in list.value && !Blank(s) && Trim(s) in held
  }

  ghost predicate MeetsAll(list: StringList, held: seq<string>) {
    list.Some? ==> forall s :: s in list.value && !Blank(s) ==> Trim(s) in held
  }

  ghost predicate ActionApplies(r: Rule, action: string) {
    exists a :: a in r.actions && !Blank(a) && MatcherTest(Trim(a), action)
  }

  // Every label asked for is there, with its value; labels that ask for nothing ask for labels still.
  ghost predicate CarriesAll(required: Option<LabelSet>, actual: Option<LabelSet>) {
    && (required.Some? ==> actual.Some?)
    && forall k :: required.Some? && k in required.value ==>
         actual.Some? && k in actual.value && actual.value[k] == required.value[k]
  }

  // No forbidden label is there with its value.
  ghost predicate CarriesNone(forbidden: Option<LabelSet>, actual: LabelSet) {
    forall k :: forbidden.Some? && k in forbidden.value && k in actual ==> actual[k] != forbidden.value[k]
  }

  // Every expected value is a scalar that the environment has; a structured one is never the same.
  ghost predicate Surrounds(expected: Option<Environment>, actual: Option<Environment>) {
    forall k :: expected.Some? && k in expected.value ==>
      && actual.Some? && k in actual.value
      && expected.value[k].Scalar? && actual.value[k] == expected.value[k]
  }

  ghost predicate ConditionsHold(c: Conditions, input: Input) {
    var i := input.identity;
    && MeetsAny(c.anyRoles, i.roles) && MeetsAll(c.allRoles, i.roles)
    && MeetsAny(c.anyGroups, i.groups) && MeetsAll(c.allGroups, i.groups)
    && MeetsAny(c.anyScopes, i.scopes) && MeetsAll(c.allScopes, i.scopes)
    && MeetsAny(c.anyEntitlements, i.entitlements) && MeetsAll(c.allEntitlements, i.entitlements)
    && CarriesAll(c.requireLabels, Some(i.labels))
    && CarriesNone(c.forbidLabels, i.labels)
    && Surrounds(c.environment, input.environment)
  }

  // A resource pattern that is given is met by a value that is given.
  ghost predicate PatternMet(pattern: Option<string>, value: Option<string>) {
    pattern.Some? && pattern.value != "" ==>
      value.Some? && value.value != "" && MatcherTest(pattern.value, value.value)
  }

  ghost predicate ResourceMeant(r: Rule, resource: Option<Resource>) {
    && PatternMet(r.resourceType, if resource.Some? then Some(resource.value.kind) else None)
    && PatternMet(r.resourceId, if resource.Some? then resource.value.id else None)
    && CarriesAll(r.resourceLabels, if resource.Some? then resource.value.labels else None)
  }

  // Whether a rule, as its author wrote it, applies to an input.
  ghost predicate Applies(r: Rule, input: Input) {
    && ActionApplies(r, input.action)
    && ResourceMeant(r, input.resource)
    && (r.conditions.Some? ==> ConditionsHold(r.conditions.value, input))
  }

  // --------------------------------------------------------------- normalisation

  predicate Given(s: Option<string>) { s.Some? && s.value != "" }

  function IfGiven(s: Option<string>): Option<string> {
    if Given(s) then s else None
  }

  datatype NormalRule = NormalRule(
    effect: Effect, actions: seq<string>, resourceType: Option<string>, resourceId: Option<string>,
    resourceLabels: Option<LabelSet>, conditions: Option<Conditions>,
    reason: Option<string>, obligations: Option<string>, decisionJwt: Option<Token>)

  // The trimmed values, without blanks and repetitions.
  function Cleaned(list: seq<string>): seq<string> {
    FirstOccurrences(NonBlank(list))
  }

  function NonBlank(list: seq<string>): seq<string> {
    if list == [] then []
    else NonBlank(Front(list)) + if Blank(Last(list)) then [] else [Trim(Last(list))]
  }

  function NormalList(list: StringList): StringList {
    if list.None? || Cleaned(list.value) == [] then None else Some(Cleaned(list.value))
  }

  method NormalizeStringArray(list: StringList) returns (r: StringList)
    ensures r == NormalList(list)
  {
    if list.None? || |list.value| == 0 {
      return None;
    }
    var values, normalized := list.value, [];
    for i := 0 to |values|
      invariant normalized == NonBlank(values[..i])
    {
      assert Front(values[..i + 1]) == values[..i] && Last(values[..i + 1]) == values[i];
      var trimmed := Trim(values[i]);
      if trimmed != "" {
        normalized := normalized + [trimmed];
      }
    }
    assert values[..|values|] == values;
    if |normalized| == 0 {
      return None;
    }
    var deduped := DedupeStrings(normalized);
    assert normalized[0] in deduped;
    return Some(deduped);
  }

  function NormalConditions(c: Conditions): Conditions {
    Conditions(NormalList(c.anyRoles), NormalList(c.allRoles), NormalList(c.anyGroups), NormalList(c.allGroups),
               NormalList(c.anyScopes), NormalList(c.allScopes),
               NormalList(c.anyEntitlements), NormalList(c.allEntitlements),
               c.requireLabels, c.forbidLabels, c.environment)
  }

  predicate HasConditions(c: Conditions) {
    || c.anyRoles.Some? || c.allRoles.Some? || c.anyGroups.Some? || c.allGroups.Some?
    || c.anyScopes.Some? || c.allScopes.Some? || c.anyEntitlements.Some? || c.allEntitlements.Some?
    || (c.requireLabels.Some? && c.requireLabels.value != map[])
    || (c.forbidLabels.Some? && c.forbidLabels.value != map[])
    || (c.environment.Some? && c.environment.value != map[])
  }

  function EffectName(e: Effect): string {
    if e == Allow then "allow" else "deny"
  }

  function ReasonOf(r: Rule): Option<string> {
    if r.reason.Some? then r.reason
    else if Given(r.id) then Some("policy.rule." + r.id.value + "." + EffectName(r.effect))
    else None
  }

  // `toDecisionJwtFactory`: an empty text is no token.
  function TokenOf(r: Rule): Option<Token> {
    if r.decisionJwt.Some? && r.decisionJwt.value.Fixed? && r.decisionJwt.value.text == "" then None else r.decisionJwt
  }

  function NormalOf(r: Rule): NormalRule {
    var conditions := if r.conditions.Some? && HasConditions(NormalConditions(r.conditions.value))
                      then Some(NormalConditions(r.conditions.value)) else None;
    NormalRule(r.effect, Cleaned(r.actions), IfGiven(r.resourceType), IfGiven(r.resourceId), r.resourceLabels,
               conditions, ReasonOf(r), r.obligations, TokenOf(r))
  }

  ghost predicate HasAction(r: Rule) {
    exists a :: a in r.actions && !Blank(a)
  }

  // `normalizeRule`; a rule without an action pattern is an error.
  method NormalizeRule(r: Rule) returns (n: Result<NormalRule, string>)
    ensures n.Ok? <==> HasAction(r)
    ensures n.Ok? ==> n.value == NormalOf(r)
  {
    var actions := NormalizeStringArray(Some(r.actions));
    CleanedMeaning(r.actions);
    if actions.None? {
      assert Cleaned(r.actions) == [];
      return Err("must define at least one action pattern");
    }
    assert Cleaned(r.actions)[0] in Cleaned(r.actions);
    var conditions: Option<Conditions> := None;
    if r.conditions.Some? {
      var c := r.conditions.value;
      var anyRoles := NormalizeStringArray(c.anyRoles);
      var allRoles := NormalizeStringArray(c.allRoles);
      var anyGroups := NormalizeStringArray(c.anyGroups);
      var allGroups := NormalizeStringArray(c.allGroups);
      var anyScopes := NormalizeStringArray(c.anyScopes);
      var allScopes := NormalizeStringArray(c.allScopes);
      var anyEntitlements := NormalizeStringArray(c.anyEntitlements);
      var allEntitlements := NormalizeStringArray(c.allEntitlements);
      var normalized := Conditions(anyRoles, allRoles, anyGroups, allGroups, anyScopes, allScopes,
                                   anyEntitlements, allEntitlements, c.requireLabels, c.forbidLabels, c.environment);
      conditions := if HasConditions(normalized) then Some(normalized) else None;
    }
    return Ok(NormalRule(r.effect, actions.value, IfGiven(r.resourceType), IfGiven(r.resourceId), r.resourceLabels,
                         conditions, ReasonOf(r), r.obligations, TokenOf(r)));
  }

  lemma {:induction false} NonBlankMeaning(list: seq<string>)
    ensures forall x :: x in NonBlank(list) <==> exists s :: s in list && !Blank(s) && Trim(s) == x
  {
    if list != [] {
      NonBlankMeaning(Front(list));
      assert list == Front(list) + [Last(list)];
    }
  }

  lemma CleanedMeaning(list: seq<string>)
    ensures forall x :: x in Cleaned(list) <==> exists s :: s in list && !Blank(s) && Trim(s) == x
    ensures Cleaned(list) == [] <==> AllBlank(list)
  {
    NonBlankMeaning(list);
    FirstOccurrencesMeaning(NonBlank(list));
    if Cleaned(list) != [] {
      assert Cleaned(list)[0] in Cleaned(list);
    } else {
      forall s | s in list ensures Blank(s) {
        assert Blank(s) || Trim(s) in Cleaned(list);
      }
    }
  }

  // ------------------------------------------------------------------- matching

  predicate MatchesAction(n: NormalRule, action: string) {
    exists a | a in n.actions :: MatcherTest(a, action)
  }

  predicate IncludesAny(held: seq<string>, needles: StringList) {
    needles.None? || needles.value == [] || exists s | s in needles.value :: s in held
  }

  predicate IncludesAll(held: seq<string>, needles: StringList) {
    needles.None? || forall s | s in needles.value :: s in held
  }

  predicate HasLabels(actual: Option<LabelSet>, required: Option<LabelSet>) {
    required.Some? ==>
      actual.Some? && forall k | k in required.value :: k in actual.value && actual.value[k] == required.value[k]
  }

  predicate LacksLabels(actual: LabelSet, forbidden: Option<LabelSet>) {
    forbidden.Some? ==> !(exists k | k in forbidden.value :: k in actual && actual[k] == forbidden.value[k])
  }

  predicate InEnvironment(expected: Option<Environment>, actual: Option<Environment>) {
    expected.Some? && expected.value != map[] ==>
      actual.Some? &&
      forall k | k in expected.value :: k in actual.value && Identical(expected.value[k], actual.value[k])
  }

  predicate ResourceApplies(kind: Option<string>, id: Option<string>, labels: Option<LabelSet>,
                            resource: Option<Resource>)
  {
    if kind.None? && id.None? && labels.None? then true
    else
      && resource.Some?
      && (kind.Some? ==> resource.value.kind != "" && MatcherTest(kind.value, resource.value.kind))
      && (id.Some? ==> Given(resource.value.id) && MatcherTest(id.value, resource.value.id.value))
      && HasLabels(resource.value.labels, labels)
  }

  predicate Identical(a: EnvValue, b: EnvValue) {
    a.Scalar? && a == b
  }

  predicate MatchesConditions(conditions: Option<Conditions>, input: Input) {
    conditions.None? ||
    var c, i := conditions.value, input.identity;
    && IncludesAny(i.roles, c.anyRoles) && IncludesAll(i.roles, c.allRoles)
    && IncludesAny(i.groups, c.anyGroups) && IncludesAll(i.groups, c.allGroups)
    && IncludesAny(i.scopes, c.anyScopes) && IncludesAll(i.scopes, c.allScopes)
    && IncludesAny(i.entitlements, c.anyEntitlements) && IncludesAll(i.entitlements, c.allEntitlements)
    && HasLabels(Some(i.labels), c.requireLabels)
    && LacksLabels(i.labels, c.forbidLabels)
    && InEnvironment(c.environment, input.environment)
  }

  predicate NormalMatches(n: NormalRule, input: Input) {
    && MatchesAction(n, input.action)
    && ResourceApplies(n.resourceType, n.resourceId, n.resourceLabels, input.resource)
    && MatchesConditions(n.conditions, input)
  }

  lemma ListsMean(list: StringList, held: seq<string>)
    ensures IncludesAny(held, NormalList(list)) <==> MeetsAny(list, held)
    ensures IncludesAll(held, NormalList(list)) <==> MeetsAll(list, held)
    ensures NormalList(list).None? ==> MeetsAny(list, held) && MeetsAll(list, held)
  {
    if list.Some? {
      CleanedMeaning(list.value);
    }
  }

  // Normalisation changes no rule's meaning.
  lemma NormalizationKeepsMeaning(r: Rule, input: Input)
    ensures NormalMatches(NormalOf(r), input) <==> Applies(r, input)
  {
    CleanedMeaning(r.actions);
    assert MatchesAction(NormalOf(r), input.action) <==> ActionApplies(r, input.action);
    ResourcesMean(r, input.resource);
    if r.conditions.Some? {
      ConditionsMean(r.conditions.value, input);
    }
  }

  lemma ResourcesMean(r: Rule, resource: Option<Resource>)
    ensures ResourceApplies(IfGiven(r.resourceType), IfGiven(r.resourceId), r.resourceLabels, resource) <==>
            ResourceMeant(r, resource)
  {
  }

  lemma LabelsMean(c: Conditions, input: Input)
    ensures HasLabels(Some(input.identity.labels), c.requireLabels) <==>
            CarriesAll(c.requireLabels, Some(input.identity.labels))
    ensures LacksLabels(input.identity.labels, c.forbidLabels) <==> CarriesNone(c.forbidLabels, input.identity.labels)
    ensures InEnvironment(c.environment, input.environment) <==> Surrounds(c.environment, input.environment)
  {
  }

  lemma ConditionsMean(c: Conditions, input: Input)
    ensures MatchesConditions(Some(NormalConditions(c)), input) <==> ConditionsHold(c, input)
    ensures !HasConditions(NormalConditions(c)) ==> ConditionsHold(c, input)
  {
    var i := input.identity;
    ListsMean(c.anyRoles, i.roles);
    ListsMean(c.allRoles, i.roles);
    ListsMean(c.anyGroups, i.groups);
    ListsMean(c.allGroups, i.groups);
    ListsMean(c.anyScopes, i.scopes);
    ListsMean(c.allScopes, i.scopes);
    ListsMean(c.anyEntitlements, i.entitlements);
    ListsMean(c.allEntitlements, i.entitlements);
    LabelsMean(c, input);
  }

  // ------------------------------------------------------------------ evaluation

  // `buildDecision`
  function DecisionOf(n: NormalRule, input: Input): Decision {
    Decision(n.effect == Allow, n.reason, n.obligations,
             match n.decisionJwt
             case None => None
             case Some(Fixed(text)) => Some(text)
             case Some(Made(factory)) => factory(input))
  }

  // The decision that a rule as written makes.
  lemma DecisionMeaning(r: Rule, input: Input)
    ensures var d := DecisionOf(NormalOf(r), input);
            && (d.allow <==> r.effect == Allow) && d.obligations == r.obligations
            && (r.reason.Some? ==> d.reason == r.reason)
            && (r.reason.None? && r.id.Some? && r.id.value != "" ==>
                  d.reason == Some("policy.rule." + r.id.value + (if r.effect == Allow then ".allow" else ".deny")))
            && (r.reason.None? && (r.id.None? || r.id.value == "") ==> d.reason == None)
            && (r.decisionJwt.None? ==> d.decisionJwt == None)
            && (r.decisionJwt.Some? && r.decisionJwt.value.Made? ==>
                  d.decisionJwt == r.decisionJwt.value.factory(input))
            && (r.decisionJwt.Some? && r.decisionJwt.value.Fixed? ==>
                  d.decisionJwt == if r.decisionJwt.value.text == "" then None else Some(r.decisionJwt.value.text))
  {
    assert "policy.rule." + r.id.GetOr("") + "." + "allow" == "policy.rule." + r.id.GetOr("") + ".allow";
    assert "policy.rule." + r.id.GetOr("") + "." + "deny" == "policy.rule." + r.id.GetOr("") + ".deny";
  }

  // Rule i is the first one of its effect that applies.
  ghost predicate FirstOf(rules: seq<Rule>, effect: Effect, input: Input, i: nat) {
    && i < |rules| && rules[i].effect == effect && Applies(rules[i], input)
    && forall j :: 0 <= j < i && rules[j].effect == effect ==> !Applies(rules[j], input)
  }

  ghost predicate SomeApplies(rules: seq<Rule>, effect: Effect, input: Input) {
    exists r :: r in rules && r.effect == effect && Applies(r, input)
  }

  ghost function FirstApplying(rules: seq<Rule>, effect: Effect, input: Input): Option<Rule> {
    if rules == [] then None
    else if rules[0].effect == effect && Applies(rules[0], input) then Some(rules[0])
    else FirstApplying(rules[1..], effect, input)
  }

  // The decision on the rules as written: the first denial, else the first permission, else the default.
  ghost function Verdict(rules: seq<Rule>, fallback: Decision, input: Input): Decision {
    match FirstApplying(rules, Deny, input)
    case Some(denial) => DecisionOf(NormalOf(denial), input)
    case None =>
      match FirstApplying(rules, Allow, input)
      case Some(permission) => DecisionOf(NormalOf(permission), input)
      case None => fallback
  }

  lemma {:induction false} FirstApplyingMeaning(rules: seq<Rule>, effect: Effect, input: Input)
    ensures forall i: nat :: FirstOf(rules, effect, input, i) ==> FirstApplying(rules, effect, input) == Some(rules[i])
    ensures FirstApplying(rules, effect, input).Some? <==> SomeApplies(rules, effect, input)
    ensures FirstApplying(rules, effect, input).Some? ==> FirstApplying(rules, effect, input).value.effect == effect
  {
    if rules != [] {
      FirstApplyingMeaning(rules[1..], effect, input);
      assert rules == [rules[0]] + rules[1..];
      forall i: nat | i > 0 && FirstOf(rules, effect, input, i) ensures FirstOf(rules[1..], effect, input, i - 1) {
        assert rules[1..][i - 1] == rules[i];
        assert forall j :: 0 <= j < i - 1 ==> rules[1..][j] == rules[j + 1];
      }
    }
  }

  class BasicPolicyEngine {
    const rules: seq<NormalRule>
    const defaultDecision: Decision
    ghost const written: seq<Rule>

    ghost predicate Valid() {
      |rules| == |written| && forall i :: 0 <= i < |rules| ==> rules[i] == NormalOf(written[i])
    }

    constructor (written: seq<Rule>, rules: seq<NormalRule>, defaultDecision: Option<Decision>)
      requires |rules| == |written| && forall i :: 0 <= i < |rules| ==> rules[i] == NormalOf(written[i])
      ensures Valid() && this.written == written
      ensures this.defaultDecision == defaultDecision.GetOr(DEFAULT_DENY)
    {
      this.written, this.rules, this.defaultDecision := written, rules, defaultDecision.GetOr(DEFAULT_DENY);
    }

    method Evaluate(input: Input) returns (d: Decision)
      requires Valid()
      ensures d == Verdict(written, defaultDecision, input)
    {
      var matchedAllowRule: Option<NormalRule> := None;
      for i := 0 to |rules|
        invariant FirstApplying(written[..i], Deny, input) == None
        invariant matchedAllowRule == NormalOption(FirstApplying(written[..i], Allow, input))
      {
        assert written[..i + 1] == written[..i] + [written[i]];
        FirstApplyingNext(written[..i], written[i], Deny, input);
        FirstApplyingNext(written[..i], written[i], Allow, input);
        var applies := RuleMatches(i, input);
        if !applies {
          continue;
        }
        if rules[i].effect == Deny {
          assert written == written[..i + 1] + written[i + 1..];
          FirstApplyingAppend(written[..i + 1], written[i + 1..], Deny, input);
          return DecisionOf(rules[i], input);
        }
        if matchedAllowRule.None? {
          matchedAllowRule := Some(rules[i]);
        }
      }
      assert written[..|rules|] == written;
      if matchedAllowRule.Some? {
        return DecisionOf(matchedAllowRule.value, input);
      }
      return defaultDecision;
    }

    method RuleMatches(i: nat, input: Input) returns (applies: bool)
      requires Valid() && i < |rules|
      ensures applies <==> Applies(written[i], input)
    {
      NormalizationKeepsMeaning(written[i], input);
      applies := NormalMatches(rules[i], input);
    }
  }

  // An engine for the rules as written, or the error of the first one without an action pattern.
  method CreateBasicPolicyEngine(written: seq<Rule>, defaultDecision: Option<Decision>)
    returns (r: Result<BasicPolicyEngine, string>)
    ensures r.Ok? <==> forall i :: 0 <= i < |written| ==> HasAction(written[i])
    ensures r.Ok? ==> fresh(r.value) && r.value.Valid() && r.value.written == written
    ensures r.Ok? ==> r.value.defaultDecision == defaultDecision.GetOr(DEFAULT_DENY)
  {
    var rules: seq<NormalRule> := [];
    for i := 0 to |written|
      invariant |rules| == i && forall j :: 0 <= j < i ==> rules[j] == NormalOf(written[j])
      invariant forall j :: 0 <= j < i ==> HasAction(written[j])
    {
      var normal := NormalizeRule(written[i]);
      if normal.Err? {
        return Err(normal.error);
      }
      rules := rules + [normal.value];
    }
    var engine := new BasicPolicyEngine(written, rules, defaultDecision);
    return Ok(engine);
  }

  // Rules in, decision out: an engine made for the rules gives the verdict on them.
  method Decide(written: seq<Rule>, defaultDecision: Option<Decision>, input: Input)
    returns (r: Result<Decision, string>)
    ensures r.Ok? <==> forall i :: 0 <= i < |written| ==> HasAction(written[i])
    ensures r.Ok? ==> r.value == Verdict(written, defaultDecision.GetOr(DEFAULT_DENY), input)
  {
    var engine := CreateBasicPolicyEngine(written, defaultDecision);
    if engine.Err? {
      return Err(engine.error);
    }
    var decision := engine.value.Evaluate(input);
    return Ok(decision);
  }

  function NormalOption(r: Option<Rule>): Option<NormalRule> {
    if r.Some? then Some(NormalOf(r.value)) else None
  }

  lemma {:induction false} FirstApplyingAppend(a: seq<Rule>, b: seq<Rule>, effect: Effect, input: Input)
    ensures FirstApplying(a + b, effect, input) ==
            FirstApplying(a, effect, input).OrElse(FirstApplying(b, effect, input))
  {
    if a == [] {
      assert a + b == b;
    } else {
      assert (a + b)[0] == a[0] && (a + b)[1..] == a[1..] + b;
      FirstApplyingAppend(a[1..], b, effect, input);
    }
  }

  lemma FirstApplyingNext(a: seq<Rule>, r: Rule, effect: Effect, input: Input)
    ensures FirstApplying(a + [r], effect, input) ==
            FirstApplying(a, effect, input).OrElse(if r.effect == effect && Applies(r, input) then Some(r) else None)
  {
    FirstApplyingAppend(a, [r], effect, input);
    assert [r][1..] == [];
  }

  // On one-line actions, a rule's patterns are the globs its author wrote, spaces around them aside.
  lemma ActionsAreGlobs(r: Rule, action: string)
    requires OneLine(action)
    ensures ActionApplies(r, action) <==> exists a :: a in r.actions && !Blank(a) && GlobAccepts(Trim(a), action)
  {
    forall a ensures !Blank(a) ==> (MatcherTest(Trim(a), action) <==> GlobAccepts(Trim(a), action)) {
      TrimTwice(a);
      MatcherMeaning(Trim(a), action);
    }
  }

  // ------------------------------------------------------------------ main results

  // The allow bit, without any order: a denial wins, then a permission, then the default.
  lemma AllowBit(rules: seq<Rule>, fallback: Decision, input: Input)
    ensures Verdict(rules, fallback, input).allow <==>
            !SomeApplies(rules, Deny, input) && (SomeApplies(rules, Allow, input) || fallback.allow)
  {
    FirstApplyingMeaning(rules, Deny, input);
    FirstApplyingMeaning(rules, Allow, input);
  }

  // Without rules that apply and a default of one's own, nobody is allowed.
  lemma DefaultDenies(rules: seq<Rule>, input: Input)
    requires !SomeApplies(rules, Allow, input)
    ensures !Verdict(rules, DEFAULT_DENY, input).allow
  {
    AllowBit(rules, DEFAULT_DENY, input);
  }

  // Reordering or repeating rules does not change who is allowed.
  lemma OrderDoesNotMatter(rules: seq<Rule>, others: seq<Rule>, fallback: Decision, input: Input)
    requires forall r :: r in rules <==> r in others
    ensures Verdict(rules, fallback, input).allow == Verdict(others, fallback, input).allow
  {
    AllowBit(rules, fallback, input);
    AllowBit(others, fallback, input);
  }

  // One more denial, anywhere in the list, allows exactly those allowed before to whom it does not apply.
  lemma DenialOnlyDenies(rules: seq<Rule>, denial: Rule, others: seq<Rule>, fallback: Decision, input: Input)
    requires denial.effect == Deny && forall r :: r in others <==> r in rules || r == denial
    ensures Verdict(others, fallback, input).allow <==>
            Verdict(rules, fallback, input).allow && !Applies(denial, input)
  {
    AllowBit(rules, fallback, input);
    AllowBit(others, fallback, input);
    assert denial in others;
  }
}
