/** The records that the profile stores, the caches and the forward-auth service exchange. */
module Contracts {
  import opened Prelude

  // Identifiers are non-empty, so the truthiness tests on them ask only whether they are given.
  type Id = s: string | s != "" witness "id"

  datatype LabelValue = Text(text: string) | Number(number: int) | Flag(flag: bool)

  type LabelSet = map<string, LabelValue>

  datatype User = User(id: Id, primaryOrgId: Option<Id>, labels: LabelSet, profile: string)

  datatype Org = Org(id: Id, slug: string, labels: LabelSet, profile: string)

  datatype Group = Group(id: Id, orgId: Id, slug: string, labels: LabelSet)

  datatype Membership = Membership(id: Id, userId: Id, orgId: Id, role: string, groupIds: seq<Id>,
                                   labelsDelta: LabelSet, createdAt: int)

  datatype SubjectKind = UserSubject | OrgSubject | MembershipSubject

  datatype Subject = Subject(kind: SubjectKind, id: Id)

  datatype Entitlement = Entitlement(id: Id, subject: Subject, entitlement: string, createdAt: int)

  datatype EffectiveIdentity = EffectiveIdentity(
    userId: Id, orgId: Option<Id>, groups: seq<Id>, labels: LabelSet,
    roles: seq<string>, entitlements: seq<string>, scopes: seq<string>)

  datatype IdentityRequest = IdentityRequest(
    userId: Id, orgId: Option<Id>, membershipId: Option<Id>, includeGroups: bool)

  datatype IdentityError =
    | UserNotFound(userId: Id)
    | MembershipNotFound(membershipId: Id)
    | MembershipOfOtherUser(membershipId: Id)
    | MembershipOfOtherOrg(membershipId: Id)
    | OrgNotFound(orgId: Id)

  type IdentityAnswer = Result<EffectiveIdentity, IdentityError>

  // ------------------------------------------------------------------- labels

  // Later sets win, key by key.
  function MergeLabels(sets: seq<LabelSet>): LabelSet {
    if sets == [] then map[] else MergeLabels(Front(sets)) + Last(sets)
  }

  method MergeLabelSets(sets: seq<Option<LabelSet>>) returns (merged: LabelSet)
    ensures merged == MergeLabels(Given(sets))
  {
    merged := map[];
    for i := 0 to |sets|
      invariant merged == MergeLabels(Given(sets[..i]))
    {
      assert Front(sets[..i + 1]) == sets[..i] && Last(sets[..i + 1]) == sets[i];
      if sets[i].Some? {
        merged := merged + sets[i].value;
        assert Given(sets[..i + 1]) == Given(sets[..i]) + [sets[i].value];
        assert Front(Given(sets[..i + 1])) == Given(sets[..i]);
      } else {
        assert Given(sets[..i + 1]) == Given(sets[..i]);
      }
    }
    assert sets[..|sets|] == sets;
  }

  // The operands that are not undefined.
  function Given<T>(options: seq<Option<T>>): seq<T> {
    if options == [] then []
    else Given(Front(options)) + if Last(options).Some? then [Last(options).value] else []
  }

  // Set i is the last one that mentions the name.
  ghost predicate LastMention(sets: seq<LabelSet>, name: string, i: nat) {
    i < |sets| && name in sets[i] && forall j :: i < j < |sets| ==> name !in sets[j]
  }

  // A merged name is exactly the one of the last set that mentions it.
  lemma {:induction false} LastMentionWins(sets: seq<LabelSet>, name: string)
    ensures name in MergeLabels(sets) <==> exists i: nat :: LastMention(sets, name, i)
    ensures forall i: nat :: LastMention(sets, name, i) ==>
              name in MergeLabels(sets) && MergeLabels(sets)[name] == sets[i][name]
  {
    if sets != [] {
      LastMentionWins(Front(sets), name);
      var n := |sets| - 1;
      if name in sets[n] {
        assert LastMention(sets, name, n);
      } else {
        assert forall i: nat :: LastMention(sets, name, i) <==> LastMention(Front(sets), name, i);
      }
    }
  }
}
