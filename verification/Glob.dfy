/**
 The policy engine's glob patterns, compiled to regular-expression text. The text is given meaning
 by a parser for the part of ECMAScript's syntax it uses, and by the language of its terms.
 */
module Glob {
  import opened Prelude

  // ECMAScript's SyntaxCharacter.
  const SYNTAX := {'^', '$', '\\', '.', '*', '+', '?', '(', ')', '[', ']', '{', '}', '|'}

  const LINE_TERMINATORS := {'\n', '\r', '\U{2028}', '\U{2029}'}

  predicate IsSpace(c: char) {
    || c in LINE_TERMINATORS
    || c in {'\t', '\U{B}', '\U{C}', ' ', '\U{A0}', '\U{FEFF}', '\U{1680}', '\U{202F}', '\U{205F}', '\U{3000}'}
    || '\U{2000}' <= c <= '\U{200A}'
  }

  function TrimStart(s: string): string {
    if s != "" && IsSpace(s[0]) then TrimStart(s[1..]) else s
  }

  function TrimEnd(s: string): string {
    if s != "" && IsSpace(Last(s)) then TrimEnd(Front(s)) else s
  }

  function Trim(s: string): string {
    TrimEnd(TrimStart(s))
  }

  lemma {:induction false} TrimEndMeaning(s: string)
    ensures TrimEnd(s) <= s && (TrimEnd(s) == "" || !IsSpace(Last(TrimEnd(s))))
  {
    if s != "" && IsSpace(Last(s)) {
      TrimEndMeaning(Front(s));
    }
  }

  lemma {:induction false} TrimStartMeaning(s: string)
    ensures TrimStart(s) == "" || !IsSpace(TrimStart(s)[0])
  {
    if s != "" && IsSpace(s[0]) {
      TrimStartMeaning(s[1..]);
    }
  }

  // Trimming takes spaces off both ends, and all of them.
  lemma TrimMeaning(s: string) returns (before: string, after: string)
    ensures s == before + Trim(s) + after
    ensures (forall c :: c in before ==> IsSpace(c)) && (forall c :: c in after ==> IsSpace(c))
    ensures Trim(s) != "" ==> !IsSpace(Trim(s)[0]) && !IsSpace(Last(Trim(s)))
  {
    before := TrimStartTakes(s);
    after := TrimEndTakes(TrimStart(s));
    TrimStartMeaning(s);
    TrimEndMeaning(TrimStart(s));
  }

  lemma {:induction false} TrimStartTakes(s: string) returns (before: string)
    ensures s == before + TrimStart(s) && forall c :: c in before ==> IsSpace(c)
  {
    before := "";
    if s != "" && IsSpace(s[0]) {
      var rest := TrimStartTakes(s[1..]);
      before := [s[0]] + rest;
    }
  }

  lemma {:induction false} TrimEndTakes(s: string) returns (after: string)
    ensures s == TrimEnd(s) + after && forall c :: c in after ==> IsSpace(c)
  {
    after := "";
    if s != "" && IsSpace(Last(s)) {
      var rest := TrimEndTakes(Front(s));
      after := rest + [Last(s)];
    }
  }

  // A trimmed string has nothing left to trim.
  lemma TrimTwice(s: string)
    ensures Trim(Trim(s)) == Trim(s)
  {
    TrimStartMeaning(s);
    TrimEndMeaning(TrimStart(s));
  }

  // ----------------------------------------------------------------- compilation

  // What `escapeForRegExp` replaces.
  const ESCAPED := {'.', '*', '+', '?', '^', '$', '{', '}', '(', ')', '|', '[', ']', '\\'}

  // `escapeForRegExp`
  function Escape(s: string): string {
    if s == "" then ""
    else (if s[0] in ESCAPED then ['\\', s[0]] else [s[0]]) + Escape(s[1..])
  }

  // Replacing every `\*`, from left to right, by `.*`.
  function ReplaceStars(s: string): string {
    if |s| < 2 then s
    else if s[0] == '\\' && s[1] == '*' then ".*" + ReplaceStars(s[2..])
    else [s[0]] + ReplaceStars(s[1..])
  }

  function Compile(pattern: string): string {
    "^" + ReplaceStars(Escape(pattern)) + "$"
  }

  // ------------------------------------------------------------ regular expressions

  datatype Atom = Literal(c: char) | Dot

  datatype Term = Term(atom: Atom, star: bool)

  // The terms between `^` and `$`.
  function ParseRegExp(text: string): Option<seq<Term>> {
    if text != "" && text[0] == '^' then ParseTerms(text[1..]) else None
  }

  function ParseTerms(text: string): Option<seq<Term>>
    decreases |text|, 1
  {
    if text == "" then None
    else if text[0] == '$' then if |text| == 1 then Some([]) else None
    else if text[0] == '\\' then
      if |text| > 1 && text[1] in SYNTAX then Quantified(Literal(text[1]), text[2..]) else None
    else if text[0] == '.' then Quantified(Dot, text[1..])
    else if text[0] in SYNTAX then None
    else Quantified(Literal(text[0]), text[1..])
  }

  function Quantified(atom: Atom, rest: string): Option<seq<Term>>
    decreases |rest|, 2
  {
    var starred := rest != "" && rest[0] == '*';
    var more := ParseTerms(if starred then rest[1..] else rest);
    if more.None? then None else Some([Term(atom, starred)] + more.value)
  }

  predicate Accepts(atom: Atom, c: char) {
    if atom.Dot? then c !in LINE_TERMINATORS else c == atom.c
  }

  // The language of a sequence of terms.
  predicate Matches(terms: seq<Term>, s: string)
    decreases |terms|, |s|
  {
    if terms == [] then s == ""
    else if terms[0].star then
      || Matches(terms[1..], s)
      || (s != "" && Accepts(terms[0].atom, s[0]) && Matches(terms, s[1..]))
    else s != "" && Accepts(terms[0].atom, s[0]) && Matches(terms[1..], s[1..])
  }

  // `expression.test`
  predicate Test(text: string, s: string) {
    ParseRegExp(text).Some? && Matches(ParseRegExp(text).value, s)
  }

  // `createMatcher(pattern).test`
  predicate MatcherTest(pattern: string, s: string) {
    if pattern == "*" then true
    else if Trim(pattern) == "" then false
    else Test(Compile(Trim(pattern)), s)
  }

  // ------------------------------------------------------------ the specification

  ghost predicate OneLine(s: string) {
    forall c :: c in s ==> c !in LINE_TERMINATORS
  }

  // Every character stands for itself, except that a star stands for any string.
  ghost predicate GlobAccepts(pattern: string, s: string)
    decreases |pattern|
  {
    if pattern == "" then s == ""
    else if pattern[0] == '*' then exists k :: 0 <= k <= |s| && GlobAccepts(pattern[1..], s[k..])
    else s != "" && s[0] == pattern[0] && GlobAccepts(pattern[1..], s[1..])
  }

  // The same with stars that stay within a line.
  ghost predicate LineGlobAccepts(pattern: string, s: string)
    decreases |pattern|
  {
    if pattern == "" then s == ""
    else if pattern[0] == '*' then
      exists k :: 0 <= k <= |s| && OneLine(s[..k]) && LineGlobAccepts(pattern[1..], s[k..])
    else s != "" && s[0] == pattern[0] && LineGlobAccepts(pattern[1..], s[1..])
  }

  // ------------------------------------------------------- the text parses as meant

  function TermOf(c: char): Term {
    if c == '*' then Term(Dot, true) else Term(Literal(c), false)
  }

  function TermsOf(pattern: string): seq<Term> {
    if pattern == "" then [] else [TermOf(pattern[0])] + TermsOf(pattern[1..])
  }

  function Coded(pattern: string): string {
    if pattern == "" then ""
    else
      (if pattern[0] == '*' then ".*" else if pattern[0] in SYNTAX then ['\\', pattern[0]] else [pattern[0]])
      + Coded(pattern[1..])
  }

  // An escaped character in front of a text that does not start with a star.
  lemma ReplacedNext(c: char, rest: string)
    requires rest == "" || rest[0] != '*'
    ensures c !in SYNTAX ==> ReplaceStars([c] + rest) == [c] + ReplaceStars(rest)
    ensures c in SYNTAX && c != '*' ==> ReplaceStars(['\\', c] + rest) == ['\\', c] + ReplaceStars(rest)
    ensures c == '*' ==> ReplaceStars(['\\', c] + rest) == ".*" + ReplaceStars(rest)
  {
    assert ([c] + rest)[1..] == rest;
    if rest == "" {
      assert [c] + rest == [c];
    }
    var s := ['\\', c] + rest;
    assert s[2..] == rest && s[1..] == [c] + rest;
    if c != '*' {
      assert ReplaceStars([c] + rest) == [c] + ReplaceStars(rest);
      assert ReplaceStars(s) == ['\\'] + ([c] + ReplaceStars(rest));
    }
  }

  // A star in the escaped text follows the backslash that escapes it.
  lemma {:induction false} StarsReplaced(pattern: string)
    ensures ReplaceStars(Escape(pattern)) == Coded(pattern)
    ensures Escape(pattern) == "" || Escape(pattern)[0] != '*'
  {
    if pattern != "" {
      StarsReplaced(pattern[1..]);
      ReplacedNext(pattern[0], Escape(pattern[1..]));
    }
  }

  // The code of a character in front of a text that does not start with a star.
  lemma ParsedNext(c: char, rest: string, terms: seq<Term>)
    requires rest != "" && rest[0] != '*' && ParseTerms(rest) == Some(terms)
    ensures c == '*' ==> ParseTerms(".*" + rest) == Some([TermOf(c)] + terms)
    ensures c != '*' && c in SYNTAX ==> ParseTerms(['\\', c] + rest) == Some([TermOf(c)] + terms)
    ensures c !in SYNTAX ==> ParseTerms([c] + rest) == Some([TermOf(c)] + terms)
  {
    assert (".*" + rest)[1..] == "*" + rest && ("*" + rest)[1..] == rest;
    assert (['\\', c] + rest)[2..] == rest;
    assert ([c] + rest)[1..] == rest;
  }

  lemma {:induction false} CodedParses(pattern: string)
    ensures ParseTerms(Coded(pattern) + "$") == Some(TermsOf(pattern))
    ensures (Coded(pattern) + "$")[0] != '*'
  {
    if pattern == "" {
      assert Coded(pattern) + "$" == "$";
    } else {
      var c, rest := pattern[0], Coded(pattern[1..]) + "$";
      CodedParses(pattern[1..]);
      ParsedNext(c, rest, TermsOf(pattern[1..]));
      var code := if c == '*' then ".*" else if c in SYNTAX then ['\\', c] else [c];
      assert Coded(pattern) + "$" == code + rest;
    }
  }

  // Whatever the pattern, its text parses to one term per character.
  lemma CompiledParses(pattern: string)
    ensures ParseRegExp(Compile(pattern)) == Some(TermsOf(pattern))
  {
    StarsReplaced(pattern);
    CodedParses(pattern);
    assert Compile(pattern)[1..] == Coded(pattern) + "$";
  }

  // ------------------------------------------------------- the language is as meant

  lemma {:induction false} TermsAccept(pattern: string, s: string)
    ensures Matches(TermsOf(pattern), s) <==> LineGlobAccepts(pattern, s)
    decreases |pattern|, |s|
  {
    if pattern != "" {
      assert TermsOf(pattern)[1..] == TermsOf(pattern[1..]);
      if pattern[0] == '*' {
        TermsAccept(pattern[1..], s);
        assert s[0..] == s && s[..0] == "";
        if s != "" {
          TermsAccept(pattern, s[1..]);
          StarStep(pattern, s);
        }
      } else if s != "" {
        TermsAccept(pattern[1..], s[1..]);
      }
    }
  }

  // A star takes nothing, or one more character of the line.
  lemma StarStep(pattern: string, s: string)
    requires pattern != "" && pattern[0] == '*' && s != ""
    ensures LineGlobAccepts(pattern, s) <==>
            || LineGlobAccepts(pattern[1..], s)
            || (s[0] !in LINE_TERMINATORS && LineGlobAccepts(pattern, s[1..]))
  {
    if LineGlobAccepts(pattern, s) {
      StarTakes(pattern, s);
    }
    if LineGlobAccepts(pattern[1..], s) {
      assert s[0..] == s && OneLine(s[..0]);
    }
    if s[0] !in LINE_TERMINATORS && LineGlobAccepts(pattern, s[1..]) {
      StarTakesMore(pattern, s);
    }
  }

  lemma StarTakes(pattern: string, s: string)
    requires pattern != "" && pattern[0] == '*' && s != "" && LineGlobAccepts(pattern, s)
    ensures LineGlobAccepts(pattern[1..], s) || (s[0] !in LINE_TERMINATORS && LineGlobAccepts(pattern, s[1..]))
  {
    var k :| 0 <= k <= |s| && OneLine(s[..k]) && LineGlobAccepts(pattern[1..], s[k..]);
    if k == 0 {
      assert s[k..] == s;
    } else {
      assert s[0] in s[..k];
      assert s[1..][..k - 1] == s[..k][1..] && s[1..][k - 1..] == s[k..];
      assert OneLine(s[1..][..k - 1]);
    }
  }

  lemma StarTakesMore(pattern: string, s: string)
    requires pattern != "" && pattern[0] == '*' && s != ""
    requires s[0] !in LINE_TERMINATORS && LineGlobAccepts(pattern, s[1..])
    ensures LineGlobAccepts(pattern, s)
  {
    var k :| 0 <= k <= |s| - 1 && OneLine(s[1..][..k]) && LineGlobAccepts(pattern[1..], s[1..][k..]);
    assert s[..k + 1] == [s[0]] + s[1..][..k] && s[1..][k..] == s[k + 1..];
    assert OneLine(s[..k + 1]);
  }

  lemma {:induction false} OneLineSame(pattern: string, s: string)
    requires OneLine(s)
    ensures LineGlobAccepts(pattern, s) <==> GlobAccepts(pattern, s)
    decreases |pattern|
  {
    if pattern != "" {
      if pattern[0] == '*' {
        forall k | 0 <= k <= |s|
          ensures OneLine(s[..k]) && (LineGlobAccepts(pattern[1..], s[k..]) <==> GlobAccepts(pattern[1..], s[k..]))
        {
          OneLineSame(pattern[1..], s[k..]);
        }
      } else if s != "" {
        OneLineSame(pattern[1..], s[1..]);
      }
    }
  }

  // ------------------------------------------------------------------ main results

  // On every candidate, the compiled expression accepts the glob whose stars stay within a line.
  lemma CompilationExact(pattern: string, s: string)
    ensures Test(Compile(pattern), s) <==> LineGlobAccepts(pattern, s)
  {
    CompiledParses(pattern);
    TermsAccept(pattern, s);
  }

  // What a matcher is for.
  ghost predicate Means(pattern: string, s: string) {
    Trim(pattern) != "" && GlobAccepts(Trim(pattern), s)
  }

  lemma MatcherMeaning(pattern: string, s: string)
    requires OneLine(s)
    ensures MatcherTest(pattern, s) <==> Means(pattern, s)
  {
    CompilationExact(Trim(pattern), s);
    OneLineSame(Trim(pattern), s);
    if pattern == "*" {
      assert Trim("*") == "*";
      assert s[|s|..] == "";
      assert GlobAccepts("", s[|s|..]);
      assert "*"[1..] == "";
    }
  }

  // On every candidate: the pattern that is one star and nothing else accepts all of them; any other
  // accepts the glob it is once trimmed, with stars that stay within a line, and nothing if it is blank.
  lemma MatcherExact(pattern: string, s: string)
    ensures MatcherTest(pattern, s) <==>
            pattern == "*" || (Trim(pattern) != "" && LineGlobAccepts(Trim(pattern), s))
  {
    CompilationExact(Trim(pattern), s);
  }

  // White space and line terminators, by sections 12.2 and 12.3 of ECMAScript.
  lemma SpaceMeaning(c: char)
    ensures c in LINE_TERMINATORS <==> c as int in {0xA, 0xD, 0x2028, 0x2029}
    ensures IsSpace(c) <==>
            || c as int in {0x9, 0xA, 0xB, 0xC, 0xD, 0x20, 0xA0, 0x1680, 0x2028, 0x2029, 0x202F, 0x205F, 0x3000, 0xFEFF}
            || 0x2000 <= c as int <= 0x200A
  {
  }

  // Matchers do what they are for, all of them, exactly on the candidates without line terminators.
  lemma MatchersExact(s: string)
    ensures (forall pattern :: MatcherTest(pattern, s) <==> Means(pattern, s)) <==> OneLine(s)
  {
    if OneLine(s) {
      forall pattern ensures MatcherTest(pattern, s) <==> Means(pattern, s) {
        MatcherMeaning(pattern, s);
      }
    } else {
      assert Trim("**") == "**";
      CompilationExact("**", s);
      if LineGlobAccepts("**", s) {
        TwoStarsOneLine(s);
      }
      assert s[0..] == s && s[|s|..] == "";
      assert GlobAccepts("", s[|s|..]);
      assert "*"[1..] == "" && "**"[1..] == "*";
      assert GlobAccepts("*", s[0..]);
      assert Means("**", s);
      assert !MatcherTest("**", s);
    }
  }

  lemma StarTaken(pattern: string, s: string) returns (k: nat)
    requires pattern != "" && pattern[0] == '*' && LineGlobAccepts(pattern, s)
    ensures k <= |s| && OneLine(s[..k]) && LineGlobAccepts(pattern[1..], s[k..])
  {
    k :| 0 <= k <= |s| && OneLine(s[..k]) && LineGlobAccepts(pattern[1..], s[k..]);
  }

  lemma OneLineConcat(a: string, b: string)
    requires OneLine(a) && OneLine(b)
    ensures OneLine(a + b)
  {
  }

  lemma TwoStarsOneLine(s: string)
    requires LineGlobAccepts("**", s)
    ensures OneLine(s)
  {
    var k := StarTaken("**", s);
    assert "**"[1..] == "*";
    var j := StarTaken("*", s[k..]);
    assert "*"[1..] == "";
    assert s[k..][..j] == s[k..];
    OneLineConcat(s[..k], s[k..]);
    assert s == s[..k] + s[k..];
  }
}
