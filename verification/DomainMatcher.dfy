/**
 `proxy/src/dns-relay/domain-matcher.ts`: patterns for the domains to bypass and the matcher made
 from them. The source matches texts by equality and by suffix; proved here is that this is matching
 of label lists.
 */
module DomainMatcher {
  import opened Text

  const MAX_BODY := 253
  const MAX_LABEL := 63

  /** Lower case, without one trailing dot. */
  function NormalizeDomain(name: string): string {
    var lower := Lower(name);
    if EndsWith(lower, ".") then lower[..|lower| - 1] else lower
  }

  predicate IsAlphanumeric(c: char) {
    'a' <= c <= 'z' || '0' <= c <= '9'
  }

  predicate IsLabel(s: string) {
    && 1 <= |s| <= MAX_LABEL
    && IsAlphanumeric(s[0]) && IsAlphanumeric(s[|s| - 1])
    && forall i :: 0 <= i < |s| ==> IsAlphanumeric(s[i]) || s[i] == '-'
  }

  predicate IsWildcard(normalized: string) { StartsWith(normalized, "*.") }

  /** The pattern without its `*.`. */
  function BodyOf(normalized: string): string {
    if IsWildcard(normalized) then normalized[2..] else normalized
  }

  predicate IsValidDomainPattern(pattern: string) {
    var body := BodyOf(NormalizeDomain(pattern));
    var labels := Split(body, '.');
    && 1 <= |body| <= MAX_BODY
    && |labels| >= 2
    && forall i :: 0 <= i < |labels| ==> IsLabel(labels[i])
  }

  /** What the source's matcher closes over. */
  datatype Matcher = Matcher(exact: set<string>, suffixes: seq<string>)

  const NEVER := Matcher({}, [])

  predicate Matches(m: Matcher, queryName: string) {
    var name := NormalizeDomain(queryName);
    name in m.exact || exists i | 0 <= i < |m.suffixes| :: |name| > |m.suffixes[i]| && EndsWith(name, m.suffixes[i])
  }

  function AddPattern(m: Matcher, pattern: string): Matcher {
    if !IsValidDomainPattern(pattern) then m
    else
      var normalized := NormalizeDomain(pattern);
      if IsWildcard(normalized) then m.(suffixes := m.suffixes + [normalized[1..]])
      else m.(exact := m.exact + {normalized})
  }

  function Compiled(patterns: seq<string>): Matcher {
    if patterns == [] then NEVER else AddPattern(Compiled(patterns[..|patterns| - 1]), patterns[|patterns| - 1])
  }

  method CreateDomainMatcher(patterns: seq<string>) returns (m: Matcher)
    ensures m == Compiled(patterns)
  {
    hide IsValidDomainPattern, NormalizeDomain;
    var exact: set<string>, suffixes: seq<string> := {}, [];
    for i := 0 to |patterns|
      invariant Matcher(exact, suffixes) == Compiled(patterns[..i])
    {
      assert patterns[..i + 1][..i] == patterns[..i];
      if IsValidDomainPattern(patterns[i]) {
        var normalized := NormalizeDomain(patterns[i]);
        if IsWildcard(normalized) {
          suffixes := suffixes + [normalized[1..]];
        } else {
          exact := exact + {normalized};
        }
      }
    }
    assert patterns[..|patterns|] == patterns;
    return Matcher(exact, suffixes);
  }

  // ---------------------------------------------------------------- label matching

  /** The labels of a name or pattern as compared. */
  function LabelsOf(name: string): (labels: seq<string>)
    ensures |labels| >= 1
  {
    Split(NormalizeDomain(name), '.')
  }

  predicate ProperSuffix(part: seq<string>, whole: seq<string>) {
    |part| < |whole| && whole[|whole| - |part|..] == part
  }

  /** The rule on labels: equal for an exact pattern, a proper suffix after the `*` for the other kind. */
  predicate LabelsMatch(pattern: seq<string>, name: seq<string>) {
    if |pattern| > 0 && pattern[0] == "*" then ProperSuffix(pattern[1..], name) else name == pattern
  }

  /** The exception: one empty label in front of a wildcard pattern's labels. */
  predicate OnlyEmptyInFront(pattern: seq<string>, name: seq<string>) {
    |pattern| > 0 && pattern[0] == "*" && name == [""] + pattern[1..]
  }

  /** Some valid pattern matches the name, label by label. */
  ghost predicate SomeMatch(patterns: seq<string>, name: string) {
    exists i | 0 <= i < |patterns| :: CoveredBy(patterns[i], name)
  }

  ghost predicate CoveredBy(pattern: string, name: string) {
    && IsValidDomainPattern(pattern)
    && LabelsMatch(LabelsOf(pattern), LabelsOf(name))
    && !OnlyEmptyInFront(LabelsOf(pattern), LabelsOf(name))
  }

  /** How the compiled matcher treats one pattern, on normalized texts. */
  predicate TextMatch(normalized: string, name: string) {
    if IsWildcard(normalized) then |name| > |normalized[1..]| && EndsWith(name, normalized[1..]) else name == normalized
  }

  lemma AddedMatches(m: Matcher, pattern: string, queryName: string)
    ensures Matches(AddPattern(m, pattern), queryName)
            <==> Matches(m, queryName)
                 || (IsValidDomainPattern(pattern) && TextMatch(NormalizeDomain(pattern), NormalizeDomain(queryName)))
  {
    hide IsValidDomainPattern, NormalizeDomain, EndsWith;
    var m', name := AddPattern(m, pattern), NormalizeDomain(queryName);
    if IsValidDomainPattern(pattern) && IsWildcard(NormalizeDomain(pattern)) {
      var suffix := NormalizeDomain(pattern)[1..];
      assert m'.suffixes == m.suffixes + [suffix];
      assert m'.suffixes[|m.suffixes|] == suffix;
      assert forall i :: 0 <= i < |m.suffixes| ==> m'.suffixes[i] == m.suffixes[i];
    }
  }

  lemma EqualLabels(a: string, b: string)
    ensures Split(a, '.') == Split(b, '.') <==> a == b
  {
    JoinSplit(a, '.');
    JoinSplit(b, '.');
  }

  lemma WildcardLabels(normalized: string)
    requires IsWildcard(normalized)
    ensures Split(normalized, '.') == ["*"] + Split(normalized[2..], '.')
  {
    assert normalized == "*" + ['.'] + normalized[2..];
    SplitAppend("*", normalized[2..], '.');
    SplitWhole("*", '.');
  }

  /** A text that ends with `.body` consists of something, a dot, and the body. */
  lemma SuffixLabels(name: string, body: string)
    ensures EndsWith(name, ['.'] + body) <==> ProperSuffix(Split(body, '.'), Split(name, '.'))
  {
    hide Split;
    var parts, whole := Split(body, '.'), Split(name, '.');
    if EndsWith(name, ['.'] + body) {
      var front := name[..|name| - |body| - 1];
      assert name == front + ['.'] + body;
      SplitAppend(front, body, '.');
      assert (Split(front, '.') + parts)[|Split(front, '.')|..] == parts;
    }
    if ProperSuffix(parts, whole) {
      LabelsEndText(name, body);
    }
  }

  lemma LabelsEndText(name: string, body: string)
    requires ProperSuffix(Split(body, '.'), Split(name, '.'))
    ensures EndsWith(name, ['.'] + body)
  {
    hide Split, Join;
    var parts, whole := Split(body, '.'), Split(name, '.');
    var front := whole[..|whole| - |parts|];
    assert whole == front + parts;
    JoinAppend(front, parts, '.');
    JoinSplit(name, '.');
    JoinSplit(body, '.');
    assert name == Join(front, '.') + (['.'] + body);
  }

  lemma EmptyFrontLabels(name: string, body: string)
    ensures name == ['.'] + body <==> Split(name, '.') == [""] + Split(body, '.')
  {
    SplitAppend("", body, '.');
    SplitWhole("", '.');
    assert "" + ['.'] + body == ['.'] + body;
    EqualLabels(name, ['.'] + body);
  }

  /** Comparing texts is comparing labels. */
  lemma TextMatchIsLabelMatch(normalized: string, name: string)
    requires !IsWildcard(normalized) ==> Split(normalized, '.')[0] != "*"
    ensures var p, n := Split(normalized, '.'), Split(name, '.');
            TextMatch(normalized, name) <==> LabelsMatch(p, n) && !OnlyEmptyInFront(p, n)
  {
    hide EndsWith, ProperSuffix, Split;
    EqualLabels(normalized, name);
    if IsWildcard(normalized) {
      var body := normalized[2..];
      assert normalized[1..] == ['.'] + body;
      WildcardLabels(normalized);
      assert Split(normalized, '.')[1..] == Split(body, '.');
      SuffixLabels(name, body);
      EmptyFrontLabels(name, body);
      SameLengthSuffix(name, ['.'] + body);
    }
  }

  lemma SameLengthSuffix(name: string, suffix: string)
    ensures EndsWith(name, suffix) ==> |name| >= |suffix| && (|name| == |suffix| <==> name == suffix)
  {
  }

  lemma ExactHasNoStar(pattern: string)
    requires IsValidDomainPattern(pattern) && !IsWildcard(NormalizeDomain(pattern))
    ensures LabelsOf(pattern)[0] != "*"
  {
    hide NormalizeDomain, Split;
    var labels := Split(BodyOf(NormalizeDomain(pattern)), '.');
    assert IsLabel(labels[0]);
  }

  /**
   The matcher is true exactly when some valid pattern matches label by label; the only exception is
   a name that is a wildcard pattern's labels behind a single empty one.
   */
  lemma {:induction false} MatchesExactly(patterns: seq<string>, name: string)
    ensures Matches(Compiled(patterns), name) <==> SomeMatch(patterns, name)
  {
    hide AddPattern, IsValidDomainPattern, NormalizeDomain, TextMatch, LabelsMatch, OnlyEmptyInFront, Split, IsWildcard, LabelsOf, CoveredBy;
    if patterns == [] {
      MatchesNothing(name);
    } else {
      var front, last := patterns[..|patterns| - 1], patterns[|patterns| - 1];
      MatchesExactly(front, name);
      AddedMatches(Compiled(front), last, name);
      OnePattern(last, name);
      assert forall i :: 0 <= i < |front| ==> front[i] == patterns[i];
      assert SomeMatch(patterns, name) <==> SomeMatch(front, name) || CoveredBy(last, name);
    }
  }

  lemma MatchesNothing(name: string)
    ensures !Matches(NEVER, name)
  {
  }

  lemma OnePattern(pattern: string, name: string)
    ensures CoveredBy(pattern, name)
            <==> IsValidDomainPattern(pattern) && TextMatch(NormalizeDomain(pattern), NormalizeDomain(name))
  {
    hide IsValidDomainPattern, NormalizeDomain, TextMatch, LabelsMatch, OnlyEmptyInFront, Split, IsWildcard;
    if IsValidDomainPattern(pattern) {
      if !IsWildcard(NormalizeDomain(pattern)) {
        ExactHasNoStar(pattern);
      }
      TextMatchIsLabelMatch(NormalizeDomain(pattern), NormalizeDomain(name));
    }
  }

  /** For names without empty labels the exception cannot arise: matching is label matching. */
  lemma NonemptyLabelsMatchExactly(patterns: seq<string>, name: string)
    requires forall k :: 0 <= k < |LabelsOf(name)| ==> LabelsOf(name)[k] != ""
    ensures Matches(Compiled(patterns), name)
            <==> exists i :: 0 <= i < |patterns| && IsValidDomainPattern(patterns[i])
                             && LabelsMatch(LabelsOf(patterns[i]), LabelsOf(name))
  {
    hide IsValidDomainPattern, LabelsOf, LabelsMatch, Matches, Compiled;
    MatchesExactly(patterns, name);
    assert LabelsOf(name)[0] != "";
    forall i | 0 <= i < |patterns|
      ensures CoveredBy(patterns[i], name)
              <==> IsValidDomainPattern(patterns[i]) && LabelsMatch(LabelsOf(patterns[i]), LabelsOf(name)) {
    }
  }

  /** The exception is real: the rule on labels says yes, the matcher says no. */
  lemma EmptyFrontLabelNotMatched()
    ensures IsValidDomainPattern("*.a.b")
    ensures LabelsMatch(LabelsOf("*.a.b"), LabelsOf(".a.b"))
    ensures !Matches(Compiled(["*.a.b"]), ".a.b")
  {
    hide Split, NormalizeDomain, Matches, Compiled;
    AbLabels();
    AbLabelsMatch();
    assert BodyOf("*.a.b") == "a.b";
    MatchesExactly(["*.a.b"], ".a.b");
    assert ["", "a", "b"] == [""] + ["*", "a", "b"][1..];
    assert OnlyEmptyInFront(["*", "a", "b"], ["", "a", "b"]);
  }

  lemma AbLabels()
    ensures NormalizeDomain("*.a.b") == "*.a.b" && Split("a.b", '.') == ["a", "b"]
    ensures LabelsOf("*.a.b") == ["*", "a", "b"] && LabelsOf(".a.b") == ["", "a", "b"]
  {
    hide Split, NormalizeDomain;
    AbNormalized();
    AbSplit();
    WildcardLabels("*.a.b");
    EmptyFrontLabels(".a.b", "a.b");
    assert "*.a.b"[2..] == "a.b" && ['.'] + "a.b" == ".a.b";
  }

  lemma AbLabelsMatch()
    ensures LabelsMatch(["*", "a", "b"], ["", "a", "b"])
  {
    assert ["", "a", "b"][1..] == ["*", "a", "b"][1..];
  }

  lemma AbNormalized()
    ensures NormalizeDomain("*.a.b") == "*.a.b" && NormalizeDomain(".a.b") == ".a.b"
  {
    assert Lower("*.a.b") == "*.a.b" && Lower(".a.b") == ".a.b";
  }

  lemma AbSplit()
    ensures Split("a.b", '.') == ["a", "b"]
  {
    SplitAppend("a", "b", '.');
    SplitWhole("a", '.');
    SplitWhole("b", '.');
    assert "a" + ['.'] + "b" == "a.b";
  }

  // ---------------------------------------------------------------- what a pattern is

  /** A letter or digit; or two of them around at most 61 letters, digits and hyphens. */
  ghost predicate IsLabelText(s: string) {
    || (|s| == 1 && IsAlphanumeric(s[0]))
    || exists a: char, middle: string, z: char :: Framed(s, a, middle, z)
  }

  ghost predicate Framed(s: string, a: char, middle: string, z: char) {
    && s == [a] + middle + [z] && IsAlphanumeric(a) && IsAlphanumeric(z) && |middle| <= 61
    && forall c :: c in middle ==> IsAlphanumeric(c) || c == '-'
  }

  lemma FramedIsLabel(s: string, a: char, middle: string, z: char)
    requires Framed(s, a, middle, z)
    ensures IsLabel(s)
  {
    hide IsAlphanumeric;
    forall i | 0 <= i < |s| ensures IsAlphanumeric(s[i]) || s[i] == '-' {
      if 0 < i < |s| - 1 {
        assert s[i] == middle[i - 1];
        assert middle[i - 1] in middle;
      }
    }
  }

  lemma LabelIsFramed(s: string)
    requires IsLabel(s) && |s| > 1
    ensures Framed(s, s[0], s[1..|s| - 1], s[|s| - 1])
  {
    hide IsAlphanumeric;
    var middle := s[1..|s| - 1];
    assert s == [s[0]] + middle + [s[|s| - 1]];
    forall c | c in middle ensures IsAlphanumeric(c) || c == '-' {
      var k :| 0 <= k < |middle| && middle[k] == c;
      assert s[k + 1] == c;
    }
  }

  lemma LabelExactly(s: string)
    ensures IsLabel(s) <==> IsLabelText(s)
  {
    hide IsAlphanumeric, Framed;
    if IsLabel(s) && |s| > 1 {
      LabelIsFramed(s);
    }
    if a: char, middle: string, z: char :| Framed(s, a, middle, z) {
      FramedIsLabel(s, a, middle, z);
    }
  }

  /** The labels of a pattern, at least two, and together with their dots at most 253 characters. */
  ghost predicate AreBodyLabels(labels: seq<string>) {
    |labels| >= 2 && |Join(labels, '.')| <= 253 && forall k :: 0 <= k < |labels| ==> IsLabelText(labels[k])
  }

  lemma LabelsJoin(labels: seq<string>)
    requires AreBodyLabels(labels)
    ensures Split(Join(labels, '.'), '.') == labels && Join(labels, '.') != "" && Join(labels, '.')[0] != '*'
    ensures forall k :: 0 <= k < |labels| ==> IsLabel(labels[k])
  {
    hide Split, IsLabelText;
    forall k | 0 <= k < |labels| ensures IsLabel(labels[k]) && '.' !in labels[k] {
      LabelExactly(labels[k]);
    }
    SplitJoin(labels, '.');
    assert Join(labels, '.')[0] == labels[0][0];
  }

  /**
   A pattern is valid exactly when, lower-cased and without one trailing dot, it is at least two labels
   joined by dots, or such a name behind `*.`.
   */
  lemma PatternExactly(pattern: string)
    ensures IsValidDomainPattern(pattern)
            <==> exists labels | AreBodyLabels(labels) ::
                   NormalizeDomain(pattern) == Join(labels, '.') || NormalizeDomain(pattern) == "*." + Join(labels, '.')
  {
    hide Split, NormalizeDomain, IsLabel, IsLabelText, AreBodyLabels, Join;
    var n := NormalizeDomain(pattern);
    if IsValidDomainPattern(pattern) {
      ValidBody(n);
      JoinSplit(BodyOf(n), '.');
      assert IsWildcard(n) ==> n == "*." + n[2..];
    }
    forall labels | AreBodyLabels(labels) && (n == Join(labels, '.') || n == "*." + Join(labels, '.'))
      ensures IsValidDomainPattern(pattern)
    {
      LabelsJoin(labels);
      BodyIs(n, Join(labels, '.'));
      LabelsBound(labels);
    }
  }

  lemma LabelsBound(labels: seq<string>)
    requires AreBodyLabels(labels)
    ensures |labels| >= 2 && |Join(labels, '.')| <= 253
  {
  }

  lemma BodyIs(n: string, body: string)
    requires body != "" && body[0] != '*' && (n == body || n == "*." + body)
    ensures BodyOf(n) == body
  {
    assert |n| >= 2 ==> n[..2][0] == n[0];
    if n != body {
      assert n[..2] == "*." && n[2..] == body;
    }
  }

  lemma ValidBody(n: string)
    requires var labels := Split(BodyOf(n), '.');
             |BodyOf(n)| <= 253 && |labels| >= 2 && forall i :: 0 <= i < |labels| ==> IsLabel(labels[i])
    ensures AreBodyLabels(Split(BodyOf(n), '.'))
  {
    hide Split, IsLabel, IsLabelText;
    var labels := Split(BodyOf(n), '.');
    JoinSplit(BodyOf(n), '.');
    forall k | 0 <= k < |labels| ensures IsLabelText(labels[k]) {
      LabelExactly(labels[k]);
    }
  }

  // ---------------------------------------------------------------- what does not matter

  /** Up to case and one trailing dot, every pattern of one list is in the other. */
  ghost predicate Within(a: seq<string>, b: seq<string>) {
    forall p | p in a :: exists q | q in b :: NormalizeDomain(p) == NormalizeDomain(q)
  }

  lemma SomeMatchMonotone(a: seq<string>, b: seq<string>, name: string)
    requires Within(a, b) && SomeMatch(a, name)
    ensures SomeMatch(b, name)
  {
    hide NormalizeDomain, Split, LabelsMatch, OnlyEmptyInFront;
    var i :| 0 <= i < |a| && CoveredBy(a[i], name);
    assert a[i] in a;
    var q :| q in b && NormalizeDomain(a[i]) == NormalizeDomain(q);
    assert CoveredBy(q, name);
  }

  /** Order, duplicates, case and one trailing dot do not matter, in patterns or in the name. */
  lemma OnlyContentsMatter(a: seq<string>, b: seq<string>, name1: string, name2: string)
    requires Within(a, b) && Within(b, a)
    requires NormalizeDomain(name1) == NormalizeDomain(name2)
    ensures Matches(Compiled(a), name1) <==> Matches(Compiled(b), name2)
  {
    hide NormalizeDomain, Within, CoveredBy, Compiled, Split;
    MatchesExactly(a, name1);
    MatchesExactly(b, name1);
    if SomeMatch(a, name1) {
      SomeMatchMonotone(a, b, name1);
    }
    if SomeMatch(b, name1) {
      SomeMatchMonotone(b, a, name1);
    }
    assert Matches(Compiled(b), name1) == Matches(Compiled(b), name2);
  }

  lemma CaseAndDotNormalized(name: string)
    ensures NormalizeDomain(Lower(name)) == NormalizeDomain(name)
    ensures !EndsWith(name, ".") ==> NormalizeDomain(name + ".") == NormalizeDomain(name)
  {
    LowerIdempotent(name);
    if !EndsWith(name, ".") {
      LowerAppend(name, ".");
      assert Lower(".") == ".";
      assert Lower(name + ".")[..|name|] == Lower(name);
    }
  }
}
