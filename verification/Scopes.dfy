/** API key scopes and permission rules: colon-separated texts such as `project:read:all`. */
module Scopes {
  import opened Strings
  import opened Wrappers

  // ---------------------------------------------------------------------------
  // Trimming
  // ---------------------------------------------------------------------------

  /** Unicode's White_Space characters, as `strings.TrimSpace` sees them. */
  predicate IsSpace(c: char) {
    var n := c as int;
    9 <= n <= 13 || n == 32 || n == 0x85 || n == 0xA0 || n == 0x1680 || 0x2000 <= n <= 0x200A ||
    n == 0x2028 || n == 0x2029 || n == 0x202F || n == 0x205F || n == 0x3000
  }

  function TrimLeft(s: string): string {
    if s == "" || !IsSpace(s[0]) then s else TrimLeft(s[1..])
  }

  function TrimRight(s: string): string {
    if s == "" || !IsSpace(s[|s| - 1]) then s else TrimRight(s[..|s| - 1])
  }

  function Trim(s: string): string {
    TrimRight(TrimLeft(s))
  }

  lemma {:induction false} TrimRightKeepsHead(s: string)
    ensures TrimRight(s) <= s
    ensures s != "" && !IsSpace(s[0]) ==> TrimRight(s) != "" && TrimRight(s)[0] == s[0]
    decreases |s|
  {
    if s != "" && IsSpace(s[|s| - 1]) {
      TrimRightKeepsHead(s[..|s| - 1]);
    }
  }

  lemma {:induction false} TrimLeftHead(s: string)
    ensures TrimLeft(s) != "" ==> !IsSpace(TrimLeft(s)[0])
    ensures TrimLeft(TrimLeft(s)) == TrimLeft(s)
    decreases |s|
  {
    if s != "" && IsSpace(s[0]) {
      TrimLeftHead(s[1..]);
    }
  }

  lemma {:induction false} TrimLeftAppend(s: string, c: char)
    ensures TrimLeft(s + [c]) == if TrimLeft(s) == "" && IsSpace(c) then "" else if TrimLeft(s) == "" then [c] else TrimLeft(s) + [c]
    decreases |s|
  {
    if s == "" {
      assert s + [c] == [c] && [c][1..] == "";
    } else if IsSpace(s[0]) {
      assert (s + [c])[1..] == s[1..] + [c];
      TrimLeftAppend(s[1..], c);
    }
  }

  /** The two ends can be trimmed in either order. */
  lemma {:induction false} TrimsCommute(s: string)
    ensures TrimLeft(TrimRight(s)) == TrimRight(TrimLeft(s))
    decreases |s|
  {
    if s != "" {
      var init, c := s[..|s| - 1], s[|s| - 1];
      assert s == init + [c];
      TrimLeftAppend(init, c);
      if IsSpace(c) {
        TrimsCommute(init);
        var left := TrimLeft(init);
        if left != "" {
          assert (left + [c])[..|left + [c]| - 1] == left;
        }
      } else {
        var left := TrimLeft(s);
        assert left != "" && left[|left| - 1] == c;
      }
    }
  }

  lemma TrimOfTrimmed(s: string)
    ensures Trim(TrimLeft(s)) == Trim(s) && Trim(TrimRight(s)) == Trim(s)
  {
    TrimLeftHead(s);
    TrimsCommute(s);
    TrimRightTwice(TrimLeft(s));
  }

  lemma {:induction false} TrimRightTwice(s: string)
    ensures TrimRight(TrimRight(s)) == TrimRight(s)
    decreases |s|
  {
    if s != "" && IsSpace(s[|s| - 1]) {
      TrimRightTwice(s[..|s| - 1]);
    }
  }

  // ---------------------------------------------------------------------------
  // Trimming and splitting
  // ---------------------------------------------------------------------------

  lemma SplitPrepend(s: string, c: char)
    requires c != ':'
    ensures Split([c] + s, ':') == [[c] + Split(s, ':')[0]] + Split(s, ':')[1..]
  {
    var t := [c] + s;
    assert t[1..] == s;
    assert IndexOf(t, ':') == 1 + IndexOf(s, ':');
    var i := IndexOf(s, ':');
    assert t[..i + 1] == [c] + s[..i];
    if i < |s| {
      assert t[i + 2..] == s[i + 1..];
    }
  }

  /** The parts with the last one replaced. */
  function WithLast(parts: seq<string>, x: string): seq<string>
    requires parts != []
  {
    parts[..|parts| - 1] + [x]
  }

  function Last(parts: seq<string>): string
    requires parts != []
  {
    parts[|parts| - 1]
  }

  lemma WithLastCons(h: string, parts: seq<string>, x: string)
    requires parts != []
    ensures WithLast([h] + parts, x) == [h] + WithLast(parts, x) && Last([h] + parts) == Last(parts)
  {
  }

  /** The first part and the rest of a text that has a colon. */
  lemma SplitAt(a: string, rest: string)
    requires ':' !in a
    ensures Split(a + [':'] + rest, ':') == [a] + Split(rest, ':')
    ensures Split(a, ':') == [a]
  {
    IndexOfPrefix(a, ':', rest);
    var s := a + [':'] + rest;
    assert s[..|a|] == a && s[|a| + 1..] == rest;
  }

  lemma {:induction false} SplitAppend(s: string, c: char)
    requires c != ':'
    ensures Split(s + [c], ':') == WithLast(Split(s, ':'), Last(Split(s, ':')) + [c])
    decreases |s|
  {
    var i := IndexOf(s, ':');
    if i == |s| {
      assert s[..i] == s;
      SplitAt(s, "");
      SplitAt(s + [c], "");
    } else {
      var a, rest := s[..i], s[i + 1..];
      assert s == a + [':'] + rest && s + [c] == a + [':'] + (rest + [c]);
      SplitAt(a, rest);
      SplitAt(a, rest + [c]);
      SplitAppend(rest, c);
      WithLastCons(a, Split(rest, ':'), Last(Split(rest, ':')) + [c]);
    }
  }

  lemma {:induction false} SplitTrimLeft(s: string)
    ensures Split(TrimLeft(s), ':') == [TrimLeft(Split(s, ':')[0])] + Split(s, ':')[1..]
    decreases |s|
  {
    if s == "" {
    } else if IsSpace(s[0]) {
      SplitTrimLeft(s[1..]);
      assert s == [s[0]] + s[1..];
      SplitPrepend(s[1..], s[0]);
      assert ([s[0]] + Split(s[1..], ':')[0])[1..] == Split(s[1..], ':')[0];
    } else {
      var p0 := Split(s, ':')[0];
      assert p0 != "" ==> p0[0] == s[0];
    }
  }

  lemma {:induction false} SplitTrimRight(s: string)
    ensures Split(TrimRight(s), ':') == WithLast(Split(s, ':'), TrimRight(Last(Split(s, ':'))))
    decreases |s|
  {
    if s != "" {
      var init, c := s[..|s| - 1], s[|s| - 1];
      assert s == init + [c];
      if c == ':' {
        SplitEndsEmpty(init);
      } else {
        SplitAppend(init, c);
        var last := Last(Split(init, ':'));
        assert Last(Split(s, ':')) == last + [c] && (last + [c])[..|last|] == last;
        if IsSpace(c) {
          SplitTrimRight(init);
        } else {
          assert TrimRight(last + [c]) == last + [c];
        }
      }
    }
  }

  lemma {:induction false} SplitEndsEmpty(s: string)
    ensures Last(Split(s + [':'], ':')) == ""
    decreases |s|
  {
    var i := IndexOf(s, ':');
    if i == |s| {
      assert s[..i] == s && s + [':'] == s + [':'] + "";
      SplitAt(s, "");
      SplitAt("", "");
    } else {
      var a, rest := s[..i], s[i + 1..];
      assert s + [':'] == a + [':'] + (rest + [':']);
      SplitAt(a, rest + [':']);
      SplitEndsEmpty(rest);
    }
  }

  /** Trimming the whole text trims only the outer ends of its parts. */
  lemma SplitTrim(s: string)
    ensures |Split(Trim(s), ':')| == |Split(s, ':')|
    ensures forall i :: 0 <= i < |Split(s, ':')| ==> Trim(Split(Trim(s), ':')[i]) == Trim(Split(s, ':')[i])
  {
    var p := Split(s, ':');
    var l := Split(TrimLeft(s), ':');
    var q := Split(Trim(s), ':');
    SplitTrimLeft(s);
    SplitTrimRight(TrimLeft(s));
    forall i | 0 <= i < |p| ensures Trim(q[i]) == Trim(p[i]) {
      TrimOfTrimmed(p[i]);
      TrimOfTrimmed(l[i]);
      assert i < |p| - 1 ==> q[i] == q[..|p| - 1][i] == l[..|p| - 1][i];
    }
  }

  // ---------------------------------------------------------------------------
  // Matching
  // ---------------------------------------------------------------------------

  /** A part of a scope covers a part of a target. */
  predicate Covers(part: string, target: string) {
    Trim(part) == "*" || Trim(part) == target
  }

  /** The parts cover the leading parts of the target; the parts left out cover anything. */
  predicate PartsCover(parts: seq<string>, target: seq<string>) {
    |parts| <= |target| && forall i :: 0 <= i < |parts| ==> Covers(parts[i], target[i])
  }

  /** What it means for a scope to match a target. */
  predicate Matches(scope: string, target: string) {
    Trim(scope) != "" && Trim(target) != "" && PartsCover(Split(scope, ':'), Split(Trim(target), ':'))
  }

  /** The part-by-part comparison of `apiKeyScopeMatchesTarget`: the scope is padded with stars
      to the target's length. */
  method ComparePadded(given: seq<string>, target: seq<string>) returns (r: bool)
    ensures r == PartsCover(given, target)
  {
    var scopeParts := given;
    if |scopeParts| > |target| {
      return false;
    }
    while |scopeParts| < |target|
      invariant |given| <= |scopeParts| <= |target| && given <= scopeParts
      invariant forall i :: |given| <= i < |scopeParts| ==> scopeParts[i] == "*"
    {
      scopeParts := scopeParts + ["*"];
    }
    StarIsTrimmed();
    for i := 0 to |target|
      invariant forall j :: 0 <= j < i && j < |given| ==> Covers(given[j], target[j])
    {
      var part := Trim(scopeParts[i]);
      if part == "*" {
        continue;
      }
      if part != target[i] {
        assert i < |given| && !Covers(given[i], target[i]);
        return false;
      }
    }
    return true;
  }

  /** `apiKeyScopeMatchesTarget`. */
  method ScopeMatchesTarget(scope: string, target: string) returns (r: bool)
    ensures r == Matches(scope, target)
  {
    var trimmed, wanted := Trim(scope), Trim(target);
    if trimmed == "" || wanted == "" {
      return false;
    }
    CoverTrimmed(scope, Split(wanted, ':'));
    if trimmed == "*" {
      SplitAt("*", "");
      StarIsTrimmed();
      return true;
    }
    r := ComparePadded(Split(trimmed, ':'), Split(wanted, ':'));
  }

  lemma StarIsTrimmed()
    ensures Trim("*") == "*"
  {
  }

  /** Trimming the scope first does not change what its parts cover. */
  lemma CoverTrimmed(scope: string, target: seq<string>)
    ensures PartsCover(Split(Trim(scope), ':'), target) <==> PartsCover(Split(scope, ':'), target)
  {
    SplitTrim(scope);
  }

  /** `apiKeyScopesAllowAnyTarget`. */
  method ScopesAllowAnyTarget(scopes: seq<string>, targets: seq<string>) returns (r: bool)
    ensures r <==> exists i, j :: 0 <= i < |scopes| && 0 <= j < |targets| && Matches(scopes[i], targets[j])
  {
    if |scopes| == 0 || |targets| == 0 {
      return false;
    }
    for i := 0 to |scopes|
      invariant forall a, b :: 0 <= a < i && 0 <= b < |targets| ==> !Matches(scopes[a], targets[b])
    {
      for j := 0 to |targets|
        invariant forall b :: 0 <= b < j ==> !Matches(scopes[i], targets[b])
      {
        var matches := ScopeMatchesTarget(scopes[i], targets[j]);
        if matches {
          return true;
        }
      }
    }
    return false;
  }

  ghost predicate ColonFree(parts: seq<string>) {
    forall i :: 0 <= i < |parts| ==> ':' !in parts[i]
  }

  /** Cutting parts off the end of a scope never loses a match, unless only blanks are left. */
  lemma TruncationWidens(parts: seq<string>, n: nat, target: string)
    requires ColonFree(parts) && 0 < n <= |parts| && Matches(Join(parts, ':'), target)
    ensures Matches(Join(parts[..n], ':'), target) <==> Trim(Join(parts[..n], ':')) != ""
  {
    SplitJoin(parts, ':');
    SplitJoin(parts[..n], ':');
    PrefixCovers(parts, n, Split(Trim(target), ':'));
  }

  /** For a target whose first part is not empty, truncation never loses the match. */
  lemma TruncationKeepsNamedTargets(parts: seq<string>, n: nat, target: string)
    requires ColonFree(parts) && 0 < n <= |parts| && Matches(Join(parts, ':'), target)
    requires Split(Trim(target), ':')[0] != ""
    ensures Matches(Join(parts[..n], ':'), target)
  {
    SplitJoin(parts, ':');
    assert Covers(parts[0], Split(Trim(target), ':')[0]);
    NotBlank(parts[..n], 0);
    TruncationWidens(parts, n, target);
  }

  lemma PrefixCovers(parts: seq<string>, n: nat, target: seq<string>)
    requires n <= |parts| && PartsCover(parts, target)
    ensures PartsCover(parts[..n], target)
  {
  }

  lemma NotBlank(parts: seq<string>, i: nat)
    requires ColonFree(parts) && i < |parts| && Trim(parts[i]) != ""
    ensures Trim(Join(parts, ':')) != ""
  {
    var s := Join(parts, ':');
    SplitJoin(parts, ':');
    SplitTrim(s);
    SplitAt("", "");
    assert Trim(Split(Trim(s), ':')[i]) == Trim(parts[i]);
  }

  /** Replacing a part by a star never loses a match. */
  lemma StarWidens(parts: seq<string>, i: nat, target: string)
    requires ColonFree(parts) && i < |parts| && Matches(Join(parts, ':'), target)
    ensures Matches(Join(parts[i := "*"], ':'), target)
  {
    var starred := parts[i := "*"];
    StarIsTrimmed();
    NotBlank(starred, i);
    SplitJoin(parts, ':');
    SplitJoin(starred, ':');
  }

  /** The bare star matches every target that is not blank. */
  lemma StarMatchesAll(target: string)
    requires Trim(target) != ""
    ensures Matches("*", target)
  {
    StarIsTrimmed();
    SplitAt("*", "");
  }

  // ---------------------------------------------------------------------------
  // Permission rules
  // ---------------------------------------------------------------------------

  datatype Rule = Rule(resource: string, action: string, scope: string)

  function PrintRule(r: Rule): string {
    r.resource + ":" + r.action + ":" + r.scope
  }

  /** `ParsePermissionRule`: exactly three parts. */
  function ParseRule(s: string): Option<Rule> {
    var parts := Split(s, ':');
    if |parts| != 3 then None else Some(Rule(parts[0], parts[1], parts[2]))
  }

  lemma PrintedIsJoined(r: Rule)
    ensures PrintRule(r) == Join([r.resource, r.action, r.scope], ':')
  {
    var parts := [r.resource, r.action, r.scope];
    assert parts[1..] == [r.action, r.scope] && parts[1..][1..] == [r.scope];
    assert Join([r.scope], ':') == r.scope;
    assert Join([r.action, r.scope], ':') == r.action + ":" + r.scope;
  }

  /** Printing and parsing are inverse: a printed rule parses back exactly when no part has a
      colon, and whatever parses prints back. */
  lemma RuleRoundTrips(r: Rule, s: string)
    ensures ParseRule(PrintRule(r)) == Some(r) <==> ColonFree([r.resource, r.action, r.scope])
    ensures ParseRule(s).Some? ==> PrintRule(ParseRule(s).value) == s
  {
    var parts := [r.resource, r.action, r.scope];
    PrintedIsJoined(r);
    if ColonFree(parts) {
      SplitJoin(parts, ':');
    }
    assert ParseRule(PrintRule(r)) == Some(r) ==> Split(PrintRule(r), ':') == parts;
    if ParseRule(s).Some? {
      var q := Split(s, ':');
      JoinSplit(s, ':');
      PrintedIsJoined(ParseRule(s).value);
      assert q == [q[0], q[1], q[2]];
    }
  }

  /** The targets of the permission checks are printed rules, whose resource has a name: for them
      truncation never loses a match. */
  lemma TruncationKeepsRules(parts: seq<string>, n: nat, r: Rule)
    requires ColonFree(parts) && 0 < n <= |parts| && Matches(Join(parts, ':'), PrintRule(r))
    requires ColonFree([r.resource, r.action, r.scope]) && Trim(r.resource) != ""
    ensures Matches(Join(parts[..n], ':'), PrintRule(r))
  {
    PrintedIsJoined(r);
    SplitJoin([r.resource, r.action, r.scope], ':');
    SplitTrim(PrintRule(r));
    assert Trim(Split(Trim(PrintRule(r)), ':')[0]) == Trim(r.resource);
    TruncationKeepsNamedTargets(parts, n, PrintRule(r));
  }

  /** A part without stars and outer blanks. */
  ghost predicate IsPlainPart(part: string) {
    part != "*" && part != "" && Trim(part) == part
  }

  ghost predicate IsPlainRule(r: Rule) {
    && ColonFree([r.resource, r.action, r.scope])
    && IsPlainPart(r.resource) && IsPlainPart(r.action) && IsPlainPart(r.scope)
  }

  lemma {:induction false} TrimLeftShrinks(s: string)
    ensures |TrimLeft(s)| <= |s| && (|TrimLeft(s)| == |s| ==> TrimLeft(s) == s)
    decreases |s|
  {
    if s != "" {
      TrimLeftShrinks(s[1..]);
    }
  }

  lemma TrimmedAtBothEnds(s: string)
    requires Trim(s) == s
    ensures TrimLeft(s) == s && TrimRight(s) == s
  {
    TrimLeftShrinks(s);
    TrimRightKeepsHead(TrimLeft(s));
  }

  lemma PlainRuleParts(r: Rule)
    requires IsPlainRule(r)
    ensures Split(PrintRule(r), ':') == Split(Trim(PrintRule(r)), ':') == [r.resource, r.action, r.scope]
    ensures Trim(PrintRule(r)) != ""
  {
    var s, parts := PrintRule(r), [r.resource, r.action, r.scope];
    PrintedIsJoined(r);
    SplitJoin(parts, ':');
    NotBlank(parts, 0);
    TrimmedAtBothEnds(r.resource);
    TrimmedAtBothEnds(r.scope);
    SplitTrimLeft(s);
    assert Split(TrimLeft(s), ':') == parts;
    SplitTrimRight(TrimLeft(s));
    assert WithLast(parts, r.scope) == parts;
  }

  /** A scope that spells out a rule matches that rule and no other. */
  lemma PlainScopeMatchesOnlyItself(r: Rule, other: Rule)
    requires IsPlainRule(r) && IsPlainRule(other)
    ensures Matches(PrintRule(r), PrintRule(other)) <==> r == other
  {
    PlainRuleParts(r);
    PlainRuleParts(other);
    PlainPartsCover([r.resource, r.action, r.scope], [other.resource, other.action, other.scope]);
  }

  lemma PlainPartsCover(a: seq<string>, b: seq<string>)
    requires |a| == |b| == 3 && forall i :: 0 <= i < 3 ==> IsPlainPart(a[i])
    ensures PartsCover(a, b) <==> a == b
  {
    assert forall i :: 0 <= i < 3 ==> (Covers(a[i], b[i]) <==> a[i] == b[i]);
  }
}
