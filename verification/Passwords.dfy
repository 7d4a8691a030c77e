/** Password generation and validation: what a generated password can be, and how it is rated. */
module Passwords {
  import opened Wrappers

  newtype Byte = x: int | 0 <= x < 256

  datatype Strength = Weak | Moderate | Strong | VeryStrong

  const MIN_LENGTH := 8
  const MAX_LENGTH := 128

  predicate Within(s: string, charset: string) {
    forall c :: c in s ==> c in charset
  }

  predicate Disjoint(a: string, b: string) {
    forall c :: c in a ==> c !in b
  }

  function Concat(classes: seq<string>): string {
    if classes == [] then "" else classes[0] + Concat(classes[1..])
  }

  /** The first positions draw from one class each, the rest from all classes together. */
  datatype Sets = Sets(classes: seq<string>) {
    predicate Valid() {
      && classes != [] && |Concat(classes)| <= 256
      && (forall k :: 0 <= k < |classes| ==> classes[k] != [])
      && (forall k, l :: 0 <= k < l < |classes| ==> Disjoint(classes[k], classes[l]))
    }

    function All(): string { Concat(classes) }

    function At(i: nat): (r: string)
      requires Valid()
      ensures 0 < |r| <= 256
    {
      ClassIsWithin(classes, if i < |classes| then i else 0);
      if i < |classes| then classes[i] else All()
    }
  }

  lemma {:induction false} ClassIsWithin(classes: seq<string>, k: nat)
    requires k < |classes|
    ensures |classes[k]| <= |Concat(classes)| && Within(classes[k], Concat(classes))
  {
    if k > 0 {
      ClassIsWithin(classes[1..], k - 1);
    }
  }

  /** Sets whose characters a byte can address, with classes that do not overlap. */
  type Charsets = s: Sets | s.Valid() witness Sets(["a"])

  // --- Generation

  /** A random byte as an index below `n`. */
  function Index(b: Byte, n: nat): (k: nat)
    requires n > 0
    ensures k < n
    ensures b as int < n ==> k == b as int
    ensures k == b as int - b as int / n * n
  {
    b as int % n
  }

  function Pick(charset: string, b: Byte): (c: char)
    requires charset != []
    ensures c in charset
  {
    charset[Index(b, |charset|)]
  }

  /** The characters before shuffling. */
  function Drawn(sets: Charsets, n: nat, random: seq<Byte>): (s: string)
    requires |random| >= n
    ensures |s| == n
  {
    if n == 0 then "" else Drawn(sets, n - 1, random) + [Pick(sets.At(n - 1), random[n - 1])]
  }

  function Swapped(s: string, i: nat, j: nat): (r: string)
    requires i < |s| && j < |s|
    ensures |r| == |s|
  {
    s[i := s[j]][j := s[i]]
  }

  /** The shuffle, from position `i` down. */
  function Shuffled(s: string, i: nat, random: seq<Byte>): (r: string)
    requires i < |s| && |random| >= i
    ensures |r| == |s|
    decreases i
  {
    if i == 0 then s
    else Shuffled(Swapped(s, i, Index(random[0], i + 1)), i - 1, random[1..])
  }

  /** The password made from the random bytes. */
  function Outcome(sets: Charsets, n: nat, random: seq<Byte>): (p: string)
    requires n > 0 && |random| >= 2 * n - 1
    ensures |p| == n
  {
    Shuffled(Drawn(sets, n, random), n - 1, random[n..])
  }

  function Clamp(length: int): nat {
    if length < MIN_LENGTH then MIN_LENGTH else if length > MAX_LENGTH then MAX_LENGTH else length
  }

  /** `GenerateRandomPassword`; reading past the end of `random` is a failing read. */
  method GenerateRandomPassword(sets: Charsets, length: int, random: seq<Byte>) returns (r: Result<string>)
    ensures r.Ok? <==> |random| >= 2 * Clamp(length) - 1
    ensures r.Ok? ==> r.value == Outcome(sets, Clamp(length), random)
    ensures r.Ok? ==> |r.value| == if length < 8 then 8 else if length > 128 then 128 else length
  {
    var n := Clamp(length);
    var password := new char[n];
    var ok := Draw(password, sets, random);
    if !ok {
      return Err("failed to generate random password");
    }
    ok := Shuffle(password, random[n..]);
    if !ok {
      return Err("failed to shuffle password");
    }
    return Ok(password[..]);
  }

  /** Fills the buffer, one random byte a position. */
  method Draw(password: array<char>, sets: Charsets, random: seq<Byte>) returns (ok: bool)
    modifies password
    ensures ok <==> |random| >= password.Length
    ensures ok ==> password[..] == Drawn(sets, password.Length, random)
  {
    for i := 0 to password.Length
      invariant i <= |random|
      invariant password[..i] == Drawn(sets, i, random)
    {
      if i == |random| {
        return false;
      }
      password[i] := Pick(sets.At(i), random[i]);
      assert password[..i + 1] == password[..i] + [password[i]];
    }
    return true;
  }

  /** Shuffles the buffer in place, one random byte a swap. */
  method Shuffle(password: array<char>, random: seq<Byte>) returns (ok: bool)
    requires password.Length > 0
    modifies password
    ensures ok <==> |random| >= password.Length - 1
    ensures ok ==> password[..] == Shuffled(old(password[..]), password.Length - 1, random)
  {
    var i, rest := password.Length - 1, random;
    while i > 0
      invariant 0 <= i < password.Length
      invariant |rest| - i == |random| - (password.Length - 1)
      invariant |rest| >= i ==>
        Shuffled(password[..], i, rest) == Shuffled(old(password[..]), password.Length - 1, random)
    {
      if rest == [] {
        return false;
      }
      var j := Index(rest[0], i + 1);
      ghost var before := password[..];
      password[i], password[j] := password[j], password[i];
      assert password[..] == Swapped(before, i, j);
      i, rest := i - 1, rest[1..];
    }
    return true;
  }

  // --- Whatever the random bytes, every class is represented

  /** The password has a character of the set. */
  predicate Has(p: string, charset: string) {
    exists c :: c in p && c in charset
  }

  /** Every class is represented, and nothing else occurs. */
  predicate Complete(sets: Charsets, p: string) {
    && (forall k :: 0 <= k < |sets.classes| ==> Has(p, sets.classes[k]))
    && Within(p, sets.All())
  }

  lemma SwappedIsPermutation(s: string, i: nat, j: nat)
    requires i < |s| && j < |s|
    ensures multiset(Swapped(s, i, j)) == multiset(s)
  {
  }

  lemma {:induction false} ShuffledIsPermutation(s: string, i: nat, random: seq<Byte>)
    requires i < |s| && |random| >= i
    ensures multiset(Shuffled(s, i, random)) == multiset(s)
    decreases i
  {
    if i > 0 {
      var j := Index(random[0], i + 1);
      SwappedIsPermutation(s, i, j);
      ShuffledIsPermutation(Swapped(s, i, j), i - 1, random[1..]);
    }
  }

  lemma SameMembers(s: string, t: string, c: char)
    requires multiset(s) == multiset(t)
    ensures c in s <==> c in t
  {
    assert c in multiset(s) <==> c in s;
    assert c in multiset(t) <==> c in t;
  }

  lemma PermutationIsComplete(sets: Charsets, s: string, t: string)
    requires multiset(s) == multiset(t) && Complete(sets, s)
    ensures Complete(sets, t)
  {
    forall c: char ensures c in s <==> c in t {
      SameMembers(s, t, c);
    }
    forall k | 0 <= k < |sets.classes| ensures Has(t, sets.classes[k]) {
      assert Has(s, sets.classes[k]);
    }
  }

  lemma {:induction false} DrawnIsComplete(sets: Charsets, n: nat, random: seq<Byte>)
    requires |random| >= n
    ensures forall k :: 0 <= k < n && k < |sets.classes| ==> Has(Drawn(sets, n, random), sets.classes[k])
    ensures Within(Drawn(sets, n, random), sets.All())
  {
    if n > 0 {
      DrawnIsComplete(sets, n - 1, random);
      var s, c := Drawn(sets, n - 1, random), Pick(sets.At(n - 1), random[n - 1]);
      assert c in s + [c];
      forall k | 0 <= k < n - 1 && k < |sets.classes| ensures Has(s + [c], sets.classes[k]) {
        var d :| d in s && d in sets.classes[k];
        assert d in s + [c];
      }
      if n - 1 < |sets.classes| {
        ClassIsWithin(sets.classes, n - 1);
      }
    }
  }

  lemma ShuffledIsComplete(sets: Charsets, s: string, i: nat, random: seq<Byte>)
    requires i < |s| && |random| >= i && Complete(sets, s)
    ensures Complete(sets, Shuffled(s, i, random))
  {
    ShuffledIsPermutation(s, i, random);
    PermutationIsComplete(sets, s, Shuffled(s, i, random));
  }

  lemma OutcomeIsComplete(sets: Charsets, n: nat, random: seq<Byte>)
    requires n > 0 && n >= |sets.classes| && |random| >= 2 * n - 1
    ensures Complete(sets, Outcome(sets, n, random))
  {
    DrawnIsComplete(sets, n, random);
    ShuffledIsComplete(sets, Drawn(sets, n, random), n - 1, random[n..]);
  }

  // --- The other direction: every such password can come out

  lemma ByteFor(charset: string, c: char) returns (b: Byte)
    requires c in charset && |charset| <= 256
    ensures Pick(charset, b) == c
  {
    var k :| 0 <= k < |charset| && charset[k] == c;
    b := k as Byte;
  }

  /** Characters that fit their positions can be drawn. */
  lemma {:induction false} DrawReaches(sets: Charsets, s: string, n: nat) returns (random: seq<Byte>)
    requires n <= |s| && forall i :: 0 <= i < n ==> s[i] in sets.At(i)
    ensures |random| == n && forall more: seq<Byte> :: Drawn(sets, n, random + more) == s[..n]
  {
    if n == 0 {
      random := [];
    } else {
      var init := DrawReaches(sets, s, n - 1);
      var b := ByteFor(sets.At(n - 1), s[n - 1]);
      random := init + [b];
      forall more: seq<Byte> ensures Drawn(sets, n, random + more) == s[..n] {
        assert random + more == init + ([b] + more);
        assert s[..n] == s[..n - 1] + [s[n - 1]];
      }
    }
  }

  /** The shuffle can reach every permutation. */
  lemma {:induction false} ShuffleReaches(s: string, t: string, i: nat) returns (random: seq<Byte>)
    requires i < |s| == |t| <= 256
    requires multiset(s[..i + 1]) == multiset(t[..i + 1]) && s[i + 1..] == t[i + 1..]
    ensures |random| == i && Shuffled(s, i, random) == t
    decreases i
  {
    if i == 0 {
      random := [];
      FirstIsSame(s, t);
    } else {
      var j := FindFor(s, t, i);
      SwapMakesLastRight(s, t, i, j);
      var rest := ShuffleReaches(Swapped(s, i, j), t, i - 1);
      random := [j as Byte] + rest;
      assert random[1..] == rest;
    }
  }

  lemma FirstIsSame(s: string, t: string)
    requires 0 < |s| == |t| && multiset(s[..1]) == multiset(t[..1]) && s[1..] == t[1..]
    ensures s == t
  {
    assert s[..1] == [s[0]] && t[..1] == [t[0]];
    assert s[0] in multiset([t[0]]);
    assert s == s[..1] + s[1..] && t == t[..1] + t[1..];
  }

  lemma FindFor(s: string, t: string, i: nat) returns (j: nat)
    requires i < |s| == |t| && multiset(s[..i + 1]) == multiset(t[..i + 1])
    ensures j <= i && s[j] == t[i]
  {
    assert t[..i + 1][i] == t[i];
    SameMembers(s[..i + 1], t[..i + 1], t[i]);
    j :| 0 <= j < i + 1 && s[..i + 1][j] == t[i];
  }

  lemma SwapMakesLastRight(s: string, t: string, i: nat, j: nat)
    requires 0 < i < |s| == |t| && j <= i && s[j] == t[i]
    requires multiset(s[..i + 1]) == multiset(t[..i + 1]) && s[i + 1..] == t[i + 1..]
    ensures multiset(Swapped(s, i, j)[..i]) == multiset(t[..i])
    ensures Swapped(s, i, j)[i..] == t[i..]
  {
    var s' := Swapped(s, i, j);
    assert s'[..i + 1] == Swapped(s[..i + 1], i, j);
    SwappedIsPermutation(s[..i + 1], i, j);
    SameButLast(s'[..i + 1], t[..i + 1]);
    assert s'[..i + 1][..i] == s'[..i] && t[..i + 1][..i] == t[..i];
    assert s'[i + 1..] == t[i + 1..];
    assert s'[i..] == [s'[i]] + s'[i + 1..] && t[i..] == [t[i]] + t[i + 1..];
  }

  lemma SameButLast(s: string, t: string)
    requires 0 < |s| == |t| && s[|s| - 1] == t[|t| - 1] && multiset(s) == multiset(t)
    ensures multiset(s[..|s| - 1]) == multiset(t[..|t| - 1])
  {
    var n := |s| - 1;
    assert s == s[..n] + [s[n]] && t == t[..n] + [t[n]];
    assert multiset(s[..n]) == multiset(s) - multiset{s[n]};
    assert multiset(t[..n]) == multiset(t) - multiset{t[n]};
  }

  /** The first `k` positions hold a character of their own class. */
  predicate Placed(sets: Charsets, s: string, k: nat) {
    k <= |s| && k <= |sets.classes| && forall l :: 0 <= l < k ==> s[l] in sets.classes[l]
  }

  /** Moves a character of class `k` to position `k`, past the classes already placed. */
  lemma Place(sets: Charsets, s: string, k: nat) returns (r: string)
    requires k < |sets.classes| <= |s| && Placed(sets, s, k) && Has(s, sets.classes[k])
    ensures |r| == |s| && multiset(r) == multiset(s) && Placed(sets, r, k + 1)
  {
    var c :| c in s && c in sets.classes[k];
    var j :| 0 <= j < |s| && s[j] == c;
    assert forall l :: 0 <= l < k ==> Disjoint(sets.classes[l], sets.classes[k]) && s[l] in sets.classes[l];
    r := Swapped(s, k, j);
    SwappedIsPermutation(s, k, j);
  }

  lemma {:induction false} PlaceAll(sets: Charsets, s: string, k: nat) returns (r: string)
    requires k <= |sets.classes| <= |s| && Complete(sets, s)
    ensures |r| == |s| && multiset(r) == multiset(s) && Placed(sets, r, k)
  {
    if k == 0 {
      r := s;
    } else {
      r := PlaceAll(sets, s, k - 1);
      PermutationIsComplete(sets, s, r);
      r := Place(sets, r, k - 1);
    }
  }

  lemma Arrange(sets: Charsets, p: string) returns (s: string)
    requires |sets.classes| <= |p| && Complete(sets, p)
    ensures |s| == |p| && multiset(s) == multiset(p) && forall i :: 0 <= i < |s| ==> s[i] in sets.At(i)
  {
    s := PlaceAll(sets, p, |sets.classes|);
    PermutationIsComplete(sets, p, s);
  }

  /** Every complete password comes out for some random bytes. */
  lemma EveryCompletePasswordIsPossible(sets: Charsets, p: string) returns (random: seq<Byte>)
    requires 0 < |p| <= 256 && |sets.classes| <= |p| && Complete(sets, p)
    ensures |random| == 2 * |p| - 1 && Outcome(sets, |p|, random) == p
  {
    var n := |p|;
    var s := Arrange(sets, p);
    var drawn := DrawReaches(sets, s, n);
    assert s[..n] == s && p[..n] == p;
    var swaps := ShuffleReaches(s, p, n - 1);
    random := drawn + swaps;
    assert random[n..] == swaps;
  }

  /** The passwords that can be generated are exactly the complete ones of the clamped length. */
  lemma PossiblePasswords(sets: Charsets, length: int, p: string)
    requires |sets.classes| <= MIN_LENGTH
    ensures (exists random: seq<Byte> :: |random| >= 2 * Clamp(length) - 1 && Outcome(sets, Clamp(length), random) == p)
        <==> |p| == Clamp(length) && Complete(sets, p)
  {
    var n := Clamp(length);
    if |p| == n && Complete(sets, p) {
      var random := EveryCompletePasswordIsPossible(sets, p);
      assert Outcome(sets, n, random) == p;
    }
    forall random: seq<Byte> | |random| >= 2 * n - 1 && Outcome(sets, n, random) == p
      ensures |p| == n && Complete(sets, p)
    {
      OutcomeIsComplete(sets, n, random);
    }
  }
}
