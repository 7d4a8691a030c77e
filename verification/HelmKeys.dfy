/** `ParseHelmKey` and `IsValidHelmValueKey`: the textual form of Helm value paths. */
module HelmKeys {
  import opened HelmValues
  import opened Strings

  /** The largest `int` on a 64-bit platform; `strconv.Atoi` saturates there. */
  const MAX_INT: nat := 0x7fff_ffff_ffff_ffff

  function Atoi(digits: string): (n: nat)
    requires AllDigits(digits)
    ensures n <= MAX_INT
  {
    if DecimalValue(digits) <= MAX_INT then DecimalValue(digits) else MAX_INT
  }

  /** `s` matches `^(.+?)\[(\d+)\]$` with these two groups; the dot matches no newline. */
  ghost predicate IndexedAs(s: string, key: string, digits: string) {
    key != "" && '\n' !in key && AllDigits(digits) && s == key + "[" + digits + "]"
  }

  ghost predicate Indexed(s: string) {
    exists key, digits :: IndexedAs(s, key, digits)
  }

  /** The position of the last `[`, or `|s|` when there is none. */
  function LastBracket(s: string): (i: nat)
    ensures i <= |s| && (i < |s| ==> s[i] == '[' && '[' !in s[i + 1..])
    ensures i == |s| ==> '[' !in s
  {
    if s == "" then 0
    else
      var rest := LastBracket(s[1..]);
      if rest < |s| - 1 then rest + 1 else if s[0] == '[' then 0 else |s|
  }

  /** One dot-separated part of a key. */
  function ParsePart(s: string): KeyPart {
    var open := LastBracket(s);
    if 0 < open < |s| - 2 && s[|s| - 1] == ']' && AllDigits(s[open + 1..|s| - 1]) && '\n' !in s[..open]
    then Element(s[..open], Atoi(s[open + 1..|s| - 1]))
    else Field(s)
  }

  /** The parser finds the regular expression's groups, which are unique. */
  lemma ParsePartMatches(s: string, key: string, digits: string)
    requires IndexedAs(s, key, digits)
    ensures ParsePart(s) == Element(key, Atoi(digits))
  {
    assert s[|key|] == '[' && s[|s| - 1] == ']';
    assert s[|key| + 1..|s| - 1] == digits && s[..|key|] == key;
    assert LastBracket(s) == |key| by {
      assert '[' !in s[|key| + 1..] by {
        assert s[|key| + 1..] == digits + "]";
      }
      LastBracketIs(s, |key|);
    }
  }

  lemma {:induction false} LastBracketIs(s: string, i: nat)
    requires i < |s| && s[i] == '[' && '[' !in s[i + 1..]
    ensures LastBracket(s) == i
  {
    var open := LastBracket(s);
    assert open < |s|;
    assert s[open + 1..] == s[open + 1..|s|] && s[i + 1..] == s[i + 1..|s|];
    assert i <= open;
    assert open <= i;
  }

  lemma ParsePartCases(s: string)
    ensures ParsePart(s).Element? <==> Indexed(s)
    ensures ParsePart(s).Field? ==> ParsePart(s).key == s
    ensures ParsePart(s).Element? ==>
              exists digits :: IndexedAs(s, ParsePart(s).key, digits) && ParsePart(s).index == Atoi(digits)
  {
    if Indexed(s) {
      var key, digits :| IndexedAs(s, key, digits);
      ParsePartMatches(s, key, digits);
    }
    if ParsePart(s).Element? {
      var open := LastBracket(s);
      var digits := s[open + 1..|s| - 1];
      assert s == s[..open] + "[" + digits + "]";
      assert IndexedAs(s, s[..open], digits);
    }
  }

  /** A whole key: its dot-separated parts. */
  function ParseKey(key: string): Path {
    ParseParts(Split(key, '.'))
  }

  function ParseParts(parts: seq<string>): (path: Path)
    ensures |path| == |parts|
    ensures forall i :: 0 <= i < |parts| ==> path[i] == ParsePart(parts[i])
  {
    seq(|parts|, i requires 0 <= i < |parts| => ParsePart(parts[i]))
  }

  /** The parser, appending one part at a time. */
  method ParseHelmKey(key: string) returns (result: Path)
    ensures result == ParseKey(key) && result != []
  {
    var parts := Split(key, '.');
    result := [];
    for i := 0 to |parts|
      invariant result == ParseParts(parts[..i])
    {
      result := result + [ParsePart(parts[i])];
    }
    assert parts[..|parts|] == parts;
  }

  // ---------------------------------------------------------------------------
  // Printing
  // ---------------------------------------------------------------------------

  function PrintPart(part: KeyPart): string {
    match part
    case Field(key) => key
    case Element(key, index) => key + "[" + Decimal(index) + "]"
  }

  function PrintParts(path: Path): (parts: seq<string>)
    ensures |parts| == |path|
    ensures forall i :: 0 <= i < |path| ==> parts[i] == PrintPart(path[i])
  {
    seq(|path|, i requires 0 <= i < |path| => PrintPart(path[i]))
  }

  function PrintPath(path: Path): string {
    Join(PrintParts(path), '.')
  }

  /** A segment that its text stands for unambiguously. */
  ghost predicate Printable(part: KeyPart) {
    '.' !in part.key &&
    match part
    case Field(key) => !Indexed(key)
    case Element(key, index) => key != "" && '\n' !in key && index <= MAX_INT
  }

  lemma PrintThenParse(part: KeyPart)
    requires Printable(part)
    ensures ParsePart(PrintPart(part)) == part
    ensures '.' !in PrintPart(part)
  {
    match part
    case Field(key) =>
      ParsePartCases(key);
    case Element(key, index) =>
      DecimalRoundTrip(index);
      ParsePartMatches(PrintPart(part), key, Decimal(index));
  }

  lemma ParsedIsPrintable(s: string)
    requires '.' !in s
    ensures Printable(ParsePart(s))
  {
    ParsePartCases(s);
  }

  /** Parsing the printed form gives the path back exactly for the non-empty paths of
      printable segments. */
  lemma PrintParseRoundTrip(path: Path)
    ensures ParseKey(PrintPath(path)) == path
       <==> path != [] && forall i :: 0 <= i < |path| ==> Printable(path[i])
  {
    var s := PrintPath(path);
    var parts := Split(s, '.');
    if ParseKey(s) == path {
      forall i | 0 <= i < |path| ensures Printable(path[i]) {
        ParsedIsPrintable(parts[i]);
      }
    }
    if path != [] && forall i :: 0 <= i < |path| ==> Printable(path[i]) {
      var printed := PrintParts(path);
      forall i | 0 <= i < |path| ensures ParsePart(printed[i]) == path[i] && '.' !in printed[i] {
        PrintThenParse(path[i]);
      }
      SplitJoin(printed, '.');
    }
  }

  /** The index text of a part is what `Decimal` would print. */
  ghost predicate CanonicalPart(s: string) {
    forall key, digits :: IndexedAs(s, key, digits) ==> Canonical(digits) && DecimalValue(digits) <= MAX_INT
  }

  lemma BracketsDetermineDigits(key: string, a: string, b: string)
    ensures key + "[" + a + "]" == key + "[" + b + "]" <==> a == b
  {
    var s, t := key + "[" + a + "]", key + "[" + b + "]";
    if s == t {
      assert a == s[|key| + 1..|s| - 1] == b;
    }
  }

  lemma IndexedIsUnique(s: string, key: string, digits: string, key': string, digits': string)
    requires IndexedAs(s, key, digits) && IndexedAs(s, key', digits')
    ensures digits' == digits
  {
    ParsePartMatches(s, key, digits);
    ParsePartMatches(s, key', digits');
    BracketsDetermineDigits(key, digits, digits');
  }

  lemma AtoiPrints(digits: string)
    requires AllDigits(digits)
    ensures Decimal(Atoi(digits)) == digits <==> Canonical(digits) && DecimalValue(digits) <= MAX_INT
  {
    DecimalRoundTrip(Atoi(digits));
    if Canonical(digits) {
      CanonicalRoundTrip(digits);
    }
  }

  lemma ParseThenPrint(s: string)
    ensures PrintPart(ParsePart(s)) == s <==> CanonicalPart(s)
  {
    ParsePartCases(s);
    if ParsePart(s).Element? {
      var key, digits :| IndexedAs(s, key, digits);
      ParsePartMatches(s, key, digits);
      BracketsDetermineDigits(key, Decimal(Atoi(digits)), digits);
      AtoiPrints(digits);
      forall k, d | IndexedAs(s, k, d) ensures d == digits {
        IndexedIsUnique(s, key, digits, k, d);
      }
    }
  }

  /** Printing a parsed key gives the text back exactly when every index is written
      canonically and fits an `int`. */
  lemma ParsePrintRoundTrip(s: string)
    ensures PrintPath(ParseKey(s)) == s
       <==> forall i :: 0 <= i < |Split(s, '.')| ==> CanonicalPart(Split(s, '.')[i])
  {
    var parts := Split(s, '.');
    var printed := PrintParts(ParseKey(s));
    JoinSplit(s, '.');
    forall i | 0 <= i < |parts|
      ensures printed[i] == parts[i] <==> CanonicalPart(parts[i])
      ensures '.' !in printed[i]
    {
      ParseThenPrint(parts[i]);
      ParsedIsPrintable(parts[i]);
      PrintThenParse(ParsePart(parts[i]));
    }
    SplitJoin(printed, '.');
    if PrintPath(ParseKey(s)) == s {
      assert printed == parts;
    }
    if forall i :: 0 <= i < |parts| ==> CanonicalPart(parts[i]) {
      assert printed == parts;
    }
  }

  // ---------------------------------------------------------------------------
  // Validation
  // ---------------------------------------------------------------------------

  predicate IsNameStart(c: char) {
    'a' <= c <= 'z' || 'A' <= c <= 'Z' || c == '_' || c == '-'
  }

  predicate IsName(s: string) {
    s != "" && IsNameStart(s[0]) && forall i :: 0 <= i < |s| ==> IsNameStart(s[i]) || IsDigit(s[i])
  }

  /** `name` or `name[digits]`. */
  ghost predicate IsValidPart(s: string) {
    IsName(s) || exists key, digits :: IsName(key) && IndexedAs(s, key, digits)
  }

  /** `IsValidHelmValueKey` accepts the key: the parts between dots are all valid. */
  ghost predicate IsValidHelmValueKey(key: string) {
    forall i :: 0 <= i < |Split(key, '.')| ==> IsValidPart(Split(key, '.')[i])
  }

  lemma ValidPartsParseToNames(s: string)
    ensures IsValidPart(s) <==> IsName(ParsePart(s).key)
  {
    ParsePartCases(s);
    if k, d :| IsName(k) && IndexedAs(s, k, d) {
      ParsePartMatches(s, k, d);
    }
    if IsName(s) && Indexed(s) {
      var k, d :| IndexedAs(s, k, d);
      assert s[|k|] == '[';
    }
  }

  /** A key is accepted exactly if it parses to a path of names. */
  lemma ValidKeysParseToNames(key: string)
    ensures IsValidHelmValueKey(key) <==> forall i :: 0 <= i < |ParseKey(key)| ==> IsName(ParseKey(key)[i].key)
    ensures ParseKey(key) != []
  {
    var parts := Split(key, '.');
    forall i | 0 <= i < |parts| ensures IsValidPart(parts[i]) <==> IsName(ParseKey(key)[i].key) {
      ValidPartsParseToNames(parts[i]);
    }
  }
}
