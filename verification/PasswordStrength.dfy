/** How passwords are validated and rated, and how the generated ones fare. */
module PasswordStrength {
  import opened Passwords
  import opened Strings
  import opened Wrappers

  const LOWERCASE := "abcdefghijklmnopqrstuvwxyz"
  const UPPERCASE := "ABCDEFGHIJKLMNOPQRSTUVWXYZ"
  const DIGITS := "0123456789"
  const SPECIAL := "!@#$%^&*()_+-=[]{}|;:,.<>?"

  /** The character sets of `GenerateRandomPassword`. */
  const STANDARD := Sets([LOWERCASE, UPPERCASE, DIGITS, SPECIAL])

  const PATTERNS := ["123456", "password", "admin", "qwerty", "abc123", "111111", "123123", "password123", "admin123"]

  predicate IsLower(c: char) { 'a' <= c <= 'z' }

  predicate IsUpper(c: char) { 'A' <= c <= 'Z' }

  predicate IsSpecial(c: char) { c in SPECIAL }

  predicate IsLetter(c: char) { IsLower(c) || IsUpper(c) }

  predicate IsKnown(c: char) { IsLetter(c) || IsDigit(c) || IsSpecial(c) }

  predicate Every(p: string, test: char -> bool) {
    forall c :: c in p ==> test(c)
  }

  /** Some character passes the test. */
  predicate Any(p: string, test: char -> bool) {
    exists c :: c in p && test(c)
  }

  lemma AnyIsIndexed(p: string, test: char -> bool)
    ensures Any(p, test) <==> exists k :: 0 <= k < |p| && test(p[k])
  {
    if Any(p, test) {
      var c :| c in p && test(c);
      var k :| 0 <= k < |p| && p[k] == c;
    }
    assert forall k :: 0 <= k < |p| ==> p[k] in p;
  }

  // --- The character sets

  lemma Lowercase(c: char)
    ensures c in LOWERCASE <==> IsLower(c)
  {
    if IsLower(c) {
      assert LOWERCASE[c as int - 'a' as int] == c;
    }
  }

  lemma Uppercase(c: char)
    ensures c in UPPERCASE <==> IsUpper(c)
  {
    if IsUpper(c) {
      assert UPPERCASE[c as int - 'A' as int] == c;
    }
  }

  lemma Digits(c: char)
    ensures c in DIGITS <==> IsDigit(c)
  {
    if IsDigit(c) {
      assert DIGITS[c as int - '0' as int] == c;
    }
  }

  lemma SpecialIsNeither(c: char)
    requires IsSpecial(c)
    ensures !IsLetter(c) && !IsDigit(c)
  {
  }

  lemma StandardIsValid()
    ensures STANDARD.Valid()
    ensures STANDARD.All() == LOWERCASE + UPPERCASE + DIGITS + SPECIAL
  {
    assert STANDARD.classes[1..] == [UPPERCASE, DIGITS, SPECIAL];
    assert STANDARD.classes[1..][1..] == [DIGITS, SPECIAL];
    assert STANDARD.classes[1..][1..][1..] == [SPECIAL];
    assert Concat([SPECIAL]) == SPECIAL;
    assert Concat([DIGITS, SPECIAL]) == DIGITS + SPECIAL;
    assert Concat([UPPERCASE, DIGITS, SPECIAL]) == UPPERCASE + DIGITS + SPECIAL;
    forall c: char ensures (c in LOWERCASE <==> IsLower(c)) && (c in UPPERCASE <==> IsUpper(c)) && (c in DIGITS <==> IsDigit(c)) {
      Lowercase(c);
      Uppercase(c);
      Digits(c);
    }
    forall c | IsSpecial(c) ensures !IsLetter(c) && !IsDigit(c) {
      SpecialIsNeither(c);
    }
  }

  // --- Validation

  /** How many bytes the character takes in UTF-8. */
  function Width(c: char): nat {
    if c as int < 0x80 then 1 else if c as int < 0x800 then 2 else if c as int < 0x1_0000 then 3 else 4
  }

  /** It is the least number of bytes with room for the character. */
  lemma WidthIsLeast(c: char, n: nat)
    requires 1 <= n <= 4
    ensures Width(c) <= n <==> (c as int) < [0x80, 0x800, 0x1_0000, 0x11_0000][n - 1]
  {
  }

  /** The length that the validators look at. */
  function ByteLength(p: string): (n: nat)
    ensures n >= |p|
  {
    if p == "" then 0 else Width(p[0]) + ByteLength(p[1..])
  }

  lemma {:induction false} PlainLength(p: string)
    requires forall i :: 0 <= i < |p| ==> Width(p[i]) == 1
    ensures ByteLength(p) == |p|
    decreases |p|
  {
    if p != "" {
      PlainLength(p[1..]);
    }
  }

  lemma KnownIsPlain(c: char)
    requires IsKnown(c)
    ensures Width(c) == 1
  {
  }

  /** One of the loops that look for a kind of character. */
  method Find(p: string, test: char -> bool) returns (found: bool)
    ensures found == Any(p, test)
  {
    AnyIsIndexed(p, test);
    for i := 0 to |p|
      invariant forall k :: 0 <= k < i ==> !test(p[k])
    {
      if test(p[i]) {
        return true;
      }
    }
    return false;
  }

  /** `IsPasswordValid`. */
  method IsPasswordValid(p: string) returns (r: Result<()>)
    ensures r.Ok? <==> MIN_LENGTH <= ByteLength(p) <= MAX_LENGTH && Any(p, IsLetter) && Any(p, IsDigit)
  {
    if ByteLength(p) < MIN_LENGTH {
      return Err("password too short");
    }
    if ByteLength(p) > MAX_LENGTH {
      return Err("password too long");
    }
    AnyIsIndexed(p, IsLetter);
    AnyIsIndexed(p, IsDigit);
    var hasLetter, hasNumber := false, false;
    for i := 0 to |p|
      invariant hasLetter <==> exists k :: 0 <= k < i && IsLetter(p[k])
      invariant hasNumber <==> exists k :: 0 <= k < i && IsDigit(p[k])
    {
      if IsLetter(p[i]) {
        hasLetter := true;
      }
      if IsDigit(p[i]) {
        hasNumber := true;
      }
    }
    if !hasLetter {
      return Err("password must contain at least one letter");
    }
    if !hasNumber {
      return Err("password must contain at least one number");
    }
    return Ok(());
  }

  /** The lower case of the character where that is an ASCII character: the capitals, and the
      capital I with a dot and the kelvin sign of Unicode. */
  function Lower(c: char): char {
    if IsUpper(c) then c - 'A' + 'a'
    else if c == '\U{0130}' then 'i'
    else if c == '\U{212A}' then 'k'
    else c
  }

  /** The pattern occurs at position `k`, in either case. */
  predicate OccursAt(p: string, pattern: string, k: nat) {
    k + |pattern| <= |p| && forall i :: 0 <= i < |pattern| ==> Lower(p[k + i]) == pattern[i]
  }

  predicate Occurs(p: string, pattern: string) {
    exists k: nat | k <= |p| :: OccursAt(p, pattern, k)
  }

  /** The first of the patterns that occurs; the number of patterns if none does. */
  function FirstPattern(p: string, patterns: seq<string>): (i: nat)
    ensures i <= |patterns|
    ensures i < |patterns| ==> Occurs(p, patterns[i])
    ensures forall j :: 0 <= j < i ==> !Occurs(p, patterns[j])
  {
    if patterns == [] || Occurs(p, patterns[0]) then 0 else 1 + FirstPattern(p, patterns[1..])
  }

  predicate HasCommonPattern(p: string) {
    FirstPattern(p, PATTERNS) < |PATTERNS|
  }

  function Point(b: bool): int {
    if b then 1 else 0
  }

  function Score(p: string): int {
    Point(ByteLength(p) >= 8) + Point(ByteLength(p) >= 12) + Kinds(p) - Point(HasCommonPattern(p))
  }

  function Rating(score: int): Strength {
    if score >= 6 then VeryStrong else if score >= 4 then Strong else if score >= 2 then Moderate else Weak
  }

  /** The suggestions, in place of their texts. */
  datatype Advice = MakeLonger | MakeShorter | AddLower | AddUpper | AddNumbers | AddSpecial | Avoid(pattern: string) | IsGood

  function AdviceIf(b: bool, advice: Advice): seq<Advice> {
    if b then [advice] else []
  }

  /** What is missing, in the order of the checks. */
  function Missing(p: string): seq<Advice> {
    AdviceIf(!Any(p, IsLower), AddLower) + AdviceIf(!Any(p, IsUpper), AddUpper) +
    AdviceIf(!Any(p, IsDigit), AddNumbers) + AdviceIf(!Any(p, IsSpecial), AddSpecial)
  }

  /** The common pattern to avoid, if there is one. */
  function Unwanted(p: string, patterns: seq<string>): seq<Advice> {
    var i := FirstPattern(p, patterns);
    if i < |patterns| then [Avoid(patterns[i])] else []
  }

  function Kinds(p: string): int {
    Point(Any(p, IsLower)) + Point(Any(p, IsUpper)) + Point(Any(p, IsDigit)) + Point(Any(p, IsSpecial))
  }

  /** `ValidatePasswordStrength`. */
  method ValidatePasswordStrength(p: string) returns (r: Result<Strength>, suggestions: seq<Advice>)
    ensures r.Ok? <==> MIN_LENGTH <= ByteLength(p) <= MAX_LENGTH
    ensures r.Ok? ==> r.value == Rating(Score(p))
    ensures r.Ok? ==> var found := Missing(p) + Unwanted(p, PATTERNS);
      suggestions == if found != [] then found else AdviceIf(r.value in {Strong, VeryStrong}, IsGood)
  {
    if ByteLength(p) < MIN_LENGTH {
      return Err("password too short"), [MakeLonger];
    }
    if ByteLength(p) > MAX_LENGTH {
      return Err("password too long"), [MakeShorter];
    }
    var score := 1;
    if ByteLength(p) >= 12 {
      score := score + 1;
    }
    var kinds, missing := CheckKinds(p);
    var isCommon, unwanted := CheckPatterns(p, PATTERNS);
    score, suggestions := score + kinds, missing + unwanted;
    if isCommon {
      score := score - 1;
    }
    if suggestions == [] && Rating(score) in {Strong, VeryStrong} {
      suggestions := [IsGood];
    }
    r := Ok(Rating(score));
  }

  /** Each kind of character earns a point, or its lack a suggestion. */
  method CheckKinds(p: string) returns (score: int, suggestions: seq<Advice>)
    ensures score == Kinds(p) && suggestions == Missing(p)
  {
    score, suggestions := CheckKind(p, IsLower, 0, [], AddLower);
    score, suggestions := CheckKind(p, IsUpper, score, suggestions, AddUpper);
    score, suggestions := CheckKind(p, IsDigit, score, suggestions, AddNumbers);
    score, suggestions := CheckKind(p, IsSpecial, score, suggestions, AddSpecial);
  }

  method CheckKind(p: string, test: char -> bool, score: int, suggestions: seq<Advice>, advice: Advice)
    returns (score': int, suggestions': seq<Advice>)
    ensures score' == score + Point(Any(p, test))
    ensures suggestions' == suggestions + AdviceIf(!Any(p, test), advice)
  {
    var found := Find(p, test);
    if found {
      return score + 1, suggestions;
    }
    return score, suggestions + [advice];
  }

  /** The first common pattern ends the search. */
  method CheckPatterns(p: string, patterns: seq<string>) returns (found: bool, suggestions: seq<Advice>)
    ensures found == (FirstPattern(p, patterns) < |patterns|) && suggestions == Unwanted(p, patterns)
  {
    for i := 0 to |patterns|
      invariant forall j :: 0 <= j < i ==> !Occurs(p, patterns[j])
    {
      if Occurs(p, patterns[i]) {
        return true, [Avoid(patterns[i])];
      }
    }
    return false, [];
  }

  /** The password uses every kind of character and no other. */
  predicate IsMixed(p: string) {
    && Any(p, IsLower) && Any(p, IsUpper) && Any(p, IsDigit) && Any(p, IsSpecial)
    && Every(p, IsKnown)
  }

  lemma HasIsAny(p: string, charset: string, test: char -> bool)
    requires forall c :: c in charset <==> test(c)
    ensures Has(p, charset) <==> Any(p, test)
  {
    if Any(p, test) {
      var c :| c in p && test(c);
      assert c in charset;
    }
  }

  lemma CompleteIsMixed(p: string)
    ensures STANDARD.Valid()
    ensures Complete(STANDARD, p) <==> IsMixed(p)
  {
    StandardIsValid();
    forall c: char ensures (c in LOWERCASE <==> IsLower(c)) && (c in UPPERCASE <==> IsUpper(c)) && (c in DIGITS <==> IsDigit(c)) {
      Lowercase(c);
      Uppercase(c);
      Digits(c);
    }
    HasIsAny(p, LOWERCASE, IsLower);
    HasIsAny(p, UPPERCASE, IsUpper);
    HasIsAny(p, DIGITS, IsDigit);
    HasIsAny(p, SPECIAL, IsSpecial);
    assert STANDARD.classes[0] == LOWERCASE && STANDARD.classes[1] == UPPERCASE;
    assert STANDARD.classes[2] == DIGITS && STANDARD.classes[3] == SPECIAL;
  }

  /** The passwords that can be generated are exactly the mixed ones of the clamped length. */
  lemma GeneratedExactlyIfMixed(length: int, p: string)
    ensures STANDARD.Valid()
    ensures (exists random: seq<Byte> :: |random| >= 2 * Clamp(length) - 1 && Outcome(STANDARD, Clamp(length), random) == p)
        <==> |p| == Clamp(length) && IsMixed(p)
  {
    CompleteIsMixed(p);
    PossiblePasswords(STANDARD, length, p);
  }

  lemma MixedPasswordsAreStrong(p: string)
    requires MIN_LENGTH <= |p| && IsMixed(p)
    ensures ByteLength(p) == |p| && Any(p, IsLetter) && Rating(Score(p)) in {Strong, VeryStrong}
    ensures Rating(Score(p)) == VeryStrong <==> |p| >= 12 && !HasCommonPattern(p)
  {
    LowerIsLetter(p);
    MixedIsPlain(p);
    MixedHasAllKinds(p);
  }

  lemma LowerIsLetter(p: string)
    requires Any(p, IsLower)
    ensures Any(p, IsLetter)
  {
    var c :| c in p && IsLower(c);
    assert IsLetter(c);
  }

  lemma MixedHasAllKinds(p: string)
    requires IsMixed(p)
    ensures Kinds(p) == 4
  {
  }

  lemma MixedIsPlain(p: string)
    requires IsMixed(p)
    ensures ByteLength(p) == |p|
  {
    forall i | 0 <= i < |p| ensures Width(p[i]) == 1 {
      KnownIsPlain(p[i]);
    }
    PlainLength(p);
  }

  /** Both validators accept every generated password; it is at least strong, and very strong
      exactly when twelve characters or more were asked for and it has no common pattern. */
  lemma GeneratedPasswordsAreStrong(length: int, random: seq<Byte>)
    requires |random| >= 2 * Clamp(length) - 1
    ensures STANDARD.Valid()
    ensures var p := Outcome(STANDARD, Clamp(length), random);
      && MIN_LENGTH <= ByteLength(p) <= MAX_LENGTH && Any(p, IsLetter) && Any(p, IsDigit)
      && Rating(Score(p)) in {Strong, VeryStrong}
      && (Rating(Score(p)) == VeryStrong <==> length >= 12 && !HasCommonPattern(p))
  {
    StandardIsValid();
    var p := Outcome(STANDARD, Clamp(length), random);
    OutcomeIsComplete(STANDARD, Clamp(length), random);
    CompleteIsMixed(p);
    MixedPasswordsAreStrong(p);
  }

  lemma SuffixOccurs(prefix: string, pattern: string)
    requires forall c :: c in pattern ==> Lower(c) == c
    ensures Occurs(prefix + pattern, pattern)
  {
    assert OccursAt(prefix + pattern, pattern, |prefix|);
  }

  lemma EveryIsIndexed(p: string, test: char -> bool)
    requires |p| > 1 && test(p[0]) && test(p[1]) && forall k :: 2 <= k < |p| ==> test(p[k])
    ensures Every(p, test)
  {
  }

  lemma LettersAfter(p: string)
    requires |p| > 3 && IsSpecial(p[0]) && IsDigit(p[1]) && IsUpper(p[2]) && IsLower(p[3])
    requires forall k :: 2 <= k < |p| ==> IsLetter(p[k])
    ensures IsMixed(p)
  {
    EveryIsIndexed(p, IsKnown);
    AnyIsIndexed(p, IsLower);
    AnyIsIndexed(p, IsUpper);
    AnyIsIndexed(p, IsDigit);
    AnyIsIndexed(p, IsSpecial);
  }

  lemma ExclamationMarkIsSpecial()
    ensures IsSpecial('!')
  {
    assert SPECIAL[0] == '!';
  }

  /** Long generated passwords are not always very strong: this one can come out. */
  lemma LongPasswordCanBeCommon() returns (p: string)
    ensures |p| == 12 && IsMixed(p) && HasCommonPattern(p)
  {
    p := "!0AdMin" + "admin";
    SampleIsMixed(p);
    SampleIsCommon(p);
  }

  lemma SampleIsMixed(p: string)
    requires p == "!0AdMin" + "admin"
    ensures IsMixed(p)
  {
    ExclamationMarkIsSpecial();
    LettersAfter(p);
  }

  lemma SampleIsCommon(p: string)
    requires p == "!0AdMin" + "admin"
    ensures HasCommonPattern(p)
  {
    SuffixOccurs("!0AdMin", "admin");
    assert PATTERNS[2] == "admin";
  }

  // --- The ratings, in so many words

  datatype Kind = LowerCase | UpperCase | Numeric | Special

  predicate HasKind(p: string, k: Kind) {
    match k
    case LowerCase => exists c :: c in p && 'a' <= c <= 'z'
    case UpperCase => exists c :: c in p && 'A' <= c <= 'Z'
    case Numeric => exists c :: c in p && '0' <= c <= '9'
    case Special => exists c :: c in p && c in SPECIAL
  }

  function KindsOf(p: string): set<Kind> {
    set k: Kind | HasKind(p, k)
  }

  lemma WithoutKind(kinds: set<Kind>, k: Kind)
    ensures |kinds| == |kinds - {k}| + Point(k in kinds)
  {
    assert kinds == if k in kinds then kinds - {k} + {k} else kinds - {k};
  }

  lemma NoOtherKind(kinds: set<Kind>)
    requires LowerCase !in kinds && UpperCase !in kinds && Numeric !in kinds && Special !in kinds
    ensures kinds == {}
  {
    forall k: Kind ensures k !in kinds {
      match k
      case LowerCase =>
      case UpperCase =>
      case Numeric =>
      case Special =>
    }
  }

  lemma CountKinds(kinds: set<Kind>)
    ensures |kinds| == Point(LowerCase in kinds) + Point(UpperCase in kinds) + Point(Numeric in kinds) + Point(Special in kinds)
  {
    var a := kinds - {LowerCase};
    var b := a - {UpperCase};
    var c := b - {Numeric};
    WithoutKind(kinds, LowerCase);
    WithoutKind(a, UpperCase);
    WithoutKind(b, Numeric);
    WithoutKind(c, Special);
    NoOtherKind(c - {Special});
  }

  lemma KindsAreCounted(p: string)
    ensures Kinds(p) == |KindsOf(p)|
  {
    AnyIsKind(p);
    CountKinds(KindsOf(p));
  }

  lemma AnyIsKind(p: string)
    ensures Any(p, IsLower) <==> HasKind(p, LowerCase)
    ensures Any(p, IsUpper) <==> HasKind(p, UpperCase)
    ensures Any(p, IsDigit) <==> HasKind(p, Numeric)
    ensures Any(p, IsSpecial) <==> HasKind(p, Special)
  {
  }

  /** A password of eight bytes or more is rated by the kinds of characters it has, with one point
      more for twelve bytes and one less for a common pattern: nothing left is weak, one or two is
      moderate, three or four is strong, five is very strong. */
  lemma RatingByKinds(p: string)
    requires ByteLength(p) >= 8
    ensures var points := |KindsOf(p)| + Point(ByteLength(p) >= 12) - Point(exists i :: 0 <= i < |PATTERNS| && Occurs(p, PATTERNS[i]));
      && (Rating(Score(p)) == Weak <==> points <= 0)
      && (Rating(Score(p)) == Moderate <==> 1 <= points <= 2)
      && (Rating(Score(p)) == Strong <==> 3 <= points <= 4)
      && (Rating(Score(p)) == VeryStrong <==> points >= 5)
  {
    KindsAreCounted(p);
    PatternsDecide(p, PATTERNS);
  }

  lemma PatternsDecide(p: string, patterns: seq<string>)
    ensures FirstPattern(p, patterns) < |patterns| <==> exists i :: 0 <= i < |patterns| && Occurs(p, patterns[i])
  {
  }

  function Lowered(p: string): (r: string)
    ensures |r| == |p| && forall i :: 0 <= i < |p| ==> r[i] == Lower(p[i])
  {
    seq(|p|, i requires 0 <= i < |p| => Lower(p[i]))
  }

  /** A pattern occurs exactly if it is a part of the password in lower case. */
  lemma OccursInLowerCase(p: string, pattern: string)
    ensures Occurs(p, pattern) <==> exists before, after :: Lowered(p) == before + pattern + after
  {
    var q := Lowered(p);
    if k: nat :| OccursAt(p, pattern, k) {
      assert q == q[..k] + pattern + q[k + |pattern|..];
    }
    if before, after :| q == before + pattern + after {
      forall i | 0 <= i < |pattern| ensures Lower(p[|before| + i]) == pattern[i] {
        assert (before + pattern + after)[|before| + i] == pattern[i];
      }
      assert OccursAt(p, pattern, |before|);
    }
  }

  /** A pattern in capitals is found too. */
  lemma CapitalsHideNothing()
    ensures Occurs("PASSWORD", "password") && HasCommonPattern("PASSWORD")
  {
    assert OccursAt("PASSWORD", "password", 0);
    PatternAt("PASSWORD", PATTERNS, 1);
  }

  lemma PatternAt(p: string, patterns: seq<string>, i: nat)
    requires i < |patterns| && Occurs(p, patterns[i])
    ensures FirstPattern(p, patterns) < |patterns|
  {
  }
}
