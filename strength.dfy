/**
 * calculateStrength: a heuristic 0..100 score and a label for a password.
 * The arithmetic is the same in src/js and in the legacy js/ copy; only the
 * label text differs (see LegacyGenerator.LegacyLabel).
 */
module Strength {

  datatype Label = None | VeryWeak | Weak | Medium | Strong | VeryStrong
  datatype StrengthResult = StrengthResult(score: int, level: Label)

  const COMMON_WORDS: seq<string> := ["password", "123456", "qwerty", "admin", "welcome", "letmein"]

  // Character classes: /[a-z]/, /[A-Z]/, /\d/ and /[^a-zA-Z0-9]/
  predicate IsLower(c: char) { 'a' <= c <= 'z' }
  predicate IsUpper(c: char) { 'A' <= c <= 'Z' }
  predicate IsDigit(c: char) { '0' <= c <= '9' }
  predicate IsOther(c: char) { !IsLower(c) && !IsUpper(c) && !IsDigit(c) }

  predicate HasLower(s: string) { exists i :: 0 <= i < |s| && IsLower(s[i]) }
  predicate HasUpper(s: string) { exists i :: 0 <= i < |s| && IsUpper(s[i]) }
  predicate HasDigit(s: string) { exists i :: 0 <= i < |s| && IsDigit(s[i]) }
  predicate HasOther(s: string) { exists i :: 0 <= i < |s| && IsOther(s[i]) }

  function LengthBonus(n: nat): int {
    if n * 4 < 40 then n * 4 else 40
  }

  function Indicator(b: bool): nat { if b then 1 else 0 }

  /** How many of the four character classes occur. */
  function TypesCount(s: string): nat {
    Indicator(HasLower(s)) + Indicator(HasUpper(s)) + Indicator(HasDigit(s)) + Indicator(HasOther(s))
  }

  function CombinationBonus(s: string): int {
    (if HasLower(s) && HasUpper(s) then 5 else 0)
    + (if (HasLower(s) || HasUpper(s)) && HasDigit(s) then 5 else 0)
    + (if (HasLower(s) || HasUpper(s) || HasDigit(s)) && HasOther(s) then 5 else 0)
  }

  /** The set of different characters of `s`. */
  function Distinct(s: string): set<char> {
    set c | c in s
  }

  /** Positions whose character already occurred earlier in `s`. */
  function Repeats(s: string): nat {
    if s == [] then 0
    else Repeats(s[..|s| - 1]) + Indicator(s[|s| - 1] in s[..|s| - 1])
  }

  /** Occurrences of `c` in `s`: the value the source's `chars` counter holds for `c`. */
  function Count(s: string, c: char): nat {
    if s == [] then 0
    else Count(s[..|s| - 1], c) + Indicator(s[|s| - 1] == c)
  }

  /** The characters `c1, c2, c3` at `i` are consecutive codes, rising or falling by one. */
  predicate IsRunAt(s: string, i: nat)
    requires i + 2 < |s|
  {
    var c1, c2, c3 := s[i] as int, s[i + 1] as int, s[i + 2] as int;
    (c1 + 1 == c2 && c2 + 1 == c3) || (c1 - 1 == c2 && c2 - 1 == c3)
  }

  /** Run positions among the triplet starts 0 .. n-1. */
  function RunsBefore(s: string, n: nat): nat
    requires n + 2 <= |s|
  {
    if n == 0 then 0 else RunsBefore(s, n - 1) + Indicator(IsRunAt(s, n - 1))
  }

  function Runs(s: string): nat {
    if |s| < 3 then 0 else RunsBefore(s, |s| - 2)
  }

  /** `toLowerCase` on ASCII letters. */
  function LowerChar(c: char): char {
    if 'A' <= c <= 'Z' then (c as int + 32) as char else c
  }

  function ToLower(s: string): (r: string)
    ensures |r| == |s|
  {
    seq(|s|, i requires 0 <= i < |s| => LowerChar(s[i]))
  }

  /** `haystack.includes(word)`. */
  predicate Contains(haystack: string, word: string) {
    exists i :: 0 <= i <= |haystack| - |word| && OccursAt(haystack, word, i)
  }

  predicate OccursAt(haystack: string, word: string, i: nat) {
    i + |word| <= |haystack| && haystack[i..i + |word|] == word
  }

  predicate HasCommonWord(s: string) {
    exists k :: 0 <= k < |COMMON_WORDS| && Contains(ToLower(s), COMMON_WORDS[k])
  }

  /** Ten points off once, however many common words occur (the loop breaks at the first). */
  function CommonWordPenalty(s: string): int {
    if HasCommonWord(s) then 10 else 0
  }

  /** The score before clamping. */
  function RawScore(s: string): int {
    LengthBonus(|s|) + TypesCount(s) * 10 + CombinationBonus(s)
    - Repeats(s) * 2 - Runs(s) * 3 - CommonWordPenalty(s)
  }

  /** `Math.max(0, Math.min(x, 100))`. */
  function Clamp(x: int): (r: int)
    ensures 0 <= r <= 100
    ensures 0 <= x <= 100 ==> r == x
    ensures x < 0 ==> r == 0
  {
    if x < 0 then 0 else if x > 100 then 100 else x
  }

  function LabelFor(score: int): Label {
    if score <= 40 then VeryWeak
    else if score < 50 then Weak
    else if score < 65 then Medium
    else if score < 80 then Strong
    else VeryStrong
  }

  function Strength(password: string): StrengthResult {
    if password == [] then StrengthResult(0, None)
    else
      var score := Clamp(RawScore(password));
      StrengthResult(score, LabelFor(score))
  }

  /** The position of a label on the scale, None lowest. */
  function Rank(l: Label): nat {
    match l
    case None => 0
    case VeryWeak => 1
    case Weak => 2
    case Medium => 3
    case Strong => 4
    case VeryStrong => 5
  }

  // ---------------------------------------------------------------------
  // Properties of the scoring function

  /** The repeat total is the length minus the number of different characters. */
  lemma {:induction false} RepeatsCountsDuplicates(s: string)
    ensures Repeats(s) == |s| - |Distinct(s)|
  {
    if s != [] {
      var p, x := s[..|s| - 1], s[|s| - 1];
      RepeatsCountsDuplicates(p);
      assert s == p + [x];
      assert Distinct(s) == Distinct(p) + {x};
      if x in p {
        assert Distinct(s) == Distinct(p);
      } else {
        assert x !in Distinct(p);
      }
    }
  }

  /** Every term is bounded, so the score before clamping is at most 95 and never reaches the upper clamp. */
  lemma RawScoreAtMost95(s: string)
    ensures RawScore(s) <= 95
  {
  }

  /** Empty input scores 0 with label None; any other input scores in [0, 95] with a real label. */
  lemma StrengthRange(password: string)
    ensures var r := Strength(password);
      && 0 <= r.score <= 95
      && (r.level == None <==> password == [])
      && (password == [] ==> r.score == 0)
      && (password != [] ==> r.score == if RawScore(password) < 0 then 0 else RawScore(password))
  {
    RawScoreAtMost95(password);
  }

  /** The label never goes down as the score goes up. */
  lemma LabelMonotone(a: int, b: int)
    requires a <= b
    ensures Rank(LabelFor(a)) <= Rank(LabelFor(b))
  {
  }

  /** 40 is the top of VeryWeak; 41 is already Weak. */
  lemma LabelBoundaries()
    ensures LabelFor(40) == VeryWeak && LabelFor(41) == Weak
    ensures LabelFor(49) == Weak && LabelFor(50) == Medium
    ensures LabelFor(64) == Medium && LabelFor(65) == Strong
    ensures LabelFor(79) == Strong && LabelFor(80) == VeryStrong
  {
  }

  /**
   * The check is case-insensitive and takes its ten points once: "Password123456"
   * holds both "password" and "123456" once lower-cased, yet loses 10, not 20.
   */
  lemma TwoCommonWordsCostTen()
    ensures Contains(ToLower("Password123456"), COMMON_WORDS[0])
    ensures Contains(ToLower("Password123456"), COMMON_WORDS[1])
    ensures CommonWordPenalty("Password123456") == 10
  {
    var lowered := ToLower("Password123456");
    LowerExample();
    assert OccursAt(lowered, COMMON_WORDS[0], 0);
    assert OccursAt(lowered, COMMON_WORDS[1], 8);
  }

  lemma LowerExample()
    ensures ToLower("Password123456") == "password123456"
  {
    var lowered := ToLower("Password123456");
    forall i | 0 <= i < 14 ensures lowered[i] == "password123456"[i] {
    }
  }

  // ---------------------------------------------------------------------
  // Facts used by the imperative version

  lemma {:induction false} CountPositive(s: string, c: char)
    ensures Count(s, c) > 0 <==> c in s
  {
    if s != [] {
      CountPositive(s[..|s| - 1], c);
      assert s == s[..|s| - 1] + [s[|s| - 1]];
    }
  }

  lemma CountSnoc(p: string, c: char, x: char)
    ensures Count(p + [c], x) == Count(p, x) + Indicator(c == x)
  {
    assert (p + [c])[..|p|] == p;
  }

  /** The characters of `s` that belong to `keys`, in order. */
  function Only(s: string, keys: set<char>): string {
    if s == [] then []
    else Only(s[..|s| - 1], keys) + (if s[|s| - 1] in keys then [s[|s| - 1]] else [])
  }

  lemma {:induction false} OnlyRemoveKey(s: string, keys: set<char>, c: char)
    requires c in keys
    ensures |Only(s, keys)| == |Only(s, keys - {c})| + Count(s, c)
  {
    if s != [] {
      OnlyRemoveKey(s[..|s| - 1], keys, c);
    }
  }

  lemma {:induction false} OnlyAll(s: string, keys: set<char>)
    requires Distinct(s) <= keys
    ensures Only(s, keys) == s
  {
    if s != [] {
      var p := s[..|s| - 1];
      assert Distinct(p) <= Distinct(s) by {
        forall c | c in p ensures c in s { var i :| 0 <= i < |p| && p[i] == c; assert s[i] == c; }
      }
      OnlyAll(p, keys);
      assert s[|s| - 1] in Distinct(s);
      assert s == p + [s[|s| - 1]];
    }
  }

  lemma {:induction false} OnlyNone(s: string)
    ensures Only(s, {}) == []
  {
    if s != [] { OnlyNone(s[..|s| - 1]); }
  }

  // ---------------------------------------------------------------------
  // The source's loops

  /** The `chars` counter of calculateStrength: `chars[char] = (chars[char] || 0) + 1` for each character. */
  method CountCharacters(password: string) returns (chars: map<char, nat>)
    ensures chars.Keys == Distinct(password)
    ensures forall c :: c in chars ==> chars[c] == Count(password, c)
  {
    chars := map[];
    var i := 0;
    while i < |password|
      invariant 0 <= i <= |password|
      invariant forall c :: c in chars <==> c in password[..i]
      invariant forall c :: c in chars ==> chars[c] == Count(password[..i], c)
    {
      var c := password[i];
      assert password[..i + 1] == password[..i] + [c];
      forall x ensures Count(password[..i + 1], x) == Count(password[..i], x) + Indicator(c == x) {
        CountSnoc(password[..i], c, x);
      }
      CountPositive(password[..i], c);
      chars := chars[c := (if c in chars then chars[c] else 0) + 1];
      i := i + 1;
    }
    assert password[..i] == password;
  }

  /** `for (const char in chars)`: adds up the occurrences beyond the first of every character. */
  method RepeatTotal(password: string, chars: map<char, nat>) returns (repeats: int)
    requires chars.Keys == Distinct(password)
    requires forall c :: c in chars ==> chars[c] == Count(password, c)
    ensures repeats == Repeats(password)
  {
    repeats := 0;
    var keys := chars.Keys;
    OnlyAll(password, keys);
    while keys != {}
      invariant keys <= chars.Keys
      invariant repeats == (|password| - |Only(password, keys)|) - (|chars.Keys| - |keys|)
      decreases keys
    {
      var c :| c in keys;
      CountPositive(password, c);
      OnlyRemoveKey(password, keys, c);
      if chars[c] > 1 {
        repeats := repeats + chars[c] - 1;
      }
      keys := keys - {c};
    }
    OnlyNone(password);
    RepeatsCountsDuplicates(password);
  }

  /** The scan over code triplets `c1, c2, c3` at `i, i+1, i+2`. */
  method SequenceCount(password: string) returns (sequenceCount: nat)
    ensures sequenceCount == Runs(password)
  {
    sequenceCount := 0;
    var i := 0;
    while i < |password| - 2
      invariant 0 <= i
      invariant |password| >= 2 ==> i <= |password| - 2 && sequenceCount == RunsBefore(password, i)
      invariant |password| < 2 ==> i == 0 && sequenceCount == 0
    {
      var c1, c2, c3 := password[i] as int, password[i + 1] as int, password[i + 2] as int;
      if (c1 + 1 == c2 && c2 + 1 == c3) || (c1 - 1 == c2 && c2 - 1 == c3) {
        sequenceCount := sequenceCount + 1;
      }
      i := i + 1;
    }
  }

  /** The common-word loop: ten points off at the first word found, then `break`. */
  method CommonWordScan(password: string, score: int) returns (result: int)
    ensures result == score - CommonWordPenalty(password)
  {
    result := score;
    var k := 0;
    while k < |COMMON_WORDS|
      invariant 0 <= k <= |COMMON_WORDS|
      invariant forall j :: 0 <= j < k ==> !Contains(ToLower(password), COMMON_WORDS[j])
      invariant result == score
    {
      if Contains(ToLower(password), COMMON_WORDS[k]) {
        result := result - 10;
        break;
      }
      k := k + 1;
    }
  }

  /** calculateStrength as the source computes it, step by step. */
  method CalculateStrength(password: string) returns (r: StrengthResult)
    ensures r == Strength(password)
  {
    if password == [] {
      return StrengthResult(0, None);
    }
    var score := 0;
    var length := |password|;
    score := score + (if length * 4 < 40 then length * 4 else 40);

    var hasLower, hasUpper := HasLower(password), HasUpper(password);
    var hasNumber, hasSpecial := HasDigit(password), HasOther(password);
    var typesCount := Indicator(hasLower) + Indicator(hasUpper) + Indicator(hasNumber) + Indicator(hasSpecial);
    score := score + typesCount * 10;

    if hasLower && hasUpper { score := score + 5; }
    if (hasLower || hasUpper) && hasNumber { score := score + 5; }
    if (hasLower || hasUpper || hasNumber) && hasSpecial { score := score + 5; }
    assert score == LengthBonus(|password|) + TypesCount(password) * 10 + CombinationBonus(password);

    var chars := CountCharacters(password);
    var repeats := RepeatTotal(password, chars);
    score := score - repeats * 2;

    var sequenceCount := SequenceCount(password);
    score := score - sequenceCount * 3;

    score := CommonWordScan(password, score);
    assert score == RawScore(password);

    score := if score < 0 then 0 else if score > 100 then 100 else score;

    var level;
    if score <= 40 { level := VeryWeak; }
    else if score < 50 { level := Weak; }
    else if score < 65 { level := Medium; }
    else if score < 80 { level := Strong; }
    else { level := VeryStrong; }
    assert level == LabelFor(score);
    r := StrengthResult(score, level);
  }
}
