/**
 * The four character alphabets of the password generator, the two exclusion
 * sets, and the pool of characters that filler draws come from.  Both copies
 * of the generator (src/js and the legacy js/) use the same literals.
 */
module CharacterSets {

  const LOWERCASE: string := "abcdefghijklmnopqrstuvwxyz"
  const UPPERCASE: string := "ABCDEFGHIJKLMNOPQRSTUVWXYZ"
  const NUMBERS: string := "0123456789"
  const SPECIAL: string := "!@#$%^&*()_+-=[]{}|;:,.<>?"
  /** Characters that look alike in many fonts. */
  const SIMILAR: string := "iIlL1oO0"
  /** Brackets, quotes and punctuation that are easy to misread. */
  const AMBIGUOUS: string := "{}[]()/'\"~,;:.<>"

  datatype Category = Lowercase | Uppercase | Numbers | Special

  function Alphabet(c: Category): (r: string)
    ensures 0 < |r| <= 26
  {
    match c
    case Lowercase => LOWERCASE
    case Uppercase => UPPERCASE
    case Numbers => NUMBERS
    case Special => SPECIAL
  }

  /** The generator's options once the defaults have been filled in. */
  datatype Options = Options(
    length: int,
    lowercase: bool,
    uppercase: bool,
    numbers: bool,
    special: bool,
    excludeSimilar: bool,
    excludeAmbiguous: bool)

  predicate Enabled(o: Options, c: Category) {
    match c
    case Lowercase => o.lowercase
    case Uppercase => o.uppercase
    case Numbers => o.numbers
    case Special => o.special
  }

  predicate AnyCategory(o: Options) {
    o.lowercase || o.uppercase || o.numbers || o.special
  }

  /** Where a category's block stands in the generator: lowercase first, special last. */
  function Position(c: Category): nat {
    match c
    case Lowercase => 0
    case Uppercase => 1
    case Numbers => 2
    case Special => 3
  }

  /** The enabled categories in the order the generator visits them. */
  function EnabledCategories(o: Options): (r: seq<Category>)
    ensures |r| <= 4
    ensures forall i, j :: 0 <= i < j < |r| ==> Position(r[i]) < Position(r[j])
    ensures forall c :: c in r <==> Enabled(o, c)
    ensures AnyCategory(o) <==> |r| > 0
  {
    (if o.lowercase then [Lowercase] else [])
    + (if o.uppercase then [Uppercase] else [])
    + (if o.numbers then [Numbers] else [])
    + (if o.special then [Special] else [])
  }

  /** The strings of `parts`, one after another. */
  function Flatten(parts: seq<string>): string {
    if parts == [] then [] else Flatten(parts[..|parts| - 1]) + parts[|parts| - 1]
  }

  lemma {:induction false} FlattenLength(parts: seq<string>)
    requires forall k :: 0 <= k < |parts| ==> |parts[k]| <= 26
    ensures |Flatten(parts)| <= 26 * |parts|
  {
    if parts != [] {
      FlattenLength(parts[..|parts| - 1]);
    }
  }

  /** A character of one part is in the flattened string. */
  lemma {:induction false} FlattenHave(parts: seq<string>, k: int, x: char)
    requires 0 <= k < |parts| && x in parts[k]
    ensures x in Flatten(parts)
  {
    var p := parts[..|parts| - 1];
    if k < |p| {
      assert p[k] == parts[k];
      FlattenHave(p, k, x);
    }
  }

  /** A character of the flattened string comes from one part. */
  lemma {:induction false} FlattenSource(parts: seq<string>, x: char) returns (k: int)
    requires x in Flatten(parts)
    ensures 0 <= k < |parts| && x in parts[k]
  {
    var p := parts[..|parts| - 1];
    if x in parts[|parts| - 1] {
      k := |parts| - 1;
    } else {
      k := FlattenSource(p, x);
      assert p[k] == parts[k];
    }
  }

  /** The alphabet of each category in `cats`. */
  function AlphabetList(cats: seq<Category>): (r: seq<string>)
    ensures |r| == |cats|
  {
    seq(|cats|, k requires 0 <= k < |cats| => Alphabet(cats[k]))
  }

  /** The alphabets of `cats`, one after another. */
  function Alphabets(cats: seq<Category>): (r: string)
    ensures |r| <= 26 * |cats|
  {
    FlattenLength(AlphabetList(cats));
    Flatten(AlphabetList(cats))
  }

  lemma AlphabetsMembership(cats: seq<Category>, x: char)
    ensures x in Alphabets(cats) <==> exists k :: 0 <= k < |cats| && x in Alphabet(cats[k])
  {
    var parts := AlphabetList(cats);
    if x in Alphabets(cats) {
      var k := FlattenSource(parts, x);
      assert parts[k] == Alphabet(cats[k]);
    }
    forall k | 0 <= k < |cats| && x in Alphabet(cats[k]) ensures x in Alphabets(cats) {
      assert parts[k] == Alphabet(cats[k]);
      FlattenHave(parts, k, x);
    }
  }

  lemma AlphabetsAppend(cats: seq<Category>, c: Category)
    ensures Alphabets(cats + [c]) == Alphabets(cats) + Alphabet(c)
  {
    var parts := AlphabetList(cats + [c]);
    assert parts[..|cats|] == AlphabetList(cats);
    assert parts[|cats|] == Alphabet(c);
  }

  /** Every enabled alphabet concatenated, before any exclusion. */
  function Concatenated(o: Options): (r: string)
    ensures |r| <= 104
  {
    Alphabets(EnabledCategories(o))
  }

  /** `s` with every occurrence of `c` removed: `s.replace(new RegExp(c, "g"), "")`. */
  function RemoveChar(s: string, c: char): (r: string)
    ensures |r| <= |s|
    ensures forall x :: x in r <==> x in s && x != c
  {
    if s == [] then []
    else (if s[0] == c then [] else [s[0]]) + RemoveChar(s[1..], c)
  }

  /** `s` with every character of `excluded` removed, order kept. */
  function Exclude(s: string, excluded: string): (r: string)
    ensures |r| <= |s|
    ensures forall x :: x in r <==> x in s && x !in excluded
  {
    if s == [] then []
    else (if s[0] in excluded then [] else [s[0]]) + Exclude(s[1..], excluded)
  }

  /** The pool the generator fills from: the enabled alphabets minus the excluded sets. */
  function Pool(o: Options): string {
    var all := Concatenated(o);
    var noSimilar := if o.excludeSimilar then Exclude(all, SIMILAR) else all;
    if o.excludeAmbiguous then Exclude(noSimilar, AMBIGUOUS) else noSimilar
  }

  /** Removing the exclusion characters one at a time, as the generator's loops do, is one `Exclude`. */
  lemma {:induction false} RemoveCharStep(s: string, excluded: string, c: char)
    ensures RemoveChar(Exclude(s, excluded), c) == Exclude(s, excluded + [c])
  {
    if s != [] {
      RemoveCharStep(s[1..], excluded, c);
      var head := if s[0] in excluded then [] else [s[0]];
      assert Exclude(s, excluded) == head + Exclude(s[1..], excluded);
      RemoveCharAppend(head, Exclude(s[1..], excluded), c);
    }
  }

  lemma {:induction false} RemoveCharAppend(a: string, b: string, c: char)
    ensures RemoveChar(a + b, c) == RemoveChar(a, c) + RemoveChar(b, c)
  {
    if a != [] {
      assert (a + b)[1..] == a[1..] + b;
      RemoveCharAppend(a[1..], b, c);
    } else {
      assert a + b == b;
    }
  }

  lemma ExcludeNothing(s: string)
    ensures Exclude(s, []) == s
  {
  }

  /** A character is in the unfiltered pool exactly when an enabled alphabet holds it. */
  lemma ConcatenatedMembership(o: Options, x: char)
    ensures x in Concatenated(o) <==> exists c :: Enabled(o, c) && x in Alphabet(c)
  {
    var cats := EnabledCategories(o);
    var parts := AlphabetList(cats);
    if x in Concatenated(o) {
      var k := FlattenSource(parts, x);
      assert parts[k] == Alphabet(cats[k]);
      assert cats[k] in cats;
    }
    forall c | Enabled(o, c) && x in Alphabet(c) ensures x in Concatenated(o) {
      var k :| 0 <= k < |cats| && cats[k] == c;
      assert parts[k] == Alphabet(c);
      FlattenHave(parts, k, x);
    }
  }

  /** The two optional exclusions, in order, keep exactly what neither active one names. */
  lemma ExclusionsMembership(all: string, similar: string, ambiguous: string, bySimilar: bool, byAmbiguous: bool, x: char)
    ensures var kept := if bySimilar then Exclude(all, similar) else all;
      x in (if byAmbiguous then Exclude(kept, ambiguous) else kept) <==>
      x in all && !(bySimilar && x in similar) && !(byAmbiguous && x in ambiguous)
  {
  }

  /** A character is in the pool exactly when an enabled alphabet holds it and no active exclusion does. */
  lemma PoolMembership(o: Options, x: char)
    ensures x in Pool(o) <==>
      (exists c :: Enabled(o, c) && x in Alphabet(c))
      && !(o.excludeSimilar && x in SIMILAR)
      && !(o.excludeAmbiguous && x in AMBIGUOUS)
  {
    ConcatenatedMembership(o, x);
    ExclusionsMembership(Concatenated(o), SIMILAR, AMBIGUOUS, o.excludeSimilar, o.excludeAmbiguous, x);
  }

  /** 'a', 'A', '2' and '!' are not similar-looking characters. */
  lemma WitnessesNotSimilar()
    ensures 'a' !in SIMILAR && 'A' !in SIMILAR && '2' !in SIMILAR && '!' !in SIMILAR
  {
  }

  /** 'a', 'A', '2' and '!' are not ambiguous characters. */
  lemma WitnessesNotAmbiguous()
    ensures 'a' !in AMBIGUOUS && 'A' !in AMBIGUOUS && '2' !in AMBIGUOUS && '!' !in AMBIGUOUS
  {
  }

  /** Each alphabet keeps a character that neither exclusion set removes. */
  lemma KeptCharacter(c: Category) returns (x: char)
    ensures x in Alphabet(c) && x !in SIMILAR && x !in AMBIGUOUS
  {
    WitnessesNotSimilar();
    WitnessesNotAmbiguous();
    match c
    case Lowercase => x := 'a'; assert LOWERCASE[0] == x;
    case Uppercase => x := 'A'; assert UPPERCASE[0] == x;
    case Numbers => x := '2'; assert NUMBERS[2] == x;
    case Special => x := '!'; assert SPECIAL[0] == x;
  }

  /**
   * With one category enabled the pool is never empty, whatever the
   * exclusions: the legacy generator's fill loop relies on this to stop.
   */
  lemma PoolNonEmpty(o: Options)
    requires AnyCategory(o)
    ensures |Pool(o)| > 0
  {
    var c := EnabledCategories(o)[0];
    var x := KeptCharacter(c);
    PoolMembership(o, x);
  }
}
