/**
 * PasswordGenerator of src/js: validation, the pool and the per-category
 * seed characters, a Fisher-Yates shuffle driven by getCryptoRandomInt, the
 * fill loop and the final shuffle.
 */
module Generator {
  import opened Wrappers
  import opened CharacterSets
  import SecureRandom

  /** The options object as passed in; an absent field takes its destructuring default. */
  datatype OptionsInput = OptionsInput(
    length: Option<int>,
    lowercase: Option<bool>,
    uppercase: Option<bool>,
    numbers: Option<bool>,
    special: Option<bool>,
    excludeSimilar: Option<bool>,
    excludeAmbiguous: Option<bool>)

  datatype GenerateError =
    | NoCharacterSet          // "At least one character set must be selected"
    | InvalidLength           // "Password length must be between 4 and 64 characters"
    | NoCharactersAvailable   // the pool is empty after the exclusions

  /** Destructuring with defaults: a given option is kept, a missing one is length 16, every category on, no exclusion. */
  function Resolve(input: OptionsInput): (o: Options)
    ensures input.length.None? ==> o.length == 16
    ensures input.lowercase.None? ==> o.lowercase
    ensures input.uppercase.None? ==> o.uppercase
    ensures input.numbers.None? ==> o.numbers
    ensures input.special.None? ==> o.special
    ensures input.excludeSimilar.None? ==> !o.excludeSimilar
    ensures input.excludeAmbiguous.None? ==> !o.excludeAmbiguous
    ensures input.length.Some? ==> o.length == input.length.value
    ensures input.lowercase.Some? ==> o.lowercase == input.lowercase.value
    ensures input.uppercase.Some? ==> o.uppercase == input.uppercase.value
    ensures input.numbers.Some? ==> o.numbers == input.numbers.value
    ensures input.special.Some? ==> o.special == input.special.value
    ensures input.excludeSimilar.Some? ==> o.excludeSimilar == input.excludeSimilar.value
    ensures input.excludeAmbiguous.Some? ==> o.excludeAmbiguous == input.excludeAmbiguous.value
  {
    Options(
      input.length.GetOr(16),
      input.lowercase.GetOr(true),
      input.uppercase.GetOr(true),
      input.numbers.GetOr(true),
      input.special.GetOr(true),
      input.excludeSimilar.GetOr(false),
      input.excludeAmbiguous.GetOr(false))
  }

  predicate ValidOptions(o: Options) {
    AnyCategory(o) && 4 <= o.length <= 64
  }

  /** `seeds[k]` comes from the alphabet of `cats[k]`, for every k. */
  ghost predicate SeedsMatch(seeds: string, cats: seq<Category>) {
    |seeds| == |cats| && forall k :: 0 <= k < |seeds| ==> seeds[k] in Alphabet(cats[k])
  }

  lemma SeedsMatchExtend(seeds: string, cats: seq<Category>, x: char, c: Category)
    requires SeedsMatch(seeds, cats) && x in Alphabet(c)
    ensures SeedsMatch(seeds + [x], cats + [c])
  {
  }

  /** One seed per enabled category, in category order, each from that category's full alphabet. */
  ghost predicate SeedsFor(o: Options, seeds: string) {
    SeedsMatch(seeds, EnabledCategories(o))
  }

  /** Every enabled category has a character in `password`. */
  ghost predicate Covers(o: Options, password: string) {
    forall c :: Enabled(o, c) ==> exists i :: 0 <= i < |password| && password[i] in Alphabet(c)
  }

  /** Seeds survive any reordering that mixes them with filler. */
  lemma SeedsCover(o: Options, seeds: string, fill: string, password: string)
    requires SeedsFor(o, seeds)
    requires multiset(password) == multiset(seeds) + multiset(fill)
    ensures Covers(o, password)
  {
    var cats := EnabledCategories(o);
    forall c | Enabled(o, c) ensures exists i :: 0 <= i < |password| && password[i] in Alphabet(c) {
      var k :| 0 <= k < |cats| && cats[k] == c;
      assert seeds[k] in multiset(seeds);
      assert seeds[k] in multiset(password);
      var i :| 0 <= i < |password| && password[i] == seeds[k];
    }
  }

  /** `_getRandomChar`: `chars.charAt(getCryptoRandomInt(chars.length))`. */
  method GetRandomChar(chars: string, e: SecureRandom.Entropy) returns (r: Result<char, SecureRandom.RandomError>)
    requires e.Fair()
    modifies e
    ensures r.Err? <==> !SecureRandom.ValidMax(|chars|)
    ensures r.Ok? ==> r.value in chars
  {
    var index := SecureRandom.CryptoRandomInt(e, |chars|);
    if index.Err? {
      return Err(index.error);
    }
    r := Ok(chars[index.value]);
  }

  /** `_shuffleArray`: Fisher-Yates, swapping cell i with a cell j in [0, i] from i = length-1 down to 1. */
  method ShuffleArray(a: array<char>, e: SecureRandom.Entropy)
    requires e.Fair()
    requires a.Length <= SecureRandom.MAX31
    modifies a, e
    ensures multiset(a[..]) == old(multiset(a[..]))
  {
    var i := a.Length - 1;
    while i > 0
      invariant -1 <= i < a.Length
      invariant multiset(a[..]) == old(multiset(a[..]))
    {
      var j := SecureRandom.CryptoRandomInt(e, i + 1);
      a[i], a[j.value] := a[j.value], a[i];
      i := i - 1;
    }
  }

  /** `_shuffleString`: split, shuffle, join. */
  method ShuffleString(s: string, e: SecureRandom.Entropy) returns (r: string)
    requires e.Fair()
    requires |s| <= SecureRandom.MAX31
    modifies e
    ensures |r| == |s|
    ensures multiset(r) == multiset(s)
  {
    var a := new char[|s|](k requires 0 <= k < |s| => s[k]);
    assert a[..] == s;
    ShuffleArray(a, e);
    r := a[..];
    assert |r| == |multiset(r)|;
  }

  /** `for (const char of excluded) available = available.replace(char, "")`, char by char. */
  method RemoveEach(available: string, excluded: string) returns (r: string)
    ensures r == Exclude(available, excluded)
  {
    r := available;
    ExcludeNothing(available);
    assert excluded[..0] == [];
    for k := 0 to |excluded|
      invariant r == Exclude(available, excluded[..k])
    {
      RemoveCharStep(available, excluded[..k], excluded[k]);
      assert excluded[..k + 1] == excluded[..k] + [excluded[k]];
      r := RemoveChar(r, excluded[k]);
    }
    assert excluded[..|excluded|] == excluded;
  }

  /**
   * One category block: when the category is on, `availableChars += alphabet`
   * and `requiredChars.push(this._getRandomChar(alphabet))`.
   */
  method AddCategory(on: bool, c: Category, available: string, required: seq<char>, ghost cats: seq<Category>, e: SecureRandom.Entropy)
    returns (available': string, required': seq<char>, ghost cats': seq<Category>)
    requires e.Fair()
    requires available == Alphabets(cats) && SeedsMatch(required, cats)
    modifies e
    ensures cats' == cats + (if on then [c] else [])
    ensures available' == Alphabets(cats') && SeedsMatch(required', cats')
  {
    available', required', cats' := available, required, cats;
    if on {
      AlphabetsAppend(cats, c);
      available' := available + Alphabet(c);
      var seed := GetRandomChar(Alphabet(c), e);
      SeedsMatchExtend(required, cats, seed.value, c);
      required' := required + [seed.value];
      cats' := cats + [c];
    }
  }

  /**
   * The four category blocks of generatePassword: each enabled alphabet is
   * appended to the pool and one seed is drawn from it, in category order.
   */
  method CollectCategories(o: Options, e: SecureRandom.Entropy) returns (available: string, required: seq<char>)
    requires e.Fair()
    modifies e
    ensures available == Concatenated(o)
    ensures SeedsFor(o, required)
  {
    ghost var cats: seq<Category>;
    available, required, cats := AddCategory(o.lowercase, Lowercase, "", [], [], e);
    available, required, cats := AddCategory(o.uppercase, Uppercase, available, required, cats, e);
    available, required, cats := AddCategory(o.numbers, Numbers, available, required, cats, e);
    available, required, cats := AddCategory(o.special, Special, available, required, cats, e);
    assert cats == EnabledCategories(o);
  }

  /** `while (password.length < length) password += this._getRandomChar(availableChars)`. */
  method FillTo(prefix: string, available: string, length: int, e: SecureRandom.Entropy)
    returns (password: string, ghost fill: string)
    requires e.Fair()
    requires 0 < |available| <= SecureRandom.MAX31
    modifies e
    ensures password == prefix + fill
    ensures |password| == if |prefix| < length then length else |prefix|
    ensures forall x :: x in fill ==> x in available
  {
    password, fill := prefix, [];
    while |password| < length
      invariant password == prefix + fill
      invariant |prefix| < length ==> |password| <= length
      invariant |prefix| >= length ==> fill == []
      invariant forall x :: x in fill ==> x in available
      decreases length - |password|
    {
      var c := GetRandomChar(available, e);
      password, fill := password + [c.value], fill + [c.value];
    }
  }

  /** The two exclusion blocks: drop SIMILAR, then AMBIGUOUS, when asked. */
  method ApplyExclusions(o: Options, available: string) returns (pool: string)
    requires available == Concatenated(o)
    ensures pool == Pool(o)
  {
    pool := available;
    if o.excludeSimilar {
      pool := RemoveEach(pool, SIMILAR);
    }
    if o.excludeAmbiguous {
      pool := RemoveEach(pool, AMBIGUOUS);
    }
  }

  /** `this._shuffleArray(requiredChars); password = requiredChars.join("")`. */
  method ShuffleSeeds(required: seq<char>, e: SecureRandom.Entropy) returns (password: string)
    requires e.Fair()
    requires |required| <= 4
    modifies e
    ensures |password| == |required|
    ensures multiset(password) == multiset(required)
  {
    password := "";
    if |required| > 0 {
      var a := new char[|required|](k requires 0 <= k < |required| => required[k]);
      assert a[..] == required;
      ShuffleArray(a, e);
      password := a[..];
    }
    assert |password| == |multiset(password)|;
  }

  /**
   * generatePassword.  The ghost outputs name what the final shuffle mixes:
   * the seeds (one per enabled category, before exclusion) and the filler
   * drawn from the pool.
   */
  method GeneratePassword(input: OptionsInput, e: SecureRandom.Entropy)
    returns (r: Result<string, GenerateError>, ghost seeds: string, ghost fill: string)
    requires e.Fair()
    modifies e
    ensures !AnyCategory(Resolve(input)) ==> r == Err(NoCharacterSet)
    ensures AnyCategory(Resolve(input)) && !(4 <= Resolve(input).length <= 64) ==> r == Err(InvalidLength)
    ensures r.Ok? <==> ValidOptions(Resolve(input))
    ensures r.Ok? ==> |r.value| == Resolve(input).length
    ensures r.Ok? ==> Covers(Resolve(input), r.value)
    ensures r.Ok? ==> SeedsFor(Resolve(input), seeds)
    ensures r.Ok? ==> forall x :: x in fill ==> x in Pool(Resolve(input))
    ensures r.Ok? ==> multiset(r.value) == multiset(seeds) + multiset(fill)
  {
    seeds, fill := [], [];
    var o := Resolve(input);
    if !o.lowercase && !o.uppercase && !o.numbers && !o.special {
      return Err(NoCharacterSet), seeds, fill;
    }
    if o.length < 4 || o.length > 64 {
      return Err(InvalidLength), seeds, fill;
    }

    var all, required := CollectCategories(o, e);
    seeds := required;
    var available := ApplyExclusions(o, all);
    PoolNonEmpty(o);
    if |available| == 0 {
      return Err(NoCharactersAvailable), seeds, fill;
    }

    var password := ShuffleSeeds(required, e);

    var prefix := password;
    password, fill := FillTo(prefix, available, o.length, e);
    assert multiset(password) == multiset(seeds) + multiset(fill);

    var shuffled := ShuffleString(password, e);
    r := Ok(shuffled);
    SeedsCover(o, seeds, fill, shuffled);
  }
}
