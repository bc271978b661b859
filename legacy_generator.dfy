/**
 * The legacy PasswordGenerator of js/passwordGenerator.js: the same
 * algorithm drawing from Math.random, with no empty-pool guard and with
 * English strength labels.
 */
module LegacyGenerator {
  import opened Wrappers
  import opened CharacterSets
  import Generator
  import Strength

  /**
   * `Math.floor(Math.random() * n)`: the successive choices are an arbitrary
   * stream, so what is proved holds for every outcome of the draws.
   */
  class MathRandom {
    const choices: nat -> nat
    var drawn: nat

    constructor (choices: nat -> nat)
      ensures this.choices == choices && drawn == 0
    {
      this.choices := choices;
      drawn := 0;
    }

    method FloorTimes(n: nat) returns (j: nat)
      modifies this
      ensures n > 0 ==> j < n
      ensures n == 0 ==> j == 0
      ensures drawn == old(drawn) + 1
    {
      j := if n == 0 then 0 else choices(drawn) % n;
      drawn := drawn + 1;
    }
  }

  /** `_getRandomChar`: `chars.charAt(...)`, which is the empty string when `chars` is empty. */
  method GetRandomChar(chars: string, random: MathRandom) returns (s: string)
    modifies random
    ensures chars == [] ==> s == []
    ensures chars != [] ==> |s| == 1 && s[0] in chars
  {
    var j := random.FloorTimes(|chars|);
    s := if j < |chars| then [chars[j]] else [];
  }

  /** `_shuffleArray`: Fisher-Yates with Math.random. */
  method ShuffleArray(a: array<char>, random: MathRandom)
    modifies a, random
    ensures multiset(a[..]) == old(multiset(a[..]))
  {
    var i := a.Length - 1;
    while i > 0
      invariant -1 <= i < a.Length
      invariant multiset(a[..]) == old(multiset(a[..]))
    {
      var j := random.FloorTimes(i + 1);
      a[i], a[j] := a[j], a[i];
      i := i - 1;
    }
  }

  /** `_shuffleString`: split, shuffle, join. */
  method ShuffleString(s: string, random: MathRandom) returns (r: string)
    modifies random
    ensures |r| == |s|
    ensures multiset(r) == multiset(s)
  {
    var a := new char[|s|](k requires 0 <= k < |s| => s[k]);
    assert a[..] == s;
    ShuffleArray(a, random);
    r := a[..];
    assert |r| == |multiset(r)|;
  }

  /**
   * One category block: when the category is on, `availableChars += alphabet`
   * and `requiredChars.push(this._getRandomChar(alphabet))`.
   */
  method AddCategory(on: bool, c: Category, available: string, required: seq<char>, ghost cats: seq<Category>, random: MathRandom)
    returns (available': string, required': seq<char>, ghost cats': seq<Category>)
    requires available == Alphabets(cats) && Generator.SeedsMatch(required, cats)
    modifies random
    ensures cats' == cats + (if on then [c] else [])
    ensures available' == Alphabets(cats') && Generator.SeedsMatch(required', cats')
  {
    available', required', cats' := available, required, cats;
    if on {
      AlphabetsAppend(cats, c);
      available' := available + Alphabet(c);
      var seed := GetRandomChar(Alphabet(c), random);
      Generator.SeedsMatchExtend(required, cats, seed[0], c);
      assert seed == [seed[0]];
      required' := required + seed;
      cats' := cats + [c];
    }
  }

  /**
   * The four category blocks of generatePassword: each enabled alphabet is
   * appended to the pool and one seed is drawn from it, in category order.
   */
  method CollectCategories(o: Options, random: MathRandom) returns (available: string, required: seq<char>)
    modifies random
    ensures available == Concatenated(o)
    ensures Generator.SeedsFor(o, required)
  {
    ghost var cats: seq<Category>;
    available, required, cats := AddCategory(o.lowercase, Lowercase, "", [], [], random);
    available, required, cats := AddCategory(o.uppercase, Uppercase, available, required, cats, random);
    available, required, cats := AddCategory(o.numbers, Numbers, available, required, cats, random);
    available, required, cats := AddCategory(o.special, Special, available, required, cats, random);
    assert cats == EnabledCategories(o);
  }

  /**
   * The fill loop.  It appends `_getRandomChar(availableChars)`, which adds
   * nothing when the pool is empty; the loop ends because the pool never is.
   */
  method FillTo(prefix: string, available: string, length: int, random: MathRandom)
    returns (password: string, ghost fill: string)
    requires |available| > 0
    modifies random
    ensures password == prefix + fill
    ensures |password| == if |prefix| < length then length else |prefix|
    ensures forall x :: x in fill ==> x in available
  {
    password, fill := prefix, [];
    while |password| < length
      invariant password == prefix + fill
      invariant |prefix| < length ==> |password| <= length
      invariant |prefix| >= length ==> fill == []
      invariant forall x :: x in fill ==> x in available
      decreases length - |password|
    {
      var c := GetRandomChar(available, random);
      password, fill := password + c, fill + c;
    }
  }

  /** `this._shuffleArray(requiredChars); password = requiredChars.join("")`. */
  method ShuffleSeeds(required: seq<char>, random: MathRandom) returns (password: string)
    modifies random
    ensures |password| == |required|
    ensures multiset(password) == multiset(required)
  {
    password := "";
    if |required| > 0 {
      var a := new char[|required|](k requires 0 <= k < |required| => required[k]);
      assert a[..] == required;
      ShuffleArray(a, random);
      password := a[..];
    }
    assert |password| == |multiset(password)|;
  }

  /** generatePassword of the legacy file: the two validation errors and no pool check. */
  method GeneratePassword(input: Generator.OptionsInput, random: MathRandom)
    returns (r: Result<string, Generator.GenerateError>, ghost seeds: string, ghost fill: string)
    modifies random
    ensures !AnyCategory(Generator.Resolve(input)) ==> r == Err(Generator.NoCharacterSet)
    ensures AnyCategory(Generator.Resolve(input)) && !(4 <= Generator.Resolve(input).length <= 64)
      ==> r == Err(Generator.InvalidLength)
    ensures r.Ok? <==> Generator.ValidOptions(Generator.Resolve(input))
    ensures r.Ok? ==> |r.value| == Generator.Resolve(input).length
    ensures r.Ok? ==> Generator.Covers(Generator.Resolve(input), r.value)
    ensures r.Ok? ==> Generator.SeedsFor(Generator.Resolve(input), seeds)
    ensures r.Ok? ==> forall x :: x in fill ==> x in Pool(Generator.Resolve(input))
    ensures r.Ok? ==> multiset(r.value) == multiset(seeds) + multiset(fill)
  {
    seeds, fill := [], [];
    var o := Generator.Resolve(input);
    if !o.lowercase && !o.uppercase && !o.numbers && !o.special {
      return Err(Generator.NoCharacterSet), seeds, fill;
    }
    if o.length < 4 || o.length > 64 {
      return Err(Generator.InvalidLength), seeds, fill;
    }

    var all, required := CollectCategories(o, random);
    seeds := required;
    var available := Generator.ApplyExclusions(o, all);
    var password := ShuffleSeeds(required, random);

    PoolNonEmpty(o);
    var prefix := password;
    password, fill := FillTo(prefix, available, o.length, random);
    assert multiset(password) == multiset(seeds) + multiset(fill);

    var shuffled := ShuffleString(password, random);
    r := Ok(shuffled);
    Generator.SeedsCover(o, seeds, fill, shuffled);
  }

  /** The legacy label thresholds, in English. */
  function LegacyLabel(score: int): string {
    if score <= 40 then "Very Weak"
    else if score < 50 then "Weak"
    else if score < 65 then "Medium"
    else if score < 80 then "Strong"
    else "Very Strong"
  }

  /** The English name of each label of the current version. */
  function LabelText(l: Strength.Label): string {
    match l
    case None => "None"
    case VeryWeak => "Very Weak"
    case Weak => "Weak"
    case Medium => "Medium"
    case Strong => "Strong"
    case VeryStrong => "Very Strong"
  }

  /** The legacy thresholds name exactly the buckets of the current version. */
  lemma LegacyLabelAgrees(score: int)
    ensures LegacyLabel(score) == LabelText(Strength.LabelFor(score))
  {
  }

  /**
   * calculateStrength of the legacy file: the arithmetic is that of the
   * current version, so its score is Strength's for every password.
   */
  method CalculateStrength(password: string) returns (score: int, text: string)
    ensures score == Strength.Strength(password).score
    ensures text == LabelText(Strength.Strength(password).level)
  {
    var r := Strength.CalculateStrength(password);
    score := r.score;
    if password == [] {
      text := "None";
    } else if score <= 40 {
      text := "Very Weak";
    } else if score < 50 {
      text := "Weak";
    } else if score < 65 {
      text := "Medium";
    } else if score < 80 {
      text := "Strong";
    } else {
      text := "Very Strong";
    }
  }
}
