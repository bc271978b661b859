# Password generator extension — Dafny model

This project models the core of a browser extension that generates passwords.
The core has four parts:

- **The password generator** (`PasswordGenerator.generatePassword` and its helpers).
  It exists in two versions: the current one draws from `crypto.getRandomValues`; the
  legacy one draws from `Math.random` and has no empty-pool guard.
- **The strength scorer** (`calculateStrength`). It is integer arithmetic over a string
  and is shared by both versions; only the label strings differ.
- **The rejection sampler** `getCryptoRandomInt`. It turns 32-bit random words into
  an unbiased integer in `[0, max)`.
- **`PasswordStorage`**. It holds the password history (newest first, no duplicate
  passwords, at most 50 entries), the generator settings and the theme, all in
  `chrome.storage.local`.

Modules:

| module | file | models |
|---|---|---|
| `Wrappers` | `wrappers.dfy` | `Option` and `Result` |
| `CharacterSets` | `character_sets.dfy` | the alphabets, the SIMILAR and AMBIGUOUS sets, the pool that survives the exclusions |
| `SecureRandom` | `secure_random.dfy` | `getCryptoRandomInt`. The random source is an `Entropy` object: the fixed stream of 32-bit words that `getRandomValues` writes into its one-element buffer |
| `Strength` | `strength.dfy` | `calculateStrength` |
| `Generator` | `generator.dfy` | `src/js/passwordGenerator.js` |
| `LegacyGenerator` | `legacy_generator.dfy` | `js/passwordGenerator.js`. `Math.floor(Math.random() * n)` is a `MathRandom` oracle returning any integer in `[0, n)` |
| `Storage` | `storage.dfy` | `PasswordStorage`, with the three storage keys as fields |

Randomness is an oracle whose choices are arbitrary. Every property of the
generators and shuffles holds for every sequence of random draws.

Termination of the rejection loop needs a fairness assumption: for every valid `max`
and from every position of the stream, a word that `max` accepts comes later. This is
the `Entropy.Fair()` precondition. With that assumption the loop's termination is proved.

Each scorer loop is proved against a pure specification: the `chars` counter, the
repeat sum, the run count and the common-word scan with its `break`. The pure
`Strength.Strength` function is the reference that both `CalculateStrength` methods
are shown to equal. The properties are then lemmas about that function.

## Model

| member | source | states |
|---|---|---|
| `CharacterSets.Alphabet` | src/js/passwordGenerator.js:7-10 | each alphabet is non-empty and at most 26 characters long |
| `CharacterSets.EnabledCategories` | src/js/passwordGenerator.js:61-79 | the categories in block order (lowercase, uppercase, numbers, special, strictly increasing): a category is listed exactly when its flag is set, and the list is non-empty exactly when some flag is set |
| `CharacterSets.AlphabetsMembership` | src/js/passwordGenerator.js:61-79 | a character is in the concatenation of the enabled alphabets iff it is in one of those alphabets |
| `CharacterSets.AlphabetsAppend` | src/js/passwordGenerator.js:62 | appending one more category's alphabet with `+=` is concatenation at the end |
| `CharacterSets.Concatenated` | src/js/passwordGenerator.js:58-79 | the unfiltered pool has at most 104 characters |
| `CharacterSets.RemoveChar` | src/js/passwordGenerator.js:83 | removing every occurrence of one character keeps exactly the other characters |
| `CharacterSets.Exclude` | src/js/passwordGenerator.js:81-92 | removing a whole set keeps exactly the characters outside it |
| `CharacterSets.RemoveCharStep` | src/js/passwordGenerator.js:82-84 | one more pass of the exclusion loop removes one more character |
| `CharacterSets.RemoveCharAppend` | src/js/passwordGenerator.js:83 | removal works piecewise over a concatenation |
| `CharacterSets.ExcludeNothing` | src/js/passwordGenerator.js:81-92 | excluding the empty set leaves the pool unchanged |
| `CharacterSets.ConcatenatedMembership` | src/js/passwordGenerator.js:58-79 | a character is in the unfiltered pool iff some enabled category's alphabet holds it |
| `CharacterSets.ExclusionsMembership` | src/js/passwordGenerator.js:81-92 | the two optional exclusion passes, in order, keep exactly the characters that no active exclusion names |
| `CharacterSets.PoolMembership` | src/js/passwordGenerator.js:58-92 | a character is in the pool iff an enabled alphabet holds it and neither active exclusion removes it |
| `CharacterSets.KeptCharacter` | js/passwordGenerator.js:6-11 | every alphabet keeps a character that is neither similar nor ambiguous |
| `CharacterSets.PoolNonEmpty` | js/passwordGenerator.js:69-83 | with any category enabled, the pool is non-empty after both exclusions |
| `SecureRandom.Mask31` | src/popup/helpers.js:38 | `word & 0x7fffffff` lies in [0, 2^31 - 1] |
| `SecureRandom.Bound` | src/popup/helpers.js:39 | `floor(0x7fffffff / max) * max` is a multiple of `max` in [0, 2^31 - 1], and fewer than `max` samples lie above it |
| `SecureRandom.AcceptanceIsPossible` | src/popup/helpers.js:33-39 | some 31-bit sample is accepted iff 1 <= max <= 2^31 - 1 |
| `SecureRandom.AsWrittenAdmitsEndlessLoop` | src/popup/helpers.js:33-39 | max = 2^31 passes the validation as written, yet every word is rejected |
| `SecureRandom.ResidueCount` | src/popup/helpers.js:39-40 | [0, q*m) holds exactly q numbers with each residue modulo m |
| `SecureRandom.NoModuloBias` | src/popup/helpers.js:36-40 | each residue r in [0, max) has exactly floor(0x7fffffff / max) accepted samples |
| `SecureRandom.Entropy.Fill` | src/popup/helpers.js:37 | `getRandomValues` writes the next word of the stream into the buffer |
| `SecureRandom.CryptoRandomInt` | src/popup/helpers.js:31-40 | error iff max is out of range, drawing nothing then. Otherwise the result is in [0, max) and is the last word's masked sample mod max; that sample was accepted and every earlier draw rejected |
| `Strength.Clamp` | src/js/passwordGenerator.js:172 | the clamped score is in [0, 100]: it equals the raw score in range and is 0 below |
| `Strength.ToLower` | src/js/passwordGenerator.js:166 | lower-casing keeps the length |
| `Strength.RepeatsCountsDuplicates` | src/js/passwordGenerator.js:137-148 | the repeat total equals the length minus the number of distinct characters |
| `Strength.RawScoreAtMost95` | src/js/passwordGenerator.js:123-135 | the sum of the bonuses is at most 95 |
| `Strength.StrengthRange` | src/js/passwordGenerator.js:118-172 | "" scores 0 with label None. Any other input scores in [0, 95], gets a real label, and its score is the raw score raised to 0 |
| `Strength.LabelMonotone` | src/js/passwordGenerator.js:174-179 | a higher score never gets a lower label |
| `Strength.LabelBoundaries` | src/js/passwordGenerator.js:174-179 | the thresholds: 40 is VeryWeak, 41 Weak, 49 Weak, 50 Medium, 64 Medium, 65 Strong, 79 Strong, 80 VeryStrong |
| `Strength.TwoCommonWordsCostTen` | src/js/passwordGenerator.js:164-170 | the check ignores case and takes its points once: "Password123456" holds both "password" and "123456" once lower-cased, yet loses 10, not 20 |
| `Strength.CountPositive` | src/js/passwordGenerator.js:140-142 | a character has a positive count iff it occurs |
| `Strength.CountSnoc` | src/js/passwordGenerator.js:141 | one more character raises only its own count, by one |
| `Strength.OnlyRemoveKey` | src/js/passwordGenerator.js:144-148 | dropping one key from the counter removes exactly its occurrences |
| `Strength.OnlyAll` | src/js/passwordGenerator.js:144-148 | keeping every key keeps the whole password |
| `Strength.OnlyNone` | src/js/passwordGenerator.js:144-148 | keeping no key leaves nothing |
| `Strength.CountCharacters` | src/js/passwordGenerator.js:138-142 | the counter's keys are the distinct characters and each value is that character's count |
| `Strength.RepeatTotal` | src/js/passwordGenerator.js:137-148 | the loop over the counter sums to the repeat total |
| `Strength.SequenceCount` | src/js/passwordGenerator.js:152-161 | the loop counts exactly the positions that start an ascending or descending run of three codes |
| `Strength.CommonWordScan` | src/js/passwordGenerator.js:164-170 | the scan with `break` subtracts exactly the one-shot penalty: 10 when some common word occurs in the lower-cased password, 0 otherwise, so never more than 10 |
| `Strength.CalculateStrength` | src/js/passwordGenerator.js:117-182 | the imperative scorer returns the specified score and label |
| `Generator.Resolve` | src/js/passwordGenerator.js:40-48 | each missing option takes its default (16, four categories on, both exclusions off), and each of the seven given options is kept as given |
| `Generator.SeedsMatchExtend` | src/js/passwordGenerator.js:63 | pushing a character of a category's alphabet extends the seed/category match |
| `Generator.SeedsCover` | src/js/passwordGenerator.js:100-109 | an arrangement of the seeds and the fill holds a character of every enabled alphabet |
| `Generator.GetRandomChar` | src/js/passwordGenerator.js:191-193 | error iff the string is empty or too long for the sampler; otherwise a character of the string |
| `Generator.ShuffleArray` | src/js/passwordGenerator.js:201-206 | the shuffle keeps the multiset of cells |
| `Generator.ShuffleString` | src/js/passwordGenerator.js:215-219 | the result has the same length and the same multiset as the input |
| `Generator.RemoveEach` | src/js/passwordGenerator.js:82-84 | the exclusion loop removes exactly the listed characters |
| `Generator.AddCategory` | src/js/passwordGenerator.js:61-64 | an enabled category appends its alphabet and one seed from it; a disabled one changes nothing |
| `Generator.CollectCategories` | src/js/passwordGenerator.js:58-79 | the pool is the concatenation of the enabled alphabets, with one seed per enabled category in order |
| `Generator.FillTo` | src/js/passwordGenerator.js:105-107 | the loop appends pool characters until the length is reached |
| `Generator.ApplyExclusions` | src/js/passwordGenerator.js:81-92 | the two exclusion blocks produce the pool |
| `Generator.ShuffleSeeds` | src/js/passwordGenerator.js:100-103 | the shuffled seeds are a permutation of the seeds |
| `Generator.GeneratePassword` | src/js/passwordGenerator.js:39-110 | no category gives NoCharacterSet, checked before the length; a category with a length outside [4, 64] gives InvalidLength; it succeeds iff the options are valid, and then the password has exactly `length` characters, holds a character of every enabled full alphabet, and is a permutation of one seed per enabled category plus fill characters that are all in the pool |
| `LegacyGenerator.MathRandom.FloorTimes` | js/passwordGenerator.js:192 | `Math.floor(Math.random() * n)` is in [0, n) for n > 0 and is 0 for n = 0 |
| `LegacyGenerator.GetRandomChar` | js/passwordGenerator.js:191-193 | "" for an empty string, otherwise one character of it |
| `LegacyGenerator.ShuffleArray` | js/passwordGenerator.js:201-206 | the shuffle keeps the multiset of cells |
| `LegacyGenerator.ShuffleString` | js/passwordGenerator.js:215-219 | the result has the same length and the same multiset as the input |
| `LegacyGenerator.AddCategory` | js/passwordGenerator.js:49-52 | an enabled category appends its alphabet and one seed from it; a disabled one changes nothing |
| `LegacyGenerator.CollectCategories` | js/passwordGenerator.js:46-67 | the pool is the concatenation of the enabled alphabets, with one seed per enabled category |
| `LegacyGenerator.FillTo` | js/passwordGenerator.js:92-94 | the loop appends pool characters until the length is reached |
| `LegacyGenerator.ShuffleSeeds` | js/passwordGenerator.js:87-90 | the shuffled seeds are a permutation of the seeds |
| `LegacyGenerator.GeneratePassword` | js/passwordGenerator.js:27-97 | the same two errors in the same order and no other; on success exactly `length` characters, every enabled alphabet covered, and a permutation of the seeds plus fill characters from the pool |
| `LegacyGenerator.LegacyLabelAgrees` | js/passwordGenerator.js:174-179 | each English label is the current version's label level for the same score |
| `LegacyGenerator.CalculateStrength` | js/passwordGenerator.js:105-182 | the legacy scorer gives the current version's score and its level in English |
| `Storage.DefaultSettings` | src/js/storage.js:162-174 | length 16, all four categories on, both exclusions off, minLength 4, maxLength 64 |
| `Storage.DefaultSettingsAreValid` | src/js/storage.js:162-174 | the default settings pass the generator's validation |
| `Storage.Saved` | src/js/storage.js:22-35 | a duplicate password leaves the list as it is; otherwise the new entry is at index 0 followed by the previous entries in order, the oldest dropped only when there were at least 50; at most 50 in gives at most 50 out, and more than 50 in keeps the length (a single pop) |
| `Storage.WithoutId` | src/js/storage.js:68 | the filtered list holds exactly the entries with another id |
| `Storage.SaveKeepsPasswordsDistinct` | src/js/storage.js:22-31 | saving keeps the stored passwords pairwise distinct |
| `Storage.SaveKeepsIdsDistinct` | src/js/storage.js:25-31 | saving with a fresh id keeps the ids pairwise distinct |
| `Storage.SaveTwiceStoresOnce` | src/js/storage.js:22-24 | saving the same password a second time changes nothing |
| `Storage.DeleteAbsentId` | src/js/storage.js:68 | deleting an id no entry has leaves the list unchanged |
| `Storage.DeleteConcat` | src/js/storage.js:68 | the filter works piecewise over a concatenation, so it keeps the original order |
| `Storage.DeleteRemovesId` | src/js/storage.js:68 | no entry with the deleted id remains |
| `Storage.DeleteKeepsOthers` | src/js/storage.js:68 | every copy of every entry with another id remains |
| `Storage.DeleteKeepsPasswordsDistinct` | src/js/storage.js:68 | deletion keeps the stored passwords pairwise distinct |
| `Storage.DeleteKeepsIdsDistinct` | src/js/storage.js:68 | deletion keeps the ids pairwise distinct |
| `Storage.ReverseAt` | src/js/storage.js:31 | element k of the reversed list is element n-1-k of the original |
| `Storage.SaveAllNewestFirst` | src/js/storage.js:9-35 | from an empty history, saving distinct passwords one after another leaves the newest 50 of them, newest first |
| `Storage.FiftyOneSaves` | src/js/storage.js:9-35 | after 51 distinct saves there are 50 entries: the last-saved first, the second-saved last, the first-saved gone |
| `Storage.PasswordStorage.constructor` | src/js/storage.js:5-10 | the store starts with all three keys absent and working storage |
| `Storage.PasswordStorage.GetHistory` | src/js/storage.js:49-57 | the stored list; [] when the key is absent or the read throws |
| `Storage.PasswordStorage.WriteHistory` | src/js/storage.js:37 | a successful write stores the list; a failing write stores nothing |
| `Storage.PasswordStorage.SavePassword` | src/js/storage.js:18-42 | a duplicate password (or a failing write) leaves the key as it was; otherwise the key holds `Saved` of what `getHistory` returned |
| `Storage.PasswordStorage.DeletePassword` | src/js/storage.js:65-73 | the key holds the loaded list without the entries with that id, unless the write fails |
| `Storage.PasswordStorage.ClearHistory` | src/js/storage.js:80-86 | the key holds [] unless the write fails |
| `Storage.PasswordStorage.SaveSettings` | src/js/storage.js:94-100 | the settings key holds the object unless the write fails |
| `Storage.PasswordStorage.GetSettings` | src/js/storage.js:107-115 | the stored object; the defaults when the key is absent or the read throws |
| `Storage.PasswordStorage.SaveTheme` | src/js/storage.js:123-129 | the theme key holds the string unless the write fails |
| `Storage.PasswordStorage.GetTheme` | src/js/storage.js:136-144 | the stored theme. 'system' when the key is absent, holds "", or the read throws |
| `Storage.StoreClient` | src/js/storage.js:80-144 | an example run on working storage with an empty history: any settings read back as saved and any theme reads back ("" as 'system'); then, with the fixed values "pw", "id1" and "absent", a repeated password is stored once, deleting an absent id changes nothing, and clearing empties the history. The general facts are the method contracts, `Storage.SaveTwiceStoresOnce` and `Storage.DeleteAbsentId` |

## Left out

- The `Math.random` fallback in `getCryptoRandomInt` (src/popup/helpers.js:43) uses floating point. Only the `crypto.getRandomValues` path is modelled.
- Probability distributions of passwords and shuffles are not modelled. The draws are arbitrary oracle choices. The one counting fact proved is `SecureRandom.NoModuloBias`.
- `SecureRandom.CryptoRandomInt`:
  - It needs `Entropy.Fair()`: for every valid `max`, from every position, an accepted word comes later. A real random source meets this only with probability 1.
  - Its range check is the corrected one (see Findings).
- `Generator.ShuffleArray` and `Generator.ShuffleString` require at most 2^31 - 1 cells. Larger arrays would reach the sampler's endless loop. Password strings are at most 64 characters.
- `Generator.FillTo` and `LegacyGenerator.FillTo` require a non-empty pool. This makes the loop terminate. `CharacterSets.PoolNonEmpty` proves that both callers meet it. The `NoCharactersAvailable` branch of the current version is therefore unreachable.
- Labels are the `Strength.Label` enumeration, not the translated `t(...)` strings. The i18n lookup is not part of this model. The legacy English strings are modelled by `LegacyGenerator.LabelText`.
- Strings are modelled as sequences of BMP characters, one per UTF-16 code unit. A Dafny `char` is a Unicode scalar value, so lone surrogates, which JavaScript strings allow, cannot be represented. Non-BMP characters are not modelled: `for...of` walks code points while `charCodeAt` and `.length` count code units. `toLowerCase` is ASCII A-Z to a-z only.
- `length` is an integer option. A non-numeric length, such as NaN, is not modelled.
- `chrome.storage.local` is three synchronous in-memory fields, plus two flags that say whether reads or writes currently throw. Asynchrony, races between read-modify-write sequences, and `console.error` logging are left out.
- `_generateId` and `Date.now()` use the clock and `Math.random`. `SavePassword` takes the id and the timestamp as parameters.
- Settings and theme are stored as typed values. A stored `null` or `0`, which `||` would also replace with the default, is not modelled. The empty theme string is modelled.
- UI, DOM rendering, events, clipboard, the i18n module, logging, and the build configuration are not part of this model.

As written, `savePassword` overwrites the stored history with a list holding only the new entry when the read throws, because `getHistory` swallows the error and returns `[]`. The model keeps this: `PasswordStorage.SavePassword` is stated in terms of what `getHistory` returned. `getHistory` likewise repairs no entries; it returns the stored list as it is.

The top score is 95, not 100: the bonuses add up to at most 40 + 40 + 15. The clamp to 100 never takes effect; `Strength.RawScoreAtMost95` states this.

## Findings

| source | as written | input that shows it | evidently intended | confidence | as-written member | corrected member |
|---|---|---|---|---|---|---|
| src/popup/helpers.js:33-39 | the range check admits any `max` up to `Number.MAX_SAFE_INTEGER`, but for `max > 0x7fffffff` the bound `floor(0x7fffffff / max) * max` is 0 and every sample is rejected | `getCryptoRandomInt(2147483648)` loops forever | reject every `max` above `0x7fffffff` as invalid | not executed | `SecureRandom.AsWrittenAdmitsEndlessLoop` | `SecureRandom.CryptoRandomInt` |
