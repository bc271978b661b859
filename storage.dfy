/**
 * PasswordStorage: the password history (newest first, no two entries with
 * the same password, at most MAX_HISTORY long), the generator settings and
 * the theme, kept under three keys of the extension's local storage.
 */
module Storage {
  import opened Wrappers
  import CharacterSets
  import Generator

  const MAX_HISTORY: nat := 50
  const DEFAULT_THEME: string := "system"

  datatype HistoryEntry = HistoryEntry(id: string, password: string, timestamp: int)

  /** The settings object as the popup writes it; `min`/`maxLength` and `historyVisible` are optional keys. */
  datatype Settings = Settings(
    length: int,
    lowercase: bool,
    uppercase: bool,
    numbers: bool,
    special: bool,
    excludeSimilar: bool,
    excludeAmbiguous: bool,
    minLength: Option<int>,
    maxLength: Option<int>,
    historyVisible: Option<bool>)

  /** `_getDefaultSettings`. */
  function DefaultSettings(): (s: Settings)
    ensures s.length == 16 && s.lowercase && s.uppercase && s.numbers && s.special
    ensures !s.excludeSimilar && !s.excludeAmbiguous
    ensures s.minLength == Some(4) && s.maxLength == Some(64) && s.historyVisible.None?
  {
    Settings(16, true, true, true, true, false, false, Some(4), Some(64), None)
  }

  /** The generator options a settings object carries. */
  function GeneratorOptions(s: Settings): CharacterSets.Options {
    CharacterSets.Options(s.length, s.lowercase, s.uppercase, s.numbers, s.special,
                          s.excludeSimilar, s.excludeAmbiguous)
  }

  /** The defaults pass the generator's validation, and their bounds are the generator's 4 and 64. */
  lemma DefaultSettingsAreValid()
    ensures Generator.ValidOptions(GeneratorOptions(DefaultSettings()))
    ensures DefaultSettings().minLength == Some(4) && DefaultSettings().maxLength == Some(64)
  {
    assert CharacterSets.Enabled(GeneratorOptions(DefaultSettings()), CharacterSets.Lowercase);
  }

  /** `history.some((item) => item.password === password)`. */
  predicate HasPassword(h: seq<HistoryEntry>, password: string) {
    exists i :: 0 <= i < |h| && h[i].password == password
  }

  predicate HasId(h: seq<HistoryEntry>, id: string) {
    exists i :: 0 <= i < |h| && h[i].id == id
  }

  predicate PasswordsDistinct(h: seq<HistoryEntry>) {
    forall i, j :: 0 <= i < j < |h| ==> h[i].password != h[j].password
  }

  predicate IdsDistinct(h: seq<HistoryEntry>) {
    forall i, j :: 0 <= i < j < |h| ==> h[i].id != h[j].id
  }

  /**
   * The list savePassword writes: unchanged for a duplicate password;
   * otherwise the entry goes first and, past MAX_HISTORY, one entry is
   * popped from the end.
   */
  function Saved(h: seq<HistoryEntry>, entry: HistoryEntry): (r: seq<HistoryEntry>)
    ensures HasPassword(h, entry.password) ==> r == h
    ensures !HasPassword(h, entry.password) ==> |r| > 0 && r[0] == entry
    ensures !HasPassword(h, entry.password) && |h| < MAX_HISTORY ==> r[1..] == h
    ensures !HasPassword(h, entry.password) && |h| >= MAX_HISTORY ==> r[1..] == h[..|h| - 1]
    ensures |h| <= MAX_HISTORY ==> |r| <= MAX_HISTORY
    ensures |h| > MAX_HISTORY ==> |r| == |h|
  {
    if HasPassword(h, entry.password) then h
    else
      var grown := [entry] + h;
      if |grown| > MAX_HISTORY then grown[..|grown| - 1] else grown
  }

  /** `history.filter((item) => item.id !== id)`. */
  function WithoutId(h: seq<HistoryEntry>, id: string): (r: seq<HistoryEntry>)
    ensures |r| <= |h|
    ensures forall e :: e in r <==> e in h && e.id != id
  {
    if h == [] then []
    else (if h[0].id == id then [] else [h[0]]) + WithoutId(h[1..], id)
  }

  // ---------------------------------------------------------------------
  // Properties of the history operations

  /** A new password keeps stored passwords pairwise distinct. */
  lemma SaveKeepsPasswordsDistinct(h: seq<HistoryEntry>, entry: HistoryEntry)
    requires PasswordsDistinct(h)
    ensures PasswordsDistinct(Saved(h, entry))
  {
    var r := Saved(h, entry);
    if !HasPassword(h, entry.password) {
      forall i, j | 0 <= i < j < |r| ensures r[i].password != r[j].password {
        assert r[j] == h[j - 1];
        if i > 0 { assert r[i] == h[i - 1]; }
      }
    }
  }

  /** With a fresh id, ids stay pairwise distinct. */
  lemma SaveKeepsIdsDistinct(h: seq<HistoryEntry>, entry: HistoryEntry)
    requires IdsDistinct(h) && !HasId(h, entry.id)
    ensures IdsDistinct(Saved(h, entry))
  {
    var r := Saved(h, entry);
    if !HasPassword(h, entry.password) {
      forall i, j | 0 <= i < j < |r| ensures r[i].id != r[j].id {
        assert r[j] == h[j - 1];
        if i > 0 { assert r[i] == h[i - 1]; }
      }
    }
  }

  /** Saving the same password twice stores it once. */
  lemma SaveTwiceStoresOnce(h: seq<HistoryEntry>, first: HistoryEntry, second: HistoryEntry)
    requires first.password == second.password
    ensures Saved(Saved(h, first), second) == Saved(h, first)
  {
    var r := Saved(h, first);
    if !HasPassword(h, first.password) {
      assert r[0].password == second.password;
    }
  }

  /** Deleting an id nobody has changes nothing. */
  lemma {:induction false} DeleteAbsentId(h: seq<HistoryEntry>, id: string)
    requires !HasId(h, id)
    ensures WithoutId(h, id) == h
  {
    if h != [] {
      forall i | 0 <= i < |h[1..]| ensures h[1..][i].id != id {
        assert h[1..][i] == h[i + 1];
      }
      DeleteAbsentId(h[1..], id);
    }
  }

  /** Filtering keeps order: it works piecewise over a concatenation. */
  lemma {:induction false} DeleteConcat(a: seq<HistoryEntry>, b: seq<HistoryEntry>, id: string)
    ensures WithoutId(a + b, id) == WithoutId(a, id) + WithoutId(b, id)
  {
    if a == [] {
      assert a + b == b;
    } else {
      assert (a + b)[1..] == a[1..] + b;
      DeleteConcat(a[1..], b, id);
    }
  }

  /** Deletion leaves no entry with that id. */
  lemma DeleteRemovesId(h: seq<HistoryEntry>, id: string)
    ensures !HasId(WithoutId(h, id), id)
  {
    var r := WithoutId(h, id);
    forall i | 0 <= i < |r| ensures r[i].id != id {
      assert r[i] in r;
    }
  }

  /** Deletion keeps every copy of every entry with another id. */
  lemma {:induction false} DeleteKeepsOthers(h: seq<HistoryEntry>, id: string, e: HistoryEntry)
    requires e.id != id
    ensures multiset(WithoutId(h, id))[e] == multiset(h)[e]
  {
    if h != [] {
      DeleteKeepsOthers(h[1..], id, e);
      var head := if h[0].id == id then [] else [h[0]];
      assert WithoutId(h, id) == head + WithoutId(h[1..], id);
      assert multiset(WithoutId(h, id)) == multiset(head) + multiset(WithoutId(h[1..], id));
      assert h == [h[0]] + h[1..];
      assert multiset(h) == multiset([h[0]]) + multiset(h[1..]);
    }
  }

  /** Deletion keeps the stored passwords pairwise distinct. */
  lemma {:induction false} DeleteKeepsPasswordsDistinct(h: seq<HistoryEntry>, id: string)
    requires PasswordsDistinct(h)
    ensures PasswordsDistinct(WithoutId(h, id))
  {
    if h != [] {
      DeleteKeepsPasswordsDistinct(h[1..], id);
      var rest := WithoutId(h[1..], id);
      forall j | 0 <= j < |rest| ensures h[0].password != rest[j].password {
        assert rest[j] in rest;
        var k :| 0 <= k < |h[1..]| && h[1..][k] == rest[j];
        assert h[k + 1] == rest[j];
      }
    }
  }

  /** Deletion keeps the ids pairwise distinct. */
  lemma {:induction false} DeleteKeepsIdsDistinct(h: seq<HistoryEntry>, id: string)
    requires IdsDistinct(h)
    ensures IdsDistinct(WithoutId(h, id))
  {
    if h != [] {
      DeleteKeepsIdsDistinct(h[1..], id);
      var rest := WithoutId(h[1..], id);
      forall j | 0 <= j < |rest| ensures h[0].id != rest[j].id {
        assert rest[j] in rest;
        var k :| 0 <= k < |h[1..]| && h[1..][k] == rest[j];
        assert h[k + 1] == rest[j];
      }
    }
  }

  /** The history after saving `entries` one after another, starting from `h`. */
  function SaveAll(h: seq<HistoryEntry>, entries: seq<HistoryEntry>): seq<HistoryEntry> {
    if entries == [] then h
    else Saved(SaveAll(h, entries[..|entries| - 1]), entries[|entries| - 1])
  }

  function Reverse<T>(s: seq<T>): (r: seq<T>)
    ensures |r| == |s|
  {
    if s == [] then [] else [s[|s| - 1]] + Reverse(s[..|s| - 1])
  }

  lemma {:induction false} ReverseAt<T>(s: seq<T>, k: int)
    requires 0 <= k < |s|
    ensures Reverse(s)[k] == s[|s| - 1 - k]
  {
    if k > 0 {
      ReverseAt(s[..|s| - 1], k - 1);
    }
  }

  /**
   * From an empty history, saving passwords that are all different leaves
   * the newest MAX_HISTORY of them, newest first.
   */
  lemma {:induction false} SaveAllNewestFirst(entries: seq<HistoryEntry>)
    requires forall i, j :: 0 <= i < j < |entries| ==> entries[i].password != entries[j].password
    ensures var n := if |entries| < MAX_HISTORY then |entries| else MAX_HISTORY;
      SaveAll([], entries) == Reverse(entries)[..n]
  {
    if entries != [] {
      var p, e := entries[..|entries| - 1], entries[|entries| - 1];
      SaveAllNewestFirst(p);
      var m := if |p| < MAX_HISTORY then |p| else MAX_HISTORY;
      var before := SaveAll([], p);
      assert before == Reverse(p)[..m];
      forall i | 0 <= i < |before| ensures before[i].password != e.password {
        ReverseAt(p, i);
        assert p[|p| - 1 - i] == entries[|p| - 1 - i];
      }
      assert Reverse(entries) == [e] + Reverse(p);
      var n := if |entries| < MAX_HISTORY then |entries| else MAX_HISTORY;
      assert SaveAll([], entries) == Saved(before, e);
      if |before| >= MAX_HISTORY {
        assert Saved(before, e) == [e] + before[..|before| - 1];
        assert ([e] + Reverse(p))[..n] == [e] + Reverse(p)[..n - 1];
      } else {
        assert Saved(before, e) == [e] + before;
        assert ([e] + Reverse(p))[..n] == [e] + Reverse(p)[..m];
      }
    }
  }

  /** Saving 51 different passwords leaves 50 entries: the last-saved first, the first-saved gone. */
  lemma FiftyOneSaves(entries: seq<HistoryEntry>)
    requires |entries| == MAX_HISTORY + 1
    requires forall i, j :: 0 <= i < j < |entries| ==> entries[i].password != entries[j].password
    ensures |SaveAll([], entries)| == MAX_HISTORY
    ensures SaveAll([], entries)[0] == entries[MAX_HISTORY]
    ensures SaveAll([], entries)[MAX_HISTORY - 1] == entries[1]
    ensures entries[0] !in SaveAll([], entries)
  {
    SaveAllNewestFirst(entries);
    var r := SaveAll([], entries);
    ReverseAt(entries, 0);
    ReverseAt(entries, MAX_HISTORY - 1);
    forall i | 0 <= i < |r| ensures r[i] != entries[0] {
      ReverseAt(entries, i);
    }
  }

  // ---------------------------------------------------------------------
  // The store

  /**
   * The three keys of `chrome.storage.local` that PasswordStorage uses, held
   * in memory; an absent key is None.  `readFails` and `writeFails` say
   * whether the storage calls currently throw.
   */
  class PasswordStorage {
    var history: Option<seq<HistoryEntry>>
    var settings: Option<Settings>
    var theme: Option<string>
    var readFails: bool
    var writeFails: bool

    constructor ()
      ensures history.None? && settings.None? && theme.None?
      ensures !readFails && !writeFails
    {
      history, settings, theme := None, None, None;
      readFails, writeFails := false, false;
    }

    /** What getHistory returns: the stored list, or [] when the key is absent or the read throws. */
    function CurrentHistory(): seq<HistoryEntry>
      reads this
    {
      if readFails then [] else history.GetOr([])
    }

    method GetHistory() returns (h: seq<HistoryEntry>)
      ensures h == CurrentHistory()
    {
      if readFails {
        return [];
      }
      h := if history.Some? then history.value else [];
    }

    /** `chrome.storage.local.set({ password_history: h })`; a failing write changes nothing. */
    method WriteHistory(h: seq<HistoryEntry>)
      modifies this`history
      ensures history == if writeFails then old(history) else Some(h)
    {
      if !writeFails {
        history := Some(h);
      }
    }

    /** savePassword, with the fresh id and the timestamp supplied by the caller. */
    method SavePassword(password: string, id: string, timestamp: int)
      modifies this`history
      ensures var before := old(CurrentHistory());
        history == if HasPassword(before, password) || writeFails then old(history)
                   else Some(Saved(before, HistoryEntry(id, password, timestamp)))
    {
      var h := GetHistory();
      var isDuplicate := HasPassword(h, password);
      if !isDuplicate {
        var newEntry := HistoryEntry(id, password, timestamp);
        h := [newEntry] + h;
        if |h| > MAX_HISTORY {
          h := h[..|h| - 1];
        }
        WriteHistory(h);
      }
    }

    method DeletePassword(id: string)
      modifies this`history
      ensures history == if writeFails then old(history) else Some(WithoutId(old(CurrentHistory()), id))
    {
      var h := GetHistory();
      var filteredHistory := WithoutId(h, id);
      WriteHistory(filteredHistory);
    }

    method ClearHistory()
      modifies this`history
      ensures history == if writeFails then old(history) else Some([])
    {
      WriteHistory([]);
    }

    method SaveSettings(s: Settings)
      modifies this`settings
      ensures settings == if writeFails then old(settings) else Some(s)
    {
      if !writeFails {
        settings := Some(s);
      }
    }

    /** getSettings: the stored object, or the defaults when the key is absent or the read throws. */
    method GetSettings() returns (s: Settings)
      ensures s == if readFails || settings.None? then DefaultSettings() else settings.value
    {
      if readFails {
        return DefaultSettings();
      }
      s := settings.GetOr(DefaultSettings());
    }

    method SaveTheme(t: string)
      modifies this`theme
      ensures theme == if writeFails then old(theme) else Some(t)
    {
      if !writeFails {
        theme := Some(t);
      }
    }

    /** getTheme: `data[THEME_KEY] || 'system'`, so an empty stored string also reads as 'system'. */
    method GetTheme() returns (t: string)
      ensures t == if readFails || theme.None? || theme.value == "" then DEFAULT_THEME else theme.value
    {
      if readFails {
        return DEFAULT_THEME;
      }
      t := if theme.Some? && theme.value != "" then theme.value else DEFAULT_THEME;
    }
  }

  /** What callers can rely on when the storage works: each save reads back, the history stays within its invariants. */
  method StoreClient(store: PasswordStorage, s: Settings, t: string)
    requires !store.readFails && !store.writeFails
    requires store.history.None?
    modifies store
    ensures store.settings == Some(s) && store.theme == Some(t) && store.history == Some([])
  {
    store.SaveSettings(s);
    var gotSettings := store.GetSettings();
    assert gotSettings == s;

    store.SaveTheme(t);
    var gotTheme := store.GetTheme();
    assert gotTheme == if t == "" then DEFAULT_THEME else t;

    var h := store.GetHistory();
    assert h == [];
    store.SavePassword("pw", "id1", 1);
    store.SavePassword("pw", "id2", 2);
    h := store.GetHistory();
    assert h == [HistoryEntry("id1", "pw", 1)];
    store.DeletePassword("absent");
    h := store.GetHistory();
    assert h == [HistoryEntry("id1", "pw", 1)];
    store.ClearHistory();
    h := store.GetHistory();
    assert h == [];
  }
}
