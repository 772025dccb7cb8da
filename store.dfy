/** The settings store (`src/lib/store.ts`): one object under the key
    `"settings"` of a key-value store file, read and written through object
    spreads over the defaults. The store file is loaded at most once per
    session and shared by every call. */
module SettingsStore {

  /** A setting's value as the spreads see it. `Undefined` is a key present
      with the value `undefined`, which a `Partial` update may carry. */
  datatype Value = Bool(b: bool) | Text(s: string) | Undefined

  /** A settings object: its own enumerable keys and their values. */
  type Settings = map<string, Value>

  const StoreFile := ".settings.json"
  const SettingsKey := "settings"
  const SuccessSound := "successSound"
  const ErrorSound := "errorSound"

  /** `DEFAULTS`: both sounds on, no API key. */
  const Defaults: Settings := map[SuccessSound := Bool(true), ErrorSound := Bool(true)]

  /** `{ ...base, ...over }`: every key of either, the later object winning. */
  function Spread(base: Settings, over: Settings): (r: Settings)
    ensures r.Keys == base.Keys + over.Keys
    ensures forall k :: k in over ==> r[k] == over[k]
    ensures forall k :: k in base && k !in over ==> r[k] == base[k]
  {
    base + over
  }

  /** What `store.set` keeps of an object: it is sent as JSON, which drops
      the keys whose value is `undefined`. */
  function Serialized(m: Settings): (r: Settings)
    ensures forall k :: k in r <==> k in m && m[k] != Undefined
    ensures forall k :: k in r ==> r[k] == m[k]
  {
    map k | k in m && m[k] != Undefined :: m[k]
  }

  /** `(await store.get(SETTINGS_KEY)) ?? {}` */
  function Stored(entries: map<string, Settings>): Settings {
    if SettingsKey in entries then entries[SettingsKey] else map[]
  }

  /** The object `loadSettings` returns. */
  function Loaded(entries: map<string, Settings>): (r: Settings)
    ensures r.Keys == Defaults.Keys + Stored(entries).Keys
    ensures forall k :: k in Defaults && k !in Stored(entries) ==> r[k] == Defaults[k]
    ensures forall k :: k in Stored(entries) ==> r[k] == Stored(entries)[k]
  {
    Spread(Defaults, Stored(entries))
  }

  /** The object `saveSettings(partial)` writes and returns. */
  function Saved(entries: map<string, Settings>, partial: Settings): (r: Settings)
    ensures r.Keys == Defaults.Keys + Stored(entries).Keys + partial.Keys
    ensures forall k :: k in partial ==> r[k] == partial[k]
    ensures forall k :: k !in partial && k in Stored(entries) ==> r[k] == Stored(entries)[k]
    ensures forall k :: k !in partial && k !in Stored(entries) && k in Defaults ==> r[k] == Defaults[k]
  {
    Spread(Spread(Defaults, Stored(entries)), partial)
  }

  /** With nothing stored, loading yields the defaults. */
  lemma LoadEmpty(entries: map<string, Settings>)
    requires SettingsKey !in entries
    ensures Loaded(entries) == Defaults
  {
  }

  /** A save followed by a load reads back what the save returned, except the
      keys the update set to `undefined`, which read back as their default or
      not at all. */
  lemma SaveThenLoad(entries: map<string, Settings>, partial: Settings)
    ensures var next := Saved(entries, partial);
      Loaded(entries[SettingsKey := Serialized(next)]) == Spread(Defaults, Serialized(next))
    ensures forall k :: k in partial && partial[k] != Undefined ==>
      Loaded(entries[SettingsKey := Serialized(Saved(entries, partial))])[k] == partial[k]
  {
    var next := Saved(entries, partial);
    var e' := entries[SettingsKey := Serialized(next)];
    assert Stored(e') == Serialized(next);
  }

  /** A value read back from the JSON file never holds `undefined`. */
  predicate Defined(m: Settings) {
    forall k :: k in m ==> m[k] != Undefined
  }

  /** Saving the same update twice writes the same object as saving it once,
      whenever the stored object came from the file. */
  lemma SaveIdempotent(entries: map<string, Settings>, partial: Settings)
    requires Defined(Stored(entries))
    ensures var next := Saved(entries, partial);
      Saved(entries[SettingsKey := Serialized(next)], partial) == next
  {
    var next := Saved(entries, partial);
    var e' := entries[SettingsKey := Serialized(next)];
    assert Stored(e') == Serialized(next);
    DefinedOutsidePartial(entries, partial);
    var again := Saved(e', partial);
    assert again.Keys == next.Keys by {
      assert again.Keys == Defaults.Keys + Serialized(next).Keys + partial.Keys;
      assert next.Keys == Defaults.Keys + Stored(entries).Keys + partial.Keys;
    }
    SameEntries(again, next);
  }

  lemma SameEntries(a: Settings, b: Settings)
    requires a.Keys == b.Keys
    requires forall k :: k in a ==> a[k] == b[k]
    ensures a == b
  {
  }

  /** Only the update itself can put `undefined` into the saved object. */
  lemma DefinedOutsidePartial(entries: map<string, Settings>, partial: Settings)
    requires Defined(Stored(entries))
    ensures forall k :: k in Saved(entries, partial) && k !in partial ==>
      k in Serialized(Saved(entries, partial)) && Serialized(Saved(entries, partial))[k] == Saved(entries, partial)[k]
  {
  }

  /** The store plugin's `Store` and the file behind it, with the module's
      `storePromise`. */
  class Store {
    /** The entries last saved in `.settings.json`. */
    var file: map<string, map<string, Value>>
    /** Whether `storePromise` is set. */
    var loaded: bool
    /** The loaded store's entries. */
    var entries: map<string, map<string, Value>>
    /** How many times the file has been loaded. */
    ghost var loads: nat

    /** `getStore` memoises: the file is loaded exactly once from the first
        call on. */
    ghost predicate Valid()
      reads this
    {
      loads == if loaded then 1 else 0
    }

    /** The module as imported: nothing loaded yet, `file` on disk. */
    constructor (file: map<string, map<string, Value>>)
      ensures this.file == file && !loaded && entries == map[] && loads == 0
      ensures Valid()
    {
      this.file := file;
      loaded := false;
      entries := map[];
      loads := 0;
    }

    /** `getStore`: the first call loads the file, later calls reuse the
        store. */
    method GetStore()
      requires Valid()
      modifies this`loaded, this`entries, this`loads
      ensures Valid() && loaded && loads == 1
      ensures !old(loaded) ==> entries == file
      ensures old(loaded) ==> entries == old(entries)
    {
      if !loaded {
        entries := file;
        loaded := true;
        loads := loads + 1;
      }
    }

    /** `loadSettings` */
    method LoadSettings() returns (settings: Settings)
      requires Valid()
      modifies this`loaded, this`entries, this`loads
      ensures Valid() && loaded
      ensures !old(loaded) ==> entries == file
      ensures old(loaded) ==> entries == old(entries)
      ensures settings == Loaded(entries)
    {
      GetStore();
      var stored := if SettingsKey in entries then entries[SettingsKey] else map[];
      settings := Spread(Defaults, stored);
    }

    /** `saveSettings`: the merged object is stored and the file saved; the
        caller gets the merged object itself. */
    method SaveSettings(partial: Settings) returns (next: Settings)
      requires Valid()
      modifies this
      ensures Valid() && loaded
      ensures var before := if old(loaded) then old(entries) else old(file);
        next == Saved(before, partial) &&
        entries == before[SettingsKey := Serialized(next)] && file == entries
    {
      GetStore();
      var current := if SettingsKey in entries then entries[SettingsKey] else map[];
      next := Spread(Spread(Defaults, current), partial);
      entries := entries[SettingsKey := Serialized(next)];
      file := entries;
    }

    /** `clearSettings`: the defaults are stored and the file saved. */
    method ClearSettings()
      requires Valid()
      modifies this
      ensures Valid() && loaded
      ensures var before := if old(loaded) then old(entries) else old(file);
        entries == before[SettingsKey := Defaults] && file == entries
    {
      GetStore();
      entries := entries[SettingsKey := Defaults];
      file := entries;
    }

    /** `removeStoreFile`: every entry is dropped and the empty store saved. */
    method RemoveStoreFile()
      requires Valid()
      modifies this
      ensures Valid() && loaded && entries == map[] && file == map[]
    {
      GetStore();
      entries := map[];
      file := entries;
    }
  }

  /** After `clearSettings`, `loadSettings` yields exactly the defaults. */
  method ClearThenLoad(s: Store) returns (settings: Settings)
    requires s.Valid()
    modifies s
    ensures settings == Defaults
    ensures s.Valid() && s.loads == 1
  {
    s.ClearSettings();
    settings := s.LoadSettings();
  }

  /** After `removeStoreFile`, `loadSettings` yields the defaults as well. */
  method RemoveThenLoad(s: Store) returns (settings: Settings)
    requires s.Valid()
    modifies s
    ensures settings == Defaults
  {
    s.RemoveStoreFile();
    settings := s.LoadSettings();
  }

  /** Loading twice reads the file once and returns the same object. */
  method LoadTwice(s: Store) returns (first: Settings, second: Settings)
    requires s.Valid()
    modifies s
    ensures first == second && s.loads == 1
    ensures !old(s.loaded) ==> first == Loaded(old(s.file))
  {
    first := s.LoadSettings();
    second := s.LoadSettings();
  }
}
