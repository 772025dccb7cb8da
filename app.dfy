/** The application shell (`src/App.tsx`): the colour theme and its cycle,
    the dark-class rule, the edit-mode and add-dialog toggles, and the
    handlers that clear state once a backend command has succeeded. */
module App {
  import opened Wrappers
  import AddBookDialog
  import SettingsStore

  const Light := "light"
  const Dark := "dark"
  const System := "system"

  /** One of the three themes the cycle knows. */
  predicate KnownTheme(t: string) {
    t == Light || t == Dark || t == System
  }

  /** `(localStorage.getItem("theme") as Theme) || "system"`: whatever was
      saved, unless nothing or the empty string was. The saved text is not
      checked against the three themes. */
  function InitialTheme(saved: Option<string>): (t: string)
    ensures saved.Some? && saved.value != [] ==> t == saved.value
    ensures saved.None? || saved.value == [] ==> t == System
    ensures t != []
  {
    if saved.Some? && saved.value != [] then saved.value else System
  }

  /** `cycleTheme`'s updater. */
  function CycleTheme(t: string): (r: string)
    ensures KnownTheme(r) && r != t
  {
    if t == Light then Dark else if t == Dark then System else Light
  }

  /** light, dark and system follow one another; anything else enters the
      cycle at light. */
  lemma CycleOrder(t: string)
    ensures CycleTheme(Light) == Dark && CycleTheme(Dark) == System && CycleTheme(System) == Light
    ensures !KnownTheme(t) ==> CycleTheme(t) == Light
  {
  }

  /** Three presses come back to the start exactly for the three known
      themes. */
  lemma CycleThree(t: string)
    ensures CycleTheme(CycleTheme(CycleTheme(t))) == t <==> KnownTheme(t)
  {
    if !KnownTheme(t) {
      assert CycleTheme(t) == Light;
      assert CycleTheme(CycleTheme(CycleTheme(t))) == System;
    }
  }

  /** `applyTheme`'s decision: whether the root element carries `dark`. */
  function DarkClass(t: string, prefersDark: bool): (r: bool)
    ensures r <==> t == Dark || (t == System && prefersDark)
  {
    if t == System then prefersDark else t == Dark
  }

  /** The icon on the theme button. */
  datatype Icon = Sun | Moon | Monitor

  /** `getThemeIcon` */
  function ThemeIcon(t: string): (r: Icon)
    ensures r == Sun <==> t == Light
    ensures r == Moon <==> t == Dark
  {
    if t == Light then Sun else if t == Dark then Moon else Monitor
  }

  /** Under a system theme the icon is the monitor whatever the OS prefers,
      while the dark class follows the OS. */
  lemma SystemIconIgnoresPreference(prefersDark: bool)
    ensures ThemeIcon(System) == Monitor
    ensures DarkClass(System, prefersDark) == prefersDark
  {
  }

  /** JavaScript truthiness of a settings entry. */
  function Truthy(settings: SettingsStore.Settings, key: string): (r: bool)
    ensures r <==> (key in settings &&
                    (settings[key] == SettingsStore.Bool(true) || (settings[key].Text? && settings[key].s != [])))
  {
    key in settings &&
    match settings[key]
    case Bool(b) => b
    case Text(s) => s != []
    case Undefined => false
  }

  /** With nothing saved, both the success and the error sound play. */
  lemma SoundsOnByDefault(entries: map<string, SettingsStore.Settings>)
    requires SettingsStore.SettingsKey !in entries
    ensures Truthy(SettingsStore.Loaded(entries), SettingsStore.SuccessSound)
    ensures Truthy(SettingsStore.Loaded(entries), SettingsStore.ErrorSound)
  {
    SettingsStore.LoadEmpty(entries);
  }

  /** After `saveSettings(partial)`, a sound plays exactly when the saved
      value is `true` or a non-empty text: a saved `false` or `""` silences it. */
  lemma SavedSoundSettingHonoured(entries: map<string, SettingsStore.Settings>,
                                  partial: SettingsStore.Settings, key: string)
    requires key in partial && partial[key] != SettingsStore.Undefined
    ensures var loaded := SettingsStore.Loaded(entries[SettingsStore.SettingsKey :=
      SettingsStore.Serialized(SettingsStore.Saved(entries, partial))]);
      Truthy(loaded, key) <==>
        partial[key] == SettingsStore.Bool(true) || (partial[key].Text? && partial[key].s != [])
  {
    SettingsStore.SaveThenLoad(entries, partial);
  }

  /** What `possible-comic-found` carries and `BookNumberDialog` shows. */
  datatype Book = Book(volumeId: string, title: string)

  /** The arguments of `add_book`: the dialog's payload and `isbn`. */
  datatype AddBookArgs = AddBookArgs(payload: AddBookDialog.Payload, isbn: string)

  /** The arguments of `set_book_number`. */
  datatype SetNumberArgs = SetNumberArgs(volumeId: string, number: int)

  class Shell {
    var theme: string
    /** The theme last written to `localStorage`. */
    var savedTheme: string
    /** Whether the root element carries the `dark` class. */
    var dark: bool
    var editMode: bool
    var addOpen: bool
    var unknownISBN: string
    var bookWithoutNumber: Option<Book>

    /** Mounted: the initial theme, written back and applied by the `[theme]`
        effect's first run. */
    constructor (saved: Option<string>, prefersDark: bool)
      ensures theme == InitialTheme(saved) && savedTheme == theme && dark == DarkClass(theme, prefersDark)
      ensures !editMode && !addOpen && unknownISBN == [] && bookWithoutNumber == None
    {
      var t := InitialTheme(saved);
      theme, savedTheme, dark := t, t, DarkClass(t, prefersDark);
      editMode, addOpen := false, false;
      unknownISBN := [];
      bookWithoutNumber := None;
    }

    /** The theme button, and the `[theme]` effect, which runs because the
        cycle always changes the theme. */
    method CycleThemeButton(prefersDark: bool)
      modifies this`theme, this`savedTheme, this`dark
      ensures theme == CycleTheme(old(theme)) && KnownTheme(theme) && theme != old(theme)
      ensures savedTheme == theme && dark == DarkClass(theme, prefersDark)
    {
      theme := CycleTheme(theme);
      savedTheme := theme;
      dark := DarkClass(theme, prefersDark);
    }

    /** `toggleEditMode` */
    method ToggleEditMode()
      modifies this`editMode
      ensures editMode == !old(editMode)
    {
      editMode := !editMode;
    }

    /** `openAddDialog` flips the dialog, so a second press closes it. */
    method OpenAddDialog()
      modifies this`addOpen
      ensures addOpen == !old(addOpen)
    {
      addOpen := !addOpen;
    }

    /** The dialog's `onClose`. */
    method CloseAddDialog()
      modifies this`addOpen
      ensures !addOpen
    {
      addOpen := false;
    }

    /** The "Add" action of an error toast: it records the identifier the
        scan failed on and calls `openAddDialog`, so it closes a dialog that
        is already open. */
    method ErrorToastAdd(isbn: string)
      modifies this`unknownISBN, this`addOpen
      ensures unknownISBN == isbn && addOpen == !old(addOpen)
    {
      unknownISBN := isbn;
      OpenAddDialog();
    }

    /** `possible-comic-found` */
    method PossibleComicFound(book: Book)
      modifies this`bookWithoutNumber
      ensures bookWithoutNumber == Some(book)
    {
      bookWithoutNumber := Some(book);
    }

    /** `BookNumberDialog`'s `onClose`. */
    method CloseBookNumber()
      modifies this`bookWithoutNumber
      ensures bookWithoutNumber == None
    {
      bookWithoutNumber := None;
    }

    /** `handleAddBook`: `add_book` gets the payload and the recorded
        identifier; only its success clears the identifier, and a failure
        propagates to the dialog. */
    method HandleAddBook(payload: AddBookDialog.Payload, outcome: Outcome<string>)
      returns (args: AddBookArgs, failed: bool)
      modifies this`unknownISBN
      ensures args == AddBookArgs(payload, old(unknownISBN))
      ensures failed <==> outcome.Rejected?
      ensures unknownISBN == if outcome.Resolved? then [] else old(unknownISBN)
    {
      args := AddBookArgs(payload, unknownISBN);
      failed := outcome.Rejected?;
      if outcome.Resolved? {
        unknownISBN := [];
      }
    }

    /** `handleSetBookNumber`: only a successful `set_book_number` closes the
        number dialog. */
    method HandleSetBookNumber(volumeId: string, number: int, outcome: Outcome<()>)
      returns (args: SetNumberArgs, failed: bool)
      modifies this`bookWithoutNumber
      ensures args == SetNumberArgs(volumeId, number)
      ensures failed <==> outcome.Rejected?
      ensures bookWithoutNumber == if outcome.Resolved? then None else old(bookWithoutNumber)
    {
      args := SetNumberArgs(volumeId, number);
      failed := outcome.Rejected?;
      if outcome.Resolved? {
        bookWithoutNumber := None;
      }
    }
  }

  /** Three presses of the theme button restore a known theme and the dark
      class that goes with it. */
  method CycleThemeThrice(s: Shell, prefersDark: bool)
    requires KnownTheme(s.theme) && s.dark == DarkClass(s.theme, prefersDark)
    modifies s
    ensures s.theme == old(s.theme) && s.dark == old(s.dark)
  {
    s.CycleThemeButton(prefersDark);
    s.CycleThemeButton(prefersDark);
    s.CycleThemeButton(prefersDark);
    CycleThree(old(s.theme));
  }

  /** A failed add keeps the identifier for a retry; a retry that succeeds
      sends the same identifier and then clears it. */
  method RetryAfterFailure(s: Shell, payload: AddBookDialog.Payload, error: string) returns (first: AddBookArgs, second: AddBookArgs)
    modifies s
    ensures first.isbn == second.isbn == old(s.unknownISBN)
    ensures s.unknownISBN == []
  {
    var failed;
    first, failed := s.HandleAddBook(payload, Rejected(error));
    second, failed := s.HandleAddBook(payload, Resolved("saved"));
  }
}
