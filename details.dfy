/** The book details dialog (`src/components/DetailsDialog.tsx`): an edit form
    seeded from the book, the group field with its suggestions, the `dirty`
    test that enables Save, and the payload sent to `update_book`. */
module DetailsDialog {
  import opened Wrappers
  import opened Text
  import GroupLists

  /** The fields of `initial.book` the dialog reads; `None` is a missing or
      `null` value. */
  datatype BookInfo = BookInfo(
    volumeId: string, title: string, number: Option<int>, publisher: Option<string>,
    publishedDate: Option<string>, description: Option<string>, pageCount: Option<int>,
    language: Option<string>, groups: seq<string>)

  /** `initial`: the book and its author names. `ref` is the identity of
      the props object: React compares effect dependencies by reference, so
      two objects with equal contents still count as a change. */
  datatype Initial = Initial(book: BookInfo, authors: seq<string>, ref: nat)

  /** The `form` state. The numeric fields hold what `parseInt` produced, or
      the book's own value (`None` when it had none). */
  datatype Form = Form(
    title: string, number: Option<JsNumber>, publisher: string, publishedDate: string,
    description: string, pageCount: Option<JsNumber>, language: string,
    authors: string, groups: string)

  const ListSep := ", "

  function NumberOf(n: Option<int>): Option<JsNumber> {
    if n.Some? then Some(Int(n.value)) else None
  }

  /** The form as the dialog seeds it: missing texts become `""`, author
      names are trimmed, and both lists are joined with `", "`. */
  function FormOf(init: Initial): Form {
    Form(init.book.title, NumberOf(init.book.number), init.book.publisher.GetOr([]),
         init.book.publishedDate.GetOr([]), init.book.description.GetOr([]),
         NumberOf(init.book.pageCount), init.book.language.GetOr([]),
         Join(TrimAll(init.authors), ListSep), Join(init.book.groups, ListSep))
  }

  /** A list element that survives the comma-list idiom unchanged. */
  predicate CleanItem(s: string) {
    s != [] && IsTrimmed(s) && ',' !in s
  }

  predicate AllClean(xs: seq<string>) {
    forall k :: 0 <= k < |xs| ==> CleanItem(xs[k])
  }

  /** `currentGroups`: the groups the form's text lists. */
  function CurrentGroups(f: Form): (r: seq<string>)
    ensures AllClean(r)
  {
    Tokens(f.groups, ',')
  }

  /** `allKnownGroups`: the known groups, then the book's own, each once in
      order of first appearance. */
  function AllKnownGroups(known: seq<string>, own: seq<string>): (r: seq<string>)
    ensures Distinct(r)
    ensures forall g :: g in r <==> g in known || g in own
    ensures forall g :: g in known ==> g in r
  {
    Dedup(known + own)
  }

  /** `filteredGroupSuggestions` */
  function GroupSuggestions(known: seq<string>, init: Initial, f: Form, input: string): seq<string> {
    GroupLists.Suggestions(AllKnownGroups(known, init.book.groups), input, CurrentGroups(f))
  }

  /** The form after `handleGroupAdd(g)`: the group is appended unless it is
      already listed. An out-of-range suggestion index passes `undefined`,
      which `join` renders as the empty string; the model passes `""`. */
  function GroupAdd(f: Form, g: string): Form {
    if g in CurrentGroups(f) then f else f.(groups := Join(CurrentGroups(f) + [g], ListSep))
  }

  /** A list of clean items is read back from its `", "` join. */
  lemma ReadBack(xs: seq<string>)
    requires AllClean(xs)
    ensures Tokens(Join(xs, ListSep), ',') == xs
  {
    assert ListSep == [',', ' '];
    TokensOfJoin(xs, ',');
  }

  /** An `undefined` last element, rendered as nothing, is not read back. */
  lemma ReadBackEmptyLast(xs: seq<string>)
    requires AllClean(xs)
    ensures Tokens(Join(xs + [[]], ListSep), ',') == xs
  {
    assert ListSep == [',', ' '];
    TokensOfJoinEmptyLast(xs, ',');
  }

  lemma AllCleanSnoc(xs: seq<string>, g: string)
    requires AllClean(xs) && CleanItem(g)
    ensures AllClean(xs + [g])
  {
    var ys := xs + [g];
    forall k | 0 <= k < |ys| ensures CleanItem(ys[k]) {
      if k < |xs| { assert ys[k] == xs[k]; } else { assert ys[k] == g; }
    }
  }

  /** The value `handleGroupAdd` receives for an add choice. */
  function Added(c: GroupLists.Choice): string {
    if c.Add? then c.group else []
  }

  /** Adding a clean, new group appends exactly it; adding one already listed
      changes nothing. */
  lemma GroupAddAppends(f: Form, g: string)
    requires CleanItem(g)
    ensures CurrentGroups(GroupAdd(f, g)) ==
      if g in CurrentGroups(f) then CurrentGroups(f) else CurrentGroups(f) + [g]
  {
    var cur := CurrentGroups(f);
    if g !in cur {
      AllCleanSnoc(cur, g);
      ReadBack(cur + [g]);
    }
  }

  /** An `undefined` add rewrites the text but lists the same groups. */
  lemma UndefinedAddKeepsGroups(f: Form)
    ensures CurrentGroups(GroupAdd(f, [])) == CurrentGroups(f)
  {
    ReadBackEmptyLast(CurrentGroups(f));
  }

  /** Typed text is added as one group, as it was trimmed, but read back
      through the comma-list idiom: a comma in it yields two groups. */
  lemma TypedCommaAddsTwo(f: Form, a: string, b: string)
    requires CurrentGroups(f) == [] && CleanItem(a) && CleanItem(b)
    ensures CurrentGroups(GroupAdd(f, a + [','] + b)) == [a, b]
  {
    var g := a + [','] + b;
    assert CurrentGroups(f) + [g] == [g];
    assert Join([g], ListSep) == g;
    assert GroupAdd(f, g).groups == g;
    TokensCons(a, ',', b);
    TokensSingle(b, ',');
    assert Tokens(g, ',') == [a] + [b];
  }

  /** The form after `handleGroupRemove(g)`. */
  function GroupRemove(f: Form, g: string): Form {
    f.(groups := Join(Without(CurrentGroups(f), g), ListSep))
  }

  /** Removing a group drops every occurrence of it and keeps the others. */
  lemma GroupRemoveDrops(f: Form, g: string)
    ensures CurrentGroups(GroupRemove(f, g)) == Without(CurrentGroups(f), g)
    ensures g !in CurrentGroups(GroupRemove(f, g))
  {
    var rest := Without(CurrentGroups(f), g);
    forall k | 0 <= k < |rest| ensures CleanItem(rest[k]) {
      assert rest[k] in rest;
    }
    ReadBack(rest);
  }

  /** `form.number === initial.book.number`: `NaN` equals nothing. */
  predicate SameNumber(n: Option<JsNumber>, m: Option<int>) {
    match n
    case None => m.None?
    case Some(v) => v.Int? && m == Some(v.value)
  }

  /** The scalar fields as `dirty` compares them: texts after `|| ""`, the
      numbers with `===`. */
  predicate SameScalars(f: Form, b: BookInfo) {
    f.title == b.title &&
    SameNumber(f.number, b.number) &&
    f.publisher == b.publisher.GetOr([]) &&
    f.publishedDate == b.publishedDate.GetOr([]) &&
    f.description == b.description.GetOr([]) &&
    SameNumber(f.pageCount, b.pageCount) &&
    f.language == b.language.GetOr([])
  }

  /** The two lists as `dirty` compares them: element by element after the
      comma-list idiom, against the trimmed author names and the groups. */
  predicate SameLists(f: Form, init: Initial) {
    Tokens(f.authors, ',') == TrimAll(init.authors) && Tokens(f.groups, ',') == init.book.groups
  }

  /** Whether the form differs from the book: the `dirty` memo. */
  predicate Dirty(f: Form, init: Initial) {
    !(SameScalars(f, init.book) && SameLists(f, init))
  }

  lemma FreshScalars(init: Initial)
    ensures SameScalars(FormOf(init), init.book)
  {
  }

  /** A freshly seeded form is not dirty, as long as the book's author names
      and groups survive the comma-list idiom. */
  lemma FreshFormNotDirty(init: Initial)
    requires AllClean(TrimAll(init.authors)) && AllClean(init.book.groups)
    ensures !Dirty(FormOf(init), init)
  {
    FreshScalars(init);
    ReadBack(TrimAll(init.authors));
    ReadBack(init.book.groups);
    assert SameLists(FormOf(init), init);
  }

  /** An author name with a comma makes the form dirty as soon as it opens:
      the list reads back as two names. */
  lemma CommaInAuthorIsDirty()
    ensures var init := Initial(BookInfo([], [], None, None, None, None, None, None, []), ["Doe, J"], 0);
      Dirty(FormOf(init), init)
  {
    var init := Initial(BookInfo([], [], None, None, None, None, None, None, []), ["Doe, J"], 0);
    assert TrimAll(init.authors) == ["Doe, J"] by { assert IsTrimmed("Doe, J"); }
    assert FormOf(init).authors == "Doe, J";
    assert "Doe, J" == "Doe" + [','] + " J";
    TokensCons("Doe", ',', " J");
  }

  /** `value || null` */
  function OrNull(s: string): (r: Option<string>)
    ensures r.None? <==> s == []
    ensures r.Some? ==> r.value == s
  {
    if s == [] then None else Some(s)
  }

  /** The payload of `update_book`. */
  datatype UpdatePayload = UpdatePayload(
    volumeId: string, title: string, number: Option<JsNumber>, publisher: Option<string>,
    publishedDate: Option<string>, description: Option<string>, pageCount: Option<JsNumber>,
    language: Option<string>, authors: seq<string>, groups: seq<string>)

  /** The payload `onSave` sends: the texts as typed (the title untrimmed),
      empty texts as `null`, and both lists split into clean items. */
  function SavePayload(f: Form, volumeId: string): (p: UpdatePayload)
    ensures p.volumeId == volumeId && p.title == f.title && p.number == f.number && p.pageCount == f.pageCount
    ensures AllClean(p.authors) && AllClean(p.groups) && p.groups == CurrentGroups(f)
    ensures p.publisher == OrNull(f.publisher) && p.publishedDate == OrNull(f.publishedDate)
    ensures p.description == OrNull(f.description) && p.language == OrNull(f.language)
    ensures p.authors == Tokens(f.authors, ',')
  {
    UpdatePayload(volumeId, f.title, f.number, OrNull(f.publisher), OrNull(f.publishedDate),
                  OrNull(f.description), f.pageCount, OrNull(f.language),
                  Tokens(f.authors, ','), Tokens(f.groups, ','))
  }

  /** Saving an untouched form writes back the book's own lists. */
  lemma SaveUntouchedKeepsLists(init: Initial)
    requires AllClean(TrimAll(init.authors)) && AllClean(init.book.groups)
    ensures SavePayload(FormOf(init), init.book.volumeId).authors == TrimAll(init.authors)
    ensures SavePayload(FormOf(init), init.book.volumeId).groups == init.book.groups
  {
    ReadBack(TrimAll(init.authors));
    ReadBack(init.book.groups);
  }

  /** The Save button is enabled: edit mode, no save in flight, a change, and
      a non-blank title. */
  function SaveEnabled(editMode: bool, saving: bool, f: Form, init: Initial): (r: bool)
    ensures r <==> editMode && !saving && Dirty(f, init) && !AllSpace(f.title)
  {
    editMode && !saving && Dirty(f, init) && Trim(f.title) != []
  }

  /** What a window key does while the dialog is open. */
  datatype WindowAction = NoAction | Close | Save

  /** The window `keydown` listener: Escape closes, Ctrl/Cmd-S saves in edit
      mode. It is registered only while the dialog is open. */
  function WindowKey(open: bool, editMode: bool, key: string, ctrlOrMeta: bool): (r: WindowAction)
    ensures r == Save <==> open && editMode && ctrlOrMeta && (key == "s" || key == "S")
    ensures r == Close <==> open && key == "Escape"
  {
    if !open then NoAction
    else if key == "Escape" then Close
    else if ctrlOrMeta && Lower(key) == "s" then (if editMode then Save else NoAction)
    else NoAction
  }

  /** The shortcut does not consult the Save button's guard: it saves a
      blank title and an unchanged form alike. */
  lemma ShortcutIgnoresSaveGuard(init: Initial)
    requires AllClean(TrimAll(init.authors)) && AllClean(init.book.groups)
    ensures WindowKey(true, true, "s", true) == Save
    ensures !SaveEnabled(true, false, FormOf(init), init)
  {
    FreshFormNotDirty(init);
  }

  /** `handleGroupKeyDown` on the values it reads and writes: the form, the
      group input and the selected suggestion. */
  method GroupKeyStep(key: string, known: seq<string>, init: Initial, f: Form, input: string, selected: int)
    returns (f': Form, input': string, selected': int)
    ensures var r := GroupLists.GroupKey(key, GroupSuggestions(known, init, f, input), selected, input);
      if r.choice == GroupLists.NoAdd then
        f' == f && input' == input && selected' == r.selected
      else
        f' == GroupAdd(f, Added(r.choice)) && input' == [] && selected' == -1
  {
    var r := GroupLists.GroupKey(key, GroupSuggestions(known, init, f, input), selected, input);
    if r.choice == GroupLists.NoAdd {
      f', input', selected' := f, input, r.selected;
    } else {
      f', input', selected' := GroupAdd(f, Added(r.choice)), [], -1;
    }
  }

  /** The dialog's own state, with the props it reads. */
  class Dialog {
    var open: bool
    var editMode: bool
    var initial: Initial
    var knownGroups: seq<string>
    var form: Form
    var groupInput: string
    var groupSelectedIndex: int
    var saving: bool

    /** Mounted: the form seeded from the book, an empty group input and no
        selection. */
    constructor (open: bool, editMode: bool, initial: Initial, knownGroups: seq<string>)
      ensures this.open == open && this.editMode == editMode && this.initial == initial
      ensures this.knownGroups == knownGroups
      ensures form == FormOf(initial) && groupInput == [] && groupSelectedIndex == -1 && !saving
    {
      this.open := open;
      this.editMode := editMode;
      this.initial := initial;
      this.knownGroups := knownGroups;
      form := FormOf(initial);
      groupInput := [];
      groupSelectedIndex := -1;
      saving := false;
    }

    /** New `initial`/`editMode` props. The `[initial, editMode]` effect,
        which runs only when one of them changes (`initial` by reference),
        reseeds the form and clears the group input and selection. */
    method SetProps(newInitial: Initial, newEditMode: bool)
      modifies this`initial, this`editMode, this`form, this`groupInput, this`groupSelectedIndex
      ensures initial == newInitial && editMode == newEditMode
      ensures old(initial).ref != newInitial.ref || old(editMode) != newEditMode ==>
        form == FormOf(newInitial) && groupInput == [] && groupSelectedIndex == -1
      ensures old(initial).ref == newInitial.ref && old(editMode) == newEditMode ==>
        form == old(form) && groupInput == old(groupInput) && groupSelectedIndex == old(groupSelectedIndex)
    {
      if initial.ref != newInitial.ref || editMode != newEditMode {
        form := FormOf(newInitial);
        groupInput := [];
        groupSelectedIndex := -1;
      }
      initial, editMode := newInitial, newEditMode;
    }

    /** A text field's `onChange`. The editable fields and the group
        controls exist only while the dialog is open and in edit mode, so
        this and the handlers below require both. */
    method EditText(field: TextField, v: string)
      requires open && editMode
      modifies this`form
      ensures form == SetText(old(form), field, v)
    {
      form := SetText(form, field, v);
    }

    /** A number field's `onChange`: an empty input is ignored, anything else
        goes through `parseInt(v, 10)`. */
    method EditNumber(pages: bool, v: string)
      requires open && editMode
      modifies this`form
      ensures v == [] ==> form == old(form)
      ensures v != [] && !pages ==> form == old(form).(number := Some(ParseInt(v)))
      ensures v != [] && pages ==> form == old(form).(pageCount := Some(ParseInt(v)))
    {
      if v != [] {
        var value := ParseInt(v);
        if pages {
          form := form.(pageCount := Some(value));
        } else {
          form := form.(number := Some(value));
        }
      }
    }

    /** The group input's `onChange`, with the `[groupInput]` effect, which
        clears the selection when the text changes. */
    method SetGroupInput(v: string)
      requires open && editMode
      modifies this`groupInput, this`groupSelectedIndex
      ensures groupInput == v
      ensures groupSelectedIndex == if v != old(groupInput) then -1 else old(groupSelectedIndex)
    {
      if v != groupInput {
        groupSelectedIndex := -1;
      }
      groupInput := v;
    }

    /** `handleGroupAdd` */
    method HandleGroupAdd(g: string)
      requires open && editMode
      modifies this`form, this`groupInput, this`groupSelectedIndex
      ensures form == GroupAdd(old(form), g) && groupInput == [] && groupSelectedIndex == -1
    {
      form := GroupAdd(form, g);
      groupInput := [];
      groupSelectedIndex := -1;
    }

    /** `handleGroupRemove`: the input and the selection stay as they are. */
    method HandleGroupRemove(g: string)
      requires open && editMode
      modifies this`form
      ensures form == GroupRemove(old(form), g)
    {
      form := GroupRemove(form, g);
    }

    /** `handleGroupKeyDown`: the arrows move the selection among the
        suggestions, Enter adds the selected suggestion or the trimmed input. */
    method HandleGroupKeyDown(key: string)
      requires open && editMode
      modifies this`form, this`groupInput, this`groupSelectedIndex
      ensures var r := GroupLists.GroupKey(key, GroupSuggestions(old(knownGroups), old(initial), old(form), old(groupInput)),
                                           old(groupSelectedIndex), old(groupInput));
        if r.choice == GroupLists.NoAdd then
          form == old(form) && groupInput == old(groupInput) && groupSelectedIndex == r.selected
        else
          form == GroupAdd(old(form), Added(r.choice)) && groupInput == [] && groupSelectedIndex == -1
    {
      form, groupInput, groupSelectedIndex := GroupKeyStep(key, knownGroups, initial, form, groupInput, groupSelectedIndex);
    }

    /** The Save button: when enabled, `onSave` sets `saving` and sends the
        payload. */
    method ClickSave() returns (payload: Option<UpdatePayload>)
      modifies this`saving
      ensures old(SaveEnabled(editMode, saving, form, initial)) ==>
        saving && payload == Some(SavePayload(form, initial.book.volumeId))
      ensures !old(SaveEnabled(editMode, saving, form, initial)) ==> saving == old(saving) && payload == None
    {
      if !SaveEnabled(editMode, saving, form, initial) {
        return None;
      }
      saving := true;
      payload := Some(SavePayload(form, initial.book.volumeId));
    }

    /** A window key: Escape asks to close, the save shortcut calls `onSave`
        without the button's guard. */
    method WindowKeyDown(key: string, ctrlOrMeta: bool) returns (close: bool, payload: Option<UpdatePayload>)
      modifies this`saving
      ensures close <==> WindowKey(open, editMode, key, ctrlOrMeta) == Close
      ensures WindowKey(open, editMode, key, ctrlOrMeta) == Save ==>
        saving && payload == Some(SavePayload(form, initial.book.volumeId))
      ensures WindowKey(open, editMode, key, ctrlOrMeta) != Save ==> saving == old(saving) && payload == None
    {
      close := false;
      payload := None;
      match WindowKey(open, editMode, key, ctrlOrMeta) {
        case NoAction =>
        case Close => close := true;
        case Save =>
          saving := true;
          payload := Some(SavePayload(form, initial.book.volumeId));
      }
    }

    /** `update_book` settled: on success the dialog asks to be closed; a
        failure is not caught here. `saving` is reset either way. */
    method FinishSave(outcome: Outcome<()>) returns (close: bool)
      modifies this`saving
      ensures close <==> outcome.Resolved?
      ensures !saving
    {
      close := outcome.Resolved?;
      saving := false;
    }
  }

  /** The text fields of the form. */
  datatype TextField = Title | Publisher | PublishedDate | Description | Language | Authors

  function SetText(f: Form, field: TextField, v: string): Form {
    match field
    case Title => f.(title := v)
    case Publisher => f.(publisher := v)
    case PublishedDate => f.(publishedDate := v)
    case Description => f.(description := v)
    case Language => f.(language := v)
    case Authors => f.(authors := v)
  }

  /** Editing the title of a fresh form to another value makes it dirty, and
      editing it back makes it clean again. */
  lemma TitleEditDirty(init: Initial, v: string)
    requires AllClean(TrimAll(init.authors)) && AllClean(init.book.groups)
    ensures Dirty(SetText(FormOf(init), Title, v), init) <==> v != init.book.title
  {
    FreshFormNotDirty(init);
  }
}
