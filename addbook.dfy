/** The manual "Add Book" dialog (`src/components/AddBookDialog.tsx`): four
    text inputs, a submit guarded by `canSubmit`, and the payload handed to
    `onSubmit`. The `await` of `onSubmit` splits a submit in two steps: the
    synchronous part up to the call, and its settling. */
module AddBookDialog {
  import opened Wrappers
  import opened Text

  /** `AddBookPayload`: a missing optional field is `None`. */
  datatype Payload = Payload(title: string, authors: seq<string>, publisher: Option<string>, year: Option<string>)

  /** `title.trim().length > 0 && !submitting` */
  function CanSubmit(title: string, submitting: bool): (r: bool)
    ensures r <==> !submitting && exists i :: 0 <= i < |title| && !IsSpace(title[i])
  {
    |Trim(title)| > 0 && !submitting
  }

  /** `s.trim() || undefined`: a blank field is left out. */
  function OrUndefined(s: string): (r: Option<string>)
    ensures r.None? <==> AllSpace(s)
    ensures r.Some? ==> r.value == Trim(s) && r.value != [] && IsTrimmed(r.value)
  {
    if Trim(s) != [] then Some(Trim(s)) else None
  }

  /** The payload `handleSubmit` builds from the four inputs. */
  function BuildPayload(title: string, authors: string, publisher: string, year: string): (p: Payload)
    ensures p.title == Trim(title) && (p.title == [] <==> AllSpace(title))
    ensures p.authors == Tokens(authors, ',')
    ensures forall k :: 0 <= k < |p.authors| ==> p.authors[k] != [] && IsTrimmed(p.authors[k]) && ',' !in p.authors[k]
    ensures AllSpace(authors) ==> p.authors == []
    ensures p.publisher == OrUndefined(publisher) && p.year == OrUndefined(year)
  {
    TokensBlank(authors, ',');
    Payload(Trim(title), Tokens(authors, ','), OrUndefined(publisher), OrUndefined(year))
  }

  /** Names typed as a comma-and-space separated list come back exactly. */
  lemma AuthorsRoundTrip(names: seq<string>, title: string, publisher: string, year: string)
    requires forall k :: 0 <= k < |names| ==> names[k] != [] && IsTrimmed(names[k]) && ',' !in names[k]
    ensures BuildPayload(title, Join(names, ", "), publisher, year).authors == names
  {
    assert ", " == [',', ' '];
    TokensOfJoin(names, ',');
  }

  /** The inputs of the dialog. */
  datatype Field = TitleField | AuthorsField | PublisherField | YearField

  class Dialog {
    var open: bool
    var title: string
    var authors: string
    var publisher: string
    var year: string
    var submitting: bool

    /** Mounted with empty inputs; the `[open]` effect's first run only
        resets `submitting`. */
    constructor (open: bool)
      ensures this.open == open && !submitting
      ensures title == [] && authors == [] && publisher == [] && year == []
    {
      this.open := open;
      title, authors, publisher, year := [], [], [], [];
      submitting := false;
    }

    /** A new value of the `open` prop. The `[open]` effect runs only when it
        changes: closing clears the inputs, opening only moves the focus, and
        either way `submitting` is reset. */
    method SetOpen(nowOpen: bool)
      modifies this
      ensures open == nowOpen
      ensures old(open) == nowOpen ==>
        title == old(title) && authors == old(authors) && publisher == old(publisher) &&
        year == old(year) && submitting == old(submitting)
      ensures old(open) != nowOpen ==> !submitting
      ensures old(open) && !nowOpen ==> title == [] && authors == [] && publisher == [] && year == []
      ensures !old(open) && nowOpen ==>
        title == old(title) && authors == old(authors) && publisher == old(publisher) && year == old(year)
    {
      if open != nowOpen {
        if !nowOpen {
          title, authors, publisher, year := [], [], [], [];
        }
        submitting := false;
      }
      open := nowOpen;
    }

    /** An input's `onChange`; the inputs are rendered only while open. */
    method Type(field: Field, value: string)
      requires open
      modifies this
      ensures title == (if field == TitleField then value else old(title))
      ensures authors == (if field == AuthorsField then value else old(authors))
      ensures publisher == (if field == PublisherField then value else old(publisher))
      ensures year == (if field == YearField then value else old(year))
      ensures open == old(open) && submitting == old(submitting)
    {
      match field
      case TitleField => title := value;
      case AuthorsField => authors := value;
      case PublisherField => publisher := value;
      case YearField => year := value;
    }

    /** `handleSubmit` up to `onSubmit`: nothing happens unless `canSubmit`;
        otherwise `submitting` is set and the payload is handed over. The
        button is rendered only while open. */
    method BeginSubmit() returns (payload: Option<Payload>)
      requires open
      modifies this
      ensures title == old(title) && authors == old(authors) && publisher == old(publisher)
      ensures year == old(year) && open == old(open)
      ensures old(CanSubmit(title, submitting)) ==>
        submitting && payload == Some(BuildPayload(title, authors, publisher, year))
      ensures !old(CanSubmit(title, submitting)) ==> submitting == old(submitting) && payload == None
    {
      if !CanSubmit(title, submitting) {
        return None;
      }
      submitting := true;
      payload := Some(BuildPayload(title, authors, publisher, year));
    }

    /** `onSubmit` settled: on success the dialog asks to be closed, on
        failure the error is only logged; `submitting` is reset either way. */
    method FinishSubmit(outcome: Outcome<()>) returns (close: bool)
      modifies this
      ensures close <==> outcome.Resolved?
      ensures !submitting
      ensures title == old(title) && authors == old(authors) && publisher == old(publisher)
      ensures year == old(year) && open == old(open)
    {
      close := outcome.Resolved?;
      submitting := false;
    }
  }

  /** A second click while the first submit is in flight sends nothing. */
  method DoubleClick(d: Dialog) returns (first: Option<Payload>, second: Option<Payload>)
    requires d.open
    modifies d
    ensures second == None
    ensures first.Some? <==> old(CanSubmit(d.title, d.submitting))
  {
    first := d.BeginSubmit();
    second := d.BeginSubmit();
  }

  /** A successful submit followed by the parent closing the dialog leaves it
      with empty inputs, ready for the next book. */
  method SubmitAndClose(d: Dialog) returns (payload: Option<Payload>)
    requires d.open && CanSubmit(d.title, d.submitting)
    modifies d
    ensures payload.Some? && payload.value.title != []
    ensures !d.open && !d.submitting
    ensures d.title == [] && d.authors == [] && d.publisher == [] && d.year == []
  {
    payload := d.BeginSubmit();
    var close := d.FinishSubmit(Resolved(()));
    if close {
      d.SetOpen(false);
    }
  }
}
