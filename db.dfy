/** The catalogue database (`src-tauri/src/db.rs`): the rules `insert_book`
    follows when it writes a new book, and the layout of the CSV export. The
    tables are in-memory values; the SQL text, the engine and the join queries
    are not modelled. A relation keyed by `(volume_id, author_id)` is held as a
    map from volume to a map keyed by author name, which is the same thing
    because author names are unique. */
module Database {
  import opened Wrappers
  import opened Text
  import BackendUtils
  import Utils

  // ---------------------------------------------------------------------------
  // Rows

  /** `BookRow`: the columns of `books` that the export reads. */
  datatype BookRow = BookRow(
    volumeId: string, title: string, number: Option<int>,
    publisher: Option<string>, publishedDate: Option<string>, description: Option<string>,
    pageCount: Option<int>, printType: Option<string>, maturityRating: Option<string>,
    language: Option<string>, previewLink: Option<string>, infoLink: Option<string>,
    canonicalLink: Option<string>, smallThumbnail: Option<string>, thumbnail: Option<string>,
    country: Option<string>, saleability: Option<string>, isEbook: Option<int>,
    viewability: Option<string>, embeddable: Option<int>, publicDomain: Option<int>,
    textToSpeechPermission: Option<string>, epubAvailable: Option<int>, pdfAvailable: Option<int>,
    webReaderLink: Option<string>, accessViewStatus: Option<string>, quoteSharingAllowed: Option<int>)

  /** A row of `book_identifiers`. */
  datatype IdentifierRow = IdentifierRow(volumeId: string, kind: string, identifier: string)

  /** The row `insert_book` writes to `books`: five bound values, the rest NULL. */
  function NewBookRow(volumeId: string, title: string, number: Option<int>,
                      publisher: Option<string>, year: Option<string>): BookRow {
    BookRow(volumeId, title, number, publisher, year, None, None, None, None, None, None, None,
            None, None, None, None, None, None, None, None, None, None, None, None, None, None, None)
  }

  function VolumeIds(books: seq<BookRow>): set<string> {
    set b | b in books :: b.volumeId
  }

  /** Database errors, standing for the messages SQLite and `anyhow` produce. */
  const DuplicateVolumeId := "UNIQUE constraint failed: books.volume_id"
  const DuplicateIdentifier := "UNIQUE constraint failed: book_identifiers.type, book_identifiers.identifier"
  const DuplicateGroupLink := "UNIQUE constraint failed: book_groups.volume_id, book_groups.group_id"

  // ---------------------------------------------------------------------------
  // insert_book rules

  /** `identifier.filter(|s| !s.is_empty())`: the identifier that gets a row. */
  function StoredIdentifier(identifier: Option<string>): (r: Option<string>)
    ensures r.Some? <==> identifier.Some? && identifier.value != []
    ensures r.Some? ==> r.value == identifier.value
  {
    if identifier.Some? && identifier.value != [] then identifier else None
  }

  /** The positions `book_authors` ends up with: each upsert overwrites the
      last, so a name keeps the index of its last occurrence. */
  function AuthorPositions(authors: seq<string>): (p: map<string, int>)
    ensures p.Keys == set a | a in authors
  {
    if authors == [] then map[]
    else AuthorPositions(authors[..|authors| - 1])[authors[|authors| - 1] := |authors| - 1]
  }

  /** Each name's position is the index of its last occurrence. */
  lemma {:induction false} PositionIsLastIndex(authors: seq<string>, a: string)
    requires a in authors
    ensures var p := AuthorPositions(authors)[a];
      0 <= p < |authors| && authors[p] == a && a !in authors[p + 1..]
  {
    var n := |authors|;
    var front := authors[..n - 1];
    assert AuthorPositions(authors) == AuthorPositions(front)[authors[n - 1] := n - 1];
    if authors[n - 1] != a {
      assert a in front by {
        var j :| 0 <= j < n && authors[j] == a;
        assert front[j] == a;
      }
      PositionIsLastIndex(front, a);
      var p := AuthorPositions(front)[a];
      assert AuthorPositions(authors)[a] == p;
      assert authors[p] == front[p];
      assert authors[p + 1..] == front[p + 1..] + [authors[n - 1]];
    } else {
      assert authors[n..] == [];
    }
  }

  /** Distinct authors get positions `0..n-1` in input order. */
  lemma DistinctAuthorPositions(authors: seq<string>)
    requires Distinct(authors)
    ensures forall i :: 0 <= i < |authors| ==> AuthorPositions(authors)[authors[i]] == i
  {
    forall i | 0 <= i < |authors| ensures AuthorPositions(authors)[authors[i]] == i {
      PositionIsLastIndex(authors, authors[i]);
    }
  }

  /** A repeated author keeps only its last position. */
  lemma RepeatedAuthorTakesLastPosition()
    ensures AuthorPositions(["A", "B", "A"]) == map["A" := 2, "B" := 1]
  {
    assert ["A", "B", "A"][..2] == ["A", "B"];
    assert ["A", "B"][..1] == ["A"];
    assert ["A"][..0] == [];
  }

  /** The `book_groups` rows for a volume, one per listed group. */
  function GroupLinks(volumeId: string, groups: seq<string>): (r: seq<(string, string)>)
    ensures |r| == |groups|
    ensures forall i :: 0 <= i < |r| ==> r[i] == (volumeId, groups[i])
  {
    if groups == [] then [] else GroupLinks(volumeId, groups[..|groups| - 1]) + [(volumeId, groups[|groups| - 1])]
  }

  /** The author loop of `insert_book`: one upsert of the name and of the
      link per position. */
  method LinkAuthors(authors: seq<string>) returns (positions: map<string, int>, names: set<string>)
    ensures positions == AuthorPositions(authors)
    ensures names == set a | a in authors
  {
    positions := map[];
    names := {};
    for pos := 0 to |authors|
      invariant positions == AuthorPositions(authors[..pos])
      invariant names == set a | a in authors[..pos]
    {
      assert authors[..pos + 1][..pos] == authors[..pos];
      names := names + {authors[pos]};
      positions := positions[authors[pos] := pos];
    }
    assert authors[..|authors|] == authors;
  }

  /** The group loop of `insert_book`: the names inserted when new, and one
      link row per listed group. A group listed twice makes its second link
      row clash with the first on `(volume_id, group_id)`, which aborts the
      loop; rows of other volumes cannot clash, the volume being new. */
  method LinkGroups(volumeId: string, groups: seq<string>)
    returns (names: set<string>, links: seq<(string, string)>, duplicate: bool)
    ensures duplicate <==> !Distinct(groups)
    ensures !duplicate ==> names == (set g | g in groups) && links == GroupLinks(volumeId, groups)
  {
    names := {};
    links := [];
    for i := 0 to |groups|
      invariant names == set g | g in groups[..i]
      invariant links == GroupLinks(volumeId, groups[..i])
      invariant Distinct(groups[..i])
    {
      assert groups[..i + 1][..i] == groups[..i];
      if (volumeId, groups[i]) in links {
        var k :| 0 <= k < |links| && links[k] == (volumeId, groups[i]);
        assert groups[k] == groups[i] && k < i;
        return names, links, true;
      }
      forall k | 0 <= k < i ensures groups[k] != groups[i] {
        assert links[k] == (volumeId, groups[k]);
      }
      names := names + {groups[i]};
      links := links + [(volumeId, groups[i])];
    }
    assert groups[..|groups|] == groups;
    duplicate := false;
  }

  /** The custom-field loop of `insert_book`, visiting the keys in an
      arbitrary order as a `HashMap` does: every name is inserted when new and
      every value is linked, whatever the order. */
  method LinkCustomFields(customFields: map<string, string>) returns (values: map<string, string>, names: set<string>)
    ensures values == customFields
    ensures names == customFields.Keys
  {
    values := map[];
    names := {};
    var remaining := customFields.Keys;
    while remaining != {}
      invariant remaining <= customFields.Keys
      invariant names == customFields.Keys - remaining
      invariant values == map k | k in names :: customFields[k]
      decreases |remaining|
    {
      var k :| k in remaining;
      names := names + {k};
      values := values[k := customFields[k]];
      remaining := remaining - {k};
    }
  }

  /** The tables `insert_book` writes, as values. */
  datatype Tables = Tables(
    books: seq<BookRow>,
    authorNames: set<string>,
    bookAuthors: map<string, map<string, int>>,
    groupNames: set<string>,
    bookGroups: seq<(string, string)>,
    identifiers: seq<IdentifierRow>,
    customFieldNames: set<string>,
    bookCustomFields: map<string, map<string, string>>)

  /** The arguments of `insert_book` besides the pool. */
  datatype NewBook = NewBook(
    title: string, number: Option<int>, authors: seq<string>, groups: seq<string>,
    publisher: Option<string>, year: Option<string>, identifier: Option<string>,
    customFields: map<string, string>)

  /** `volume_id TEXT PRIMARY KEY`. */
  predicate UniqueVolumes(books: seq<BookRow>) {
    forall i, j :: 0 <= i < j < |books| ==> books[i].volumeId != books[j].volumeId
  }

  /** `UNIQUE (type, identifier)`. */
  predicate UniqueIdentifiers(ids: seq<IdentifierRow>) {
    forall i, j :: 0 <= i < j < |ids| ==> (ids[i].kind, ids[i].identifier) != (ids[j].kind, ids[j].identifier)
  }

  /** The foreign keys of the link tables. */
  predicate References(t: Tables) {
    t.bookAuthors.Keys <= VolumeIds(t.books) &&
    (forall v :: v in t.bookAuthors ==> t.bookAuthors[v].Keys <= t.authorNames) &&
    (forall k :: 0 <= k < |t.bookGroups| ==> t.bookGroups[k].0 in VolumeIds(t.books) && t.bookGroups[k].1 in t.groupNames) &&
    (forall k :: 0 <= k < |t.identifiers| ==> t.identifiers[k].volumeId in VolumeIds(t.books)) &&
    t.bookCustomFields.Keys <= VolumeIds(t.books) &&
    (forall v :: v in t.bookCustomFields ==> t.bookCustomFields[v].Keys <= t.customFieldNames)
  }

  /** The keys and references the schema enforces; `Distinct(t.bookGroups)`
      is the key `(volume_id, group_id)` of `book_groups`. */
  predicate Consistent(t: Tables) {
    UniqueVolumes(t.books) && UniqueIdentifiers(t.identifiers) && Distinct(t.bookGroups) && References(t)
  }

  /** Whether `book_identifiers` already has this `(type, identifier)`. */
  predicate HasIdentifier(t: Tables, kind: string, identifier: string) {
    exists k :: 0 <= k < |t.identifiers| && t.identifiers[k].kind == kind && t.identifiers[k].identifier == identifier
  }

  /** The `book_identifiers` row `insert_book` writes, if any. */
  function IdentifierRows(volumeId: string, identifier: Option<string>): (r: seq<IdentifierRow>)
    ensures |r| <= 1
    ensures r != [] <==> StoredIdentifier(identifier).Some? && BackendUtils.GetIdentifierType(identifier.value).Ok?
    ensures r != [] ==> r[0].volumeId == volumeId && r[0].identifier == identifier.value
  {
    var stored := StoredIdentifier(identifier);
    if stored.Some? && BackendUtils.GetIdentifierType(stored.value).Ok?
    then [IdentifierRow(volumeId, BackendUtils.GetIdentifierType(stored.value).value.Tag(), stored.value)]
    else []
  }

  /** The error `insert_book` returns, in the order its statements run: the
      primary key of `books`, then the key of `book_groups`, then the
      identifier's length, then the `UNIQUE (type, identifier)` constraint. */
  function InsertError(t: Tables, volumeId: string, nb: NewBook): (r: Option<string>)
    ensures volumeId in VolumeIds(t.books) ==> r == Some(DuplicateVolumeId)
    ensures volumeId !in VolumeIds(t.books) && !Distinct(nb.groups) ==> r == Some(DuplicateGroupLink)
    ensures r.None? ==> volumeId !in VolumeIds(t.books) && Distinct(nb.groups)
    ensures nb.identifier.None? || nb.identifier == Some([]) ==>
      (r.None? <==> volumeId !in VolumeIds(t.books) && Distinct(nb.groups))
  {
    if volumeId in VolumeIds(t.books) then Some(DuplicateVolumeId)
    else if !Distinct(nb.groups) then Some(DuplicateGroupLink)
    else
      var stored := StoredIdentifier(nb.identifier);
      if stored.None? then None
      else match BackendUtils.GetIdentifierType(stored.value)
        case Err(message) => Some(message)
        case Ok(kind) => if HasIdentifier(t, kind.Tag(), stored.value) then Some(DuplicateIdentifier) else None
  }

  /** The tables after a committed `insert_book` of `nb` under `volumeId`. */
  function Inserted(t: Tables, volumeId: string, nb: NewBook): Tables {
    Tables(
      t.books + [NewBookRow(volumeId, nb.title, nb.number, nb.publisher, nb.year)],
      t.authorNames + (set a | a in nb.authors),
      if nb.authors == [] then t.bookAuthors else t.bookAuthors[volumeId := AuthorPositions(nb.authors)],
      t.groupNames + (set g | g in nb.groups),
      t.bookGroups + GroupLinks(volumeId, nb.groups),
      t.identifiers + IdentifierRows(volumeId, nb.identifier),
      t.customFieldNames + nb.customFields.Keys,
      if nb.customFields == map[] then t.bookCustomFields else t.bookCustomFields[volumeId := nb.customFields])
  }

  /** A successful insert keeps every key and reference the schema enforces. */
  lemma InsertKeepsConsistent(t: Tables, volumeId: string, nb: NewBook)
    requires Consistent(t) && InsertError(t, volumeId, nb).None?
    ensures Consistent(Inserted(t, volumeId, nb))
  {
    var u := Inserted(t, volumeId, nb);
    InsertKeepsUniqueVolumes(t.books, NewBookRow(volumeId, nb.title, nb.number, nb.publisher, nb.year));
    InsertKeepsUniqueIdentifiers(t, volumeId, nb);
    InsertKeepsUniqueGroupLinks(t, volumeId, nb);
    InsertKeepsReferences(t, volumeId, nb);
  }

  lemma InsertKeepsUniqueVolumes(books: seq<BookRow>, b: BookRow)
    requires UniqueVolumes(books) && b.volumeId !in VolumeIds(books)
    ensures UniqueVolumes(books + [b])
  {
    var all := books + [b];
    forall i, j | 0 <= i < j < |all| ensures all[i].volumeId != all[j].volumeId {
      if j == |books| {
        assert all[i] == books[i] && books[i] in books;
      }
    }
  }

  lemma InsertKeepsUniqueIdentifiers(t: Tables, volumeId: string, nb: NewBook)
    requires UniqueIdentifiers(t.identifiers) && InsertError(t, volumeId, nb).None?
    ensures UniqueIdentifiers(t.identifiers + IdentifierRows(volumeId, nb.identifier))
  {
    var rows := IdentifierRows(volumeId, nb.identifier);
    var all := t.identifiers + rows;
    forall i, j | 0 <= i < j < |all|
      ensures (all[i].kind, all[i].identifier) != (all[j].kind, all[j].identifier)
    {
      if j >= |t.identifiers| {
        assert all[i] == t.identifiers[i];
        assert all[j] == rows[0];
        assert !HasIdentifier(t, rows[0].kind, rows[0].identifier);
      }
    }
  }

  /** The new volume's links are distinct among themselves and differ from
      every existing link, which refers to an existing volume. */
  lemma InsertKeepsUniqueGroupLinks(t: Tables, volumeId: string, nb: NewBook)
    requires Distinct(t.bookGroups) && References(t)
    requires volumeId !in VolumeIds(t.books) && Distinct(nb.groups)
    ensures Distinct(t.bookGroups + GroupLinks(volumeId, nb.groups))
  {
    var n := |t.bookGroups|;
    var all := t.bookGroups + GroupLinks(volumeId, nb.groups);
    forall i, j | 0 <= i < j < |all| ensures all[i] != all[j] {
      if j >= n {
        assert all[j] == (volumeId, nb.groups[j - n]);
        if i < n {
          assert all[i] == t.bookGroups[i] && all[i].0 in VolumeIds(t.books);
        } else {
          assert all[i] == (volumeId, nb.groups[i - n]);
        }
      }
    }
  }

  /** A group listed twice makes the insert fail on the key of `book_groups`. */
  lemma RepeatedGroupFails(t: Tables, volumeId: string, nb: NewBook)
    requires volumeId !in VolumeIds(t.books) && nb.groups == ["X", "X"]
    ensures InsertError(t, volumeId, nb) == Some(DuplicateGroupLink)
  {
    assert nb.groups[0] == nb.groups[1];
  }

  lemma InsertKeepsReferences(t: Tables, volumeId: string, nb: NewBook)
    requires References(t) && volumeId !in VolumeIds(t.books)
    ensures References(Inserted(t, volumeId, nb))
  {
    var u := Inserted(t, volumeId, nb);
    assert VolumeIds(u.books) == VolumeIds(t.books) + {volumeId};
    forall k | 0 <= k < |u.bookGroups|
      ensures u.bookGroups[k].0 in VolumeIds(u.books) && u.bookGroups[k].1 in u.groupNames
    {
      if k >= |t.bookGroups| {
        assert u.bookGroups[k] == GroupLinks(volumeId, nb.groups)[k - |t.bookGroups|];
        assert nb.groups[k - |t.bookGroups|] in nb.groups;
      }
    }
  }

  /** A successful insert only adds: the existing rows stay as they were, and
      every other volume keeps its authors and custom values. */
  lemma InsertOnlyAdds(t: Tables, volumeId: string, nb: NewBook)
    requires Consistent(t) && InsertError(t, volumeId, nb).None?
    ensures var u := Inserted(t, volumeId, nb);
      u.books[..|t.books|] == t.books && u.identifiers[..|t.identifiers|] == t.identifiers &&
      u.bookGroups[..|t.bookGroups|] == t.bookGroups &&
      t.authorNames <= u.authorNames && t.groupNames <= u.groupNames && t.customFieldNames <= u.customFieldNames &&
      (forall v :: v in t.bookAuthors ==> v in u.bookAuthors && u.bookAuthors[v] == t.bookAuthors[v]) &&
      (forall v :: v in t.bookCustomFields ==> v in u.bookCustomFields && u.bookCustomFields[v] == t.bookCustomFields[v])
  {
    var u := Inserted(t, volumeId, nb);
    assert volumeId !in VolumeIds(t.books);
  }

  /** A new book is found by its volume id and, when it came with a valid
      identifier, by that identifier under its type. */
  lemma InsertedBookFound(t: Tables, volumeId: string, nb: NewBook)
    requires InsertError(t, volumeId, nb).None?
    ensures var u := Inserted(t, volumeId, nb);
      volumeId in VolumeIds(u.books) &&
      (StoredIdentifier(nb.identifier).Some? ==>
        HasIdentifier(u, BackendUtils.GetIdentifierType(nb.identifier.value).value.Tag(), nb.identifier.value))
  {
    var u := Inserted(t, volumeId, nb);
    assert u.books[|t.books|] in u.books;
    if StoredIdentifier(nb.identifier).Some? {
      assert u.identifiers[|t.identifiers|] == IdentifierRows(volumeId, nb.identifier)[0];
    }
  }

  /** A second book with the same valid identifier is refused, whatever its
      volume id. */
  lemma SameIdentifierTwiceFails(t: Tables, v1: string, v2: string, nb1: NewBook, nb2: NewBook)
    requires InsertError(t, v1, nb1).None?
    requires StoredIdentifier(nb1.identifier).Some? && nb2.identifier == nb1.identifier
    requires v2 !in VolumeIds(t.books) && v2 != v1
    ensures InsertError(Inserted(t, v1, nb1), v2, nb2) ==
      if Distinct(nb2.groups) then Some(DuplicateIdentifier) else Some(DuplicateGroupLink)
  {
    InsertedBookFound(t, v1, nb1);
    var u := Inserted(t, v1, nb1);
    assert VolumeIds(u.books) == VolumeIds(t.books) + {v1};
  }

  /** The statements of `insert_book` up to the commit, on a working copy
      of the tables: the staged tables, or the error that rolls them back. */
  method Stage(t: Tables, volumeId: string, nb: NewBook) returns (r: Result<Tables>)
    ensures match InsertError(t, volumeId, nb)
      case Some(message) => r == Err(message)
      case None => r == Ok(Inserted(t, volumeId, nb))
  {
    // INSERT INTO books: the primary key rejects a duplicate volume_id.
    if volumeId in VolumeIds(t.books) {
      return Err(DuplicateVolumeId);
    }
    var tx := t.(books := t.books + [NewBookRow(volumeId, nb.title, nb.number, nb.publisher, nb.year)]);

    // Authors, when given: clear the volume's links, then upsert one per name.
    if nb.authors != [] {
      var positions, names := LinkAuthors(nb.authors);
      tx := tx.(authorNames := tx.authorNames + names, bookAuthors := tx.bookAuthors[volumeId := positions]);
    }

    // Groups: insert the name if new, then one link row per listed group;
    // a repeated group fails on the key of `book_groups`.
    var groupSet, links, duplicate := LinkGroups(volumeId, nb.groups);
    if duplicate {
      return Err(DuplicateGroupLink);
    }
    tx := tx.(groupNames := tx.groupNames + groupSet, bookGroups := tx.bookGroups + links);

    // The identifier, when present and non-empty, tagged by its digit count.
    var stored := StoredIdentifier(nb.identifier);
    if stored.Some? {
      var kind := BackendUtils.GetIdentifierType(stored.value);
      if kind.Err? {
        return Err(kind.message);
      }
      if HasIdentifier(t, kind.value.Tag(), stored.value) {
        return Err(DuplicateIdentifier);
      }
      tx := tx.(identifiers := tx.identifiers + [IdentifierRow(volumeId, kind.value.Tag(), stored.value)]);
    }
    assert tx.identifiers == t.identifiers + IdentifierRows(volumeId, nb.identifier);

    // Custom fields, in the map's own (unspecified) order.
    var values, fieldNames := LinkCustomFields(nb.customFields);
    tx := tx.(customFieldNames := tx.customFieldNames + fieldNames);
    if nb.customFields != map[] {
      tx := tx.(bookCustomFields := tx.bookCustomFields[volumeId := values]);
    }
    ghost var u := Inserted(t, volumeId, nb);
    assert tx.books == u.books;
    assert tx.authorNames == u.authorNames;
    assert tx.bookAuthors == u.bookAuthors;
    assert tx.groupNames == u.groupNames;
    assert tx.bookGroups == u.bookGroups;
    assert tx.identifiers == u.identifiers;
    assert tx.customFieldNames == u.customFieldNames;
    assert tx.bookCustomFields == u.bookCustomFields;
    r := Ok(tx);
  }

  /** The in-memory catalogue: the tables `insert_book` writes. */
  class Catalog {
    var books: seq<BookRow>
    var authorNames: set<string>
    var bookAuthors: map<string, map<string, int>>
    var groupNames: set<string>
    var bookGroups: seq<(string, string)>
    var identifiers: seq<IdentifierRow>
    var customFieldNames: set<string>
    var bookCustomFields: map<string, map<string, string>>

    /** The tables as a value. */
    function Snapshot(): Tables
      reads this
    {
      Tables(books, authorNames, bookAuthors, groupNames, bookGroups, identifiers, customFieldNames, bookCustomFields)
    }

    ghost predicate Valid()
      reads this
    {
      Consistent(Snapshot())
    }

    /** An empty database. */
    constructor ()
      ensures Valid()
      ensures Snapshot() == Tables([], {}, map[], {}, [], [], {}, map[])
    {
      books := [];
      authorNames := {};
      bookAuthors := map[];
      groupNames := {};
      bookGroups := [];
      identifiers := [];
      customFieldNames := {};
      bookCustomFields := map[];
    }

    /** `insert_book` inside its transaction. `volumeId` stands for the UUID
        the source generates. Every write goes to a working copy that is
        committed at the end, so an error leaves every table as it was. */
    method InsertBook(volumeId: string, title: string, number: Option<int>, authors: seq<string>,
                      groups: seq<string>, publisher: Option<string>, year: Option<string>,
                      identifier: Option<string>, customFields: map<string, string>)
      returns (r: Result<string>)
      requires Valid()
      modifies this
      ensures Valid()
      ensures var nb := NewBook(title, number, authors, groups, publisher, year, identifier, customFields);
        match InsertError(old(Snapshot()), volumeId, nb)
        case Some(message) => r == Err(message) && Snapshot() == old(Snapshot())
        case None => r == Ok(volumeId) && Snapshot() == Inserted(old(Snapshot()), volumeId, nb)
    {
      var nb := NewBook(title, number, authors, groups, publisher, year, identifier, customFields);
      var t := Snapshot();
      var staged := Stage(t, volumeId, nb);
      if staged.Err? {
        return Err(staged.message);
      }
      InsertKeepsConsistent(t, volumeId, nb);
      Commit(staged.value);
      r := Ok(volumeId);
    }

    /** The transaction's commit: the working copy becomes the tables. */
    method Commit(u: Tables)
      modifies this
      ensures Snapshot() == u
    {
      books, authorNames, bookAuthors, groupNames := u.books, u.authorNames, u.bookAuthors, u.groupNames;
      bookGroups, identifiers, customFieldNames, bookCustomFields := u.bookGroups, u.identifiers, u.customFieldNames, u.bookCustomFields;
    }
  }

  /** A book inserted with a 10-digit identifier gets one `ISBN_10` row, and an
      identifier with another digit count (not 10 nor 13) fails the insert;
      an empty identifier writes no row. */
  lemma IdentifierRule(identifier: string)
    ensures |Utils.Digits(identifier)| == 10 ==>
      BackendUtils.GetIdentifierType(identifier) == Ok(BackendUtils.Isbn10)
    ensures identifier != [] && |Utils.Digits(identifier)| != 10 && |Utils.Digits(identifier)| != 13 ==>
      StoredIdentifier(Some(identifier)).Some? && BackendUtils.GetIdentifierType(identifier).Err?
    ensures StoredIdentifier(Some([])).None? && StoredIdentifier(None).None?
  {
  }

  // ---------------------------------------------------------------------------
  // CSV export

  /** The 31 fixed columns, in order. */
  const FixedColumns: seq<string> := [
    "volume_id", "title", "number", "authors", "categories", "identifiers", "groups",
    "publisher", "published_date", "description", "page_count", "print_type",
    "maturity_rating", "language", "preview_link", "info_link", "canonical_link",
    "small_thumbnail", "thumbnail", "country", "saleability", "is_ebook", "viewability",
    "embeddable", "public_domain", "text_to_speech_permission", "epub_available",
    "pdf_available", "web_reader_link", "access_view_status", "quote_sharing_allowed"]

  /** `n.map(|n| n.to_string()).unwrap_or_default()` */
  function IntCell(n: Option<int>): string {
    if n.Some? then DecimalString(n.value) else ""
  }

  /** `s.unwrap_or_default()` */
  function TextCell(s: Option<string>): string {
    s.GetOr("")
  }

  /** An absent integer is the only one rendered empty, and a present
      non-negative one reads back as itself. */
  lemma IntCellRoundTrip(n: Option<int>)
    ensures IntCell(n) == [] <==> n.None?
    ensures n.Some? && n.value >= 0 ==> AllDigits(IntCell(n)) && ParseNat(IntCell(n)) == n.value
  {
    if n.Some? && n.value >= 0 { ParseNatString(n.value); }
  }

  /** What the per-book queries return: authors in position order,
      categories, `(type, identifier)` pairs, groups and custom values. */
  datatype BookExtras = BookExtras(
    authors: seq<string>, categories: seq<string>, identifiers: seq<(string, string)>,
    groups: seq<string>, customFields: map<string, string>)

  /** `format!("{}:{}", type, identifier)` for each identifier. */
  function IdentifierItems(ids: seq<(string, string)>): (r: seq<string>)
    ensures |r| == |ids|
    ensures forall i :: 0 <= i < |r| ==> r[i] == ids[i].0 + ":" + ids[i].1
  {
    if ids == [] then [] else IdentifierItems(ids[..|ids| - 1]) + [ids[|ids| - 1].0 + ":" + ids[|ids| - 1].1]
  }

  const ListSep := "; "

  /** The fixed columns of the export. */
  datatype Column =
    VolumeId | Title | Number | Authors
    | Categories | Identifiers | Groups | Publisher
    | PublishedDate | Description | PageCount | PrintType
    | MaturityRating | Language | PreviewLink | InfoLink
    | CanonicalLink | SmallThumbnail | Thumbnail | Country
    | Saleability | IsEbook | Viewability | Embeddable
    | PublicDomain | TextToSpeechPermission | EpubAvailable | PdfAvailable
    | WebReaderLink | AccessViewStatus | QuoteSharingAllowed
  {
    /** The position of the column's name in the header row. */
    function HeaderPosition(): (r: nat)
      ensures r < 31
    {
      match this
      case VolumeId => 0
      case Title => 1
      case Number => 2
      case Authors => 3
      case Categories => 4
      case Identifiers => 5
      case Groups => 6
      case Publisher => 7
      case PublishedDate => 8
      case Description => 9
      case PageCount => 10
      case PrintType => 11
      case MaturityRating => 12
      case Language => 13
      case PreviewLink => 14
      case InfoLink => 15
      case CanonicalLink => 16
      case SmallThumbnail => 17
      case Thumbnail => 18
      case Country => 19
      case Saleability => 20
      case IsEbook => 21
      case Viewability => 22
      case Embeddable => 23
      case PublicDomain => 24
      case TextToSpeechPermission => 25
      case EpubAvailable => 26
      case PdfAvailable => 27
      case WebReaderLink => 28
      case AccessViewStatus => 29
      case QuoteSharingAllowed => 30
    }

    /** The column's header text. */
    function Name(): string {
      FixedColumns[HeaderPosition()]
    }

    /** The cell of the column for a book. */
    function Cell(b: BookRow, x: BookExtras): string {
      match this
      case VolumeId => b.volumeId
      case Title => b.title
      case Number => IntCell(b.number)
      case Authors => Join(x.authors, ListSep)
      case Categories => Join(x.categories, ListSep)
      case Identifiers => Join(IdentifierItems(x.identifiers), ListSep)
      case Groups => Join(x.groups, ListSep)
      case Publisher => TextCell(b.publisher)
      case PublishedDate => TextCell(b.publishedDate)
      case Description => TextCell(b.description)
      case PageCount => IntCell(b.pageCount)
      case PrintType => TextCell(b.printType)
      case MaturityRating => TextCell(b.maturityRating)
      case Language => TextCell(b.language)
      case PreviewLink => TextCell(b.previewLink)
      case InfoLink => TextCell(b.infoLink)
      case CanonicalLink => TextCell(b.canonicalLink)
      case SmallThumbnail => TextCell(b.smallThumbnail)
      case Thumbnail => TextCell(b.thumbnail)
      case Country => TextCell(b.country)
      case Saleability => TextCell(b.saleability)
      case IsEbook => IntCell(b.isEbook)
      case Viewability => TextCell(b.viewability)
      case Embeddable => IntCell(b.embeddable)
      case PublicDomain => IntCell(b.publicDomain)
      case TextToSpeechPermission => TextCell(b.textToSpeechPermission)
      case EpubAvailable => IntCell(b.epubAvailable)
      case PdfAvailable => IntCell(b.pdfAvailable)
      case WebReaderLink => TextCell(b.webReaderLink)
      case AccessViewStatus => TextCell(b.accessViewStatus)
      case QuoteSharingAllowed => IntCell(b.quoteSharingAllowed)
    }
  }

  /** The column the `j`-th fixed cell of a record is taken from, in the
      order the record pushes them. */
  function RecordColumn(j: nat): Column
    requires j < 31
  {
    match j
    case 0 => VolumeId
    case 1 => Title
    case 2 => Number
    case 3 => Authors
    case 4 => Categories
    case 5 => Identifiers
    case 6 => Groups
    case 7 => Publisher
    case 8 => PublishedDate
    case 9 => Description
    case 10 => PageCount
    case 11 => PrintType
    case 12 => MaturityRating
    case 13 => Language
    case 14 => PreviewLink
    case 15 => InfoLink
    case 16 => CanonicalLink
    case 17 => SmallThumbnail
    case 18 => Thumbnail
    case 19 => Country
    case 20 => Saleability
    case 21 => IsEbook
    case 22 => Viewability
    case 23 => Embeddable
    case 24 => PublicDomain
    case 25 => TextToSpeechPermission
    case 26 => EpubAvailable
    case 27 => PdfAvailable
    case 28 => WebReaderLink
    case 29 => AccessViewStatus
    case _ => QuoteSharingAllowed
  }

  /** A custom column's cell: the book's value, `""` when it has none. */
  function CustomCell(x: BookExtras, name: string): string {
    if name in x.customFields then x.customFields[name] else ""
  }

  /** The 31 fixed values of a record. */
  function FixedValues(b: BookRow, x: BookExtras): (r: seq<string>)
    ensures |r| == 31
    ensures forall j :: 0 <= j < 31 ==> r[j] == RecordColumn(j).Cell(b, x)
  {
    seq(31, j requires 0 <= j < 31 => RecordColumn(j).Cell(b, x))
  }

  /** Header and record agree on the fixed columns: the `j`-th cell is taken
      from the column whose name is the `j`-th header, and every column
      appears exactly once, at its header's position. */
  lemma FixedColumnsAlign()
    ensures |FixedColumns| == 31
    ensures forall j :: 0 <= j < 31 ==> RecordColumn(j).HeaderPosition() == j
    ensures forall c: Column :: RecordColumn(c.HeaderPosition()) == c
  {
  }

  /** The header row: the fixed columns, then each custom field name as the
      `ORDER BY name` query returns them. */
  method ExportHeader(customNames: seq<string>) returns (headers: seq<string>)
    ensures |headers| == |FixedColumns| + |customNames|
    ensures headers[..|FixedColumns|] == FixedColumns
    ensures headers[|FixedColumns|..] == customNames
  {
    headers := FixedColumns;
    for i := 0 to |customNames|
      invariant headers == FixedColumns + customNames[..i]
    {
      assert customNames[..i + 1] == customNames[..i] + [customNames[i]];
      headers := headers + [customNames[i]];
    }
    assert customNames[..|customNames|] == customNames;
  }

  /** One data row: the fixed values, then each custom field's value in the
      header's order, `""` when the book has none. */
  method ExportRecord(b: BookRow, x: BookExtras, customNames: seq<string>) returns (record: seq<string>)
    ensures |record| == |FixedColumns| + |customNames|
    ensures record[..|FixedColumns|] == FixedValues(b, x)
    ensures forall i :: 0 <= i < |customNames| ==> record[|FixedColumns| + i] == CustomCell(x, customNames[i])
  {
    record := FixedValues(b, x);
    for i := 0 to |customNames|
      invariant |record| == |FixedColumns| + i
      invariant record[..|FixedColumns|] == FixedValues(b, x)
      invariant forall k :: 0 <= k < i ==> record[|FixedColumns| + k] == CustomCell(x, customNames[k])
    {
      var name := customNames[i];
      record := record + [if name in x.customFields then x.customFields[name] else ""];
    }
  }

  /** Header and record line up: under the `j`-th fixed header sits the cell
      of the column of that name, and under every later header the value of
      the custom field it names. */
  lemma RecordMatchesHeader(b: BookRow, x: BookExtras, customNames: seq<string>,
                            headers: seq<string>, record: seq<string>)
    requires |headers| == |FixedColumns| + |customNames| && headers[..|FixedColumns|] == FixedColumns
    requires headers[|FixedColumns|..] == customNames
    requires |record| == |headers| && record[..|FixedColumns|] == FixedValues(b, x)
    requires forall i :: 0 <= i < |customNames| ==> record[|FixedColumns| + i] == CustomCell(x, customNames[i])
    ensures forall j :: 0 <= j < |FixedColumns| ==>
      headers[j] == RecordColumn(j).Name() && record[j] == RecordColumn(j).Cell(b, x)
    ensures forall j :: |FixedColumns| <= j < |headers| ==> record[j] == CustomCell(x, headers[j])
  {
    FixedColumnsAlign();
    forall j | 0 <= j < |FixedColumns|
      ensures headers[j] == RecordColumn(j).Name() && record[j] == RecordColumn(j).Cell(b, x)
    {
      assert headers[j] == headers[..|FixedColumns|][j];
      assert record[j] == record[..|FixedColumns|][j];
    }
    forall j | |FixedColumns| <= j < |headers| ensures record[j] == CustomCell(x, headers[j]) {
      assert headers[j] == headers[|FixedColumns|..][j - |FixedColumns|];
    }
  }

  /** The authors cell lists the names in position order, and splitting it on
      `;` gives them back when no name is blank, padded or holds a `;`. */
  lemma AuthorsCellRoundTrip(b: BookRow, x: BookExtras)
    requires forall i :: 0 <= i < |x.authors| ==>
      x.authors[i] != [] && IsTrimmed(x.authors[i]) && ';' !in x.authors[i]
    ensures Authors.Cell(b, x) == Join(x.authors, ListSep)
    ensures Tokens(Authors.Cell(b, x), ';') == x.authors
  {
    assert ListSep == [';', ' '];
    TokensOfJoin(x.authors, ';');
  }

  /** The identifiers cell for the row `insert_book` writes: the type tag, a
      colon, then the identifier as the caller gave it. */
  lemma IdentifierCell(b: BookRow, x: BookExtras, row: IdentifierRow)
    requires x.identifiers == [(row.kind, row.identifier)]
    ensures Identifiers.Cell(b, x) == row.kind + ":" + row.identifier
  {
    assert IdentifierItems(x.identifiers) == [row.kind + ":" + row.identifier];
  }
}
