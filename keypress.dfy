/** The barcode keystroke listener (`src/components/KeypressListener.tsx`).
    A scanner "types" an identifier as a fast burst of key presses followed by
    Enter. The listener keeps a buffer and the time of the last key; a gap of
    more than 50 ms starts a new buffer, only `0-9`, `x`, `X` and `-` are
    collected, at most 32 of them, and Enter hands the trimmed buffer to the
    dispatch decision. Time is an integer millisecond argument. */
module KeypressListener {
  import opened Wrappers
  import opened Text
  import Utils

  /** Keys slower than this reset the buffer. */
  const MaxInterKeyDelayMs := 50
  /** The buffer never grows past this many characters. */
  const MaxScanLength := 32
  const EnterKey := "Enter"
  const UnknownBarcodeFormat := "Unknown barcode format"

  /** The characters of `/[0-9xX-]/`. */
  predicate IsScanChar(c: char) { IsDigit(c) || c == 'x' || c == 'X' || c == '-' }

  /** A `KeyboardEvent.key` that is collected: one character of the scan class. */
  predicate IsAllowedKey(key: string) { |key| == 1 && IsScanChar(key[0]) }

  /** The two refs of the component. */
  datatype ScanState = ScanState(buffer: string, lastKeyTime: int)

  /** What the buffer may hold between key presses. */
  predicate ValidBuffer(b: string) {
    |b| <= MaxScanLength && forall i :: 0 <= i < |b| ==> IsScanChar(b[i])
  }

  /** The refs when the listener mounts. */
  const Initial := ScanState([], 0)

  /** The buffer once the gap rule has been applied for a key at `now`. */
  function AfterGap(s: ScanState, now: int): string {
    if now - s.lastKeyTime > MaxInterKeyDelayMs then [] else s.buffer
  }

  /** The scan Enter hands on: the trimmed buffer, unless that is empty. */
  function Flush(b: string): (scan: Option<string>)
    ensures scan.Some? <==> !AllSpace(b)
    ensures scan.Some? ==> scan.value != [] && IsTrimmed(scan.value) && |scan.value| <= |b|
  {
    var text := Trim(b);
    if text == [] then None else Some(text)
  }

  /** One keydown: the refs afterwards and the scan emitted, if any. */
  function Step(s: ScanState, key: string, now: int): (r: (ScanState, Option<string>))
    ensures r.0.lastKeyTime == now
    ensures ValidBuffer(s.buffer) ==> ValidBuffer(r.0.buffer)
    ensures key == EnterKey ==> r.0.buffer == []
    ensures r.1.Some? ==> key == EnterKey && r.1.value != [] && IsTrimmed(r.1.value)
  {
    var b := AfterGap(s, now);
    if key == EnterKey then (ScanState([], now), Flush(b))
    else if IsAllowedKey(key) then
      if |b| < MaxScanLength then (ScanState(b + key, now), None) else (ScanState([], now), None)
    else (ScanState(b, now), None)
  }

  /** A key press as the window sees it. */
  datatype KeyEvent = KeyEvent(key: string, time: int)

  /** A sequence of key presses: the final refs and the scans emitted, in order. */
  function Run(s: ScanState, events: seq<KeyEvent>): (ScanState, seq<string>)
  {
    if events == [] then (s, [])
    else
      var (mid, scans) := Run(s, events[..|events| - 1]);
      var e := events[|events| - 1];
      var (next, scan) := Step(mid, e.key, e.time);
      (next, scans + if scan.Some? then [scan.value] else [])
  }

  /** The listener's refs as an object updated in place by each keydown. */
  class ScanAggregator {
    var buffer: string
    var lastKeyTime: int

    ghost predicate Valid()
      reads this
    {
      ValidBuffer(buffer)
    }

    /** The refs start as `""` and `0`. */
    constructor ()
      ensures ScanState(buffer, lastKeyTime) == Initial
      ensures Valid()
    {
      buffer := [];
      lastKeyTime := 0;
    }

    /** `handleKeydown` up to the hand-off of the scanned text. */
    method KeyDown(key: string, now: int) returns (scan: Option<string>)
      requires Valid()
      modifies this
      ensures Valid()
      ensures (ScanState(buffer, lastKeyTime), scan) == Step(ScanState(old(buffer), old(lastKeyTime)), key, now)
    {
      if now - lastKeyTime > MaxInterKeyDelayMs {
        buffer := [];
      }
      lastKeyTime := now;
      if key == EnterKey {
        var text := Trim(buffer);
        buffer := [];
        if text == [] {
          return None;
        }
        return Some(text);
      }
      if IsAllowedKey(key) {
        if |buffer| < MaxScanLength {
          buffer := buffer + key;
        } else {
          buffer := [];
        }
      }
      scan := None;
    }
  }

  // ----- Properties of a single key press -----

  /** A gap of more than 50 ms empties the buffer before the key is handled;
      a gap of at most 50 ms keeps it. */
  lemma GapRule(s: ScanState, key: string, now: int)
    requires !IsAllowedKey(key) && key != EnterKey
    ensures now - s.lastKeyTime > MaxInterKeyDelayMs ==> Step(s, key, now).0.buffer == []
    ensures now - s.lastKeyTime <= MaxInterKeyDelayMs ==> Step(s, key, now).0.buffer == s.buffer
  {
  }

  /** An accepted key is appended below the cap; at the cap the buffer is
      emptied and the key dropped. */
  lemma AllowedKeyRule(s: ScanState, key: string, now: int)
    requires IsAllowedKey(key)
    requires now - s.lastKeyTime <= MaxInterKeyDelayMs
    ensures |s.buffer| < MaxScanLength ==> Step(s, key, now).0.buffer == s.buffer + key
    ensures |s.buffer| >= MaxScanLength ==> Step(s, key, now).0.buffer == []
  {
  }

  /** In a valid state Enter emits exactly the buffer, when it is non-empty and
      the gap rule kept it. */
  lemma EnterEmitsBuffer(s: ScanState, now: int)
    requires ValidBuffer(s.buffer)
    requires now - s.lastKeyTime <= MaxInterKeyDelayMs
    ensures Step(s, EnterKey, now).1 == if s.buffer == [] then None else Some(s.buffer)
  {
    assert IsTrimmed(s.buffer) by {
      if s.buffer != [] {
        assert IsScanChar(s.buffer[0]) && IsScanChar(s.buffer[|s.buffer| - 1]);
      }
    }
    assert s.buffer != [] ==> !AllSpace(s.buffer) by {
      if s.buffer != [] { assert IsScanChar(s.buffer[0]); }
    }
  }

  // ----- Bursts of key presses -----

  /** One key event per character, at the given times. */
  function Burst(chars: string, times: seq<int>): (evs: seq<KeyEvent>)
    requires |chars| == |times|
    ensures |evs| == |chars|
    ensures forall i :: 0 <= i < |evs| ==> evs[i] == KeyEvent([chars[i]], times[i])
  {
    seq(|chars|, i requires 0 <= i < |chars| => KeyEvent([chars[i]], times[i]))
  }

  /** A burst shape: the first key comes more than 50 ms after the last one
      seen, and each later key at most 50 ms after its predecessor. */
  predicate FastBurst(s: ScanState, times: seq<int>) {
    times != [] && times[0] - s.lastKeyTime > MaxInterKeyDelayMs &&
    forall i :: 0 < i < |times| ==> times[i] - times[i - 1] <= MaxInterKeyDelayMs
  }

  predicate AllScanChars(chars: string) { forall i :: 0 <= i < |chars| ==> IsScanChar(chars[i]) }

  /** After the first `k` keys of a fast burst of at most 32 scan characters,
      the buffer holds exactly those characters and nothing was emitted. */
  lemma {:induction false} BurstPrefix(s: ScanState, chars: string, times: seq<int>, k: nat)
    requires |chars| == |times| && AllScanChars(chars) && |chars| <= MaxScanLength
    requires FastBurst(s, times)
    requires 1 <= k <= |chars|
    ensures Run(s, Burst(chars, times)[..k]) == (ScanState(chars[..k], times[k - 1]), [])
  {
    var evs := Burst(chars, times);
    assert evs[..k][..k - 1] == evs[..k - 1];
    if k == 1 {
      assert evs[..1][..0] == [];
      assert Run(s, evs[..1][..0]) == (s, []);
      assert evs[..1][0] == KeyEvent([chars[0]], times[0]);
      assert IsAllowedKey([chars[0]]);
      assert AfterGap(s, times[0]) == [];
      assert [chars[0]] != EnterKey by { assert |EnterKey| == 5; }
      assert Step(s, [chars[0]], times[0]).1 == None;
      assert Step(s, [chars[0]], times[0]).0.lastKeyTime == times[0];
      assert Step(s, [chars[0]], times[0]).0.buffer == [chars[0]];
      assert [chars[0]] == chars[..1];
      assert Run(s, evs[..1]).0 == ScanState(chars[..1], times[0]);
      assert Run(s, evs[..1]).1 == [];
    } else {
      BurstPrefix(s, chars, times, k - 1);
      assert chars[..k - 1] + [chars[k - 1]] == chars[..k];
    }
  }

  /** A fast burst of 1 to 32 scan characters followed by Enter within 50 ms
      emits exactly that text, once. */
  lemma ScanBurst(s: ScanState, chars: string, times: seq<int>, enterTime: int)
    requires |chars| == |times| && AllScanChars(chars) && 1 <= |chars| <= MaxScanLength
    requires FastBurst(s, times)
    requires enterTime - times[|times| - 1] <= MaxInterKeyDelayMs
    ensures Run(s, Burst(chars, times) + [KeyEvent(EnterKey, enterTime)]).1 == [chars]
  {
    var evs := Burst(chars, times) + [KeyEvent(EnterKey, enterTime)];
    BurstPrefix(s, chars, times, |chars|);
    assert evs[..|evs| - 1] == Burst(chars, times)[..|chars|];
    assert chars[..|chars|] == chars;
    EnterEmitsBuffer(ScanState(chars, times[|times| - 1]), enterTime);
  }

  /** A fast burst of 33 scan characters is dropped by the length cap: the
      33rd key empties the buffer and the following Enter emits nothing. */
  lemma OverlongBurstDropped(s: ScanState, chars: string, times: seq<int>, enterTime: int)
    requires |chars| == |times| && AllScanChars(chars) && |chars| == MaxScanLength + 1
    requires FastBurst(s, times)
    requires enterTime - times[|times| - 1] <= MaxInterKeyDelayMs
    ensures Run(s, Burst(chars, times) + [KeyEvent(EnterKey, enterTime)]).1 == []
  {
    var evs := Burst(chars, times) + [KeyEvent(EnterKey, enterTime)];
    var head := chars[..MaxScanLength];
    var headTimes := times[..MaxScanLength];
    assert FastBurst(s, headTimes);
    assert AllScanChars(head);
    BurstPrefix(s, head, headTimes, MaxScanLength);
    assert Burst(head, headTimes)[..MaxScanLength] == evs[..MaxScanLength];
    assert head[..MaxScanLength] == head;
    var full := ScanState(head, times[MaxScanLength - 1]);
    assert Run(s, evs[..MaxScanLength]) == (full, []);
    var last := evs[MaxScanLength];
    assert last == KeyEvent([chars[MaxScanLength]], times[MaxScanLength]);
    assert IsAllowedKey(last.key) && last.key != EnterKey by { assert |EnterKey| == 5; }
    assert AfterGap(full, last.time) == head;
    var capped := Step(full, last.key, last.time);
    assert capped == (ScanState([], last.time), None);
    assert evs[..MaxScanLength + 1][..MaxScanLength] == evs[..MaxScanLength];
    assert Run(s, evs[..MaxScanLength + 1]) == (capped.0, []);
    assert evs[..|evs| - 1] == evs[..MaxScanLength + 1];
    assert Flush([]) == None;
  }

  // ----- Dispatch after Enter -----

  /** The branch taken for a scanned text. */
  datatype Action =
    | Ignore                     // not an identifier and not all digits
    | UnknownFormat              // all digits, but no valid identifier
    | LookupEan(ean: string)     // `find_comic_by_ean`
    | CheckThenFetch(isbn: string)  // `isbn_exists`, then `fetch_isbn`

  /** The decision at lines 49-72, on the spec predicates of the validators. */
  function Dispatch(text: string): (a: Action)
    ensures a.LookupEan? <==> Utils.Ean13Accepts(text)
    ensures a.CheckThenFetch? <==> Utils.IsbnAccepts(text) && !Utils.Ean13Accepts(text)
    ensures a == UnknownFormat <==>
      !Utils.IsbnAccepts(text) && !Utils.Ean13Accepts(text) && text != [] && AllDigits(text)
    ensures a.LookupEan? ==> a.ean == text
    ensures a.CheckThenFetch? ==> a.isbn == text && |Utils.Digits(text)| == 10
  {
    if !Utils.IsbnAccepts(text) && !Utils.Ean13Accepts(text) then
      if Utils.IsOnlyDigits(text) then UnknownFormat else Ignore
    else if Utils.Ean13Accepts(text) then LookupEan(text)
    else CheckThenFetch(text)
  }

  /** A book record as the lookup returns it; only its identity is modelled. */
  datatype Book = Book(volumeId: string)

  /** How each backend command settles for this scan. */
  datatype Backend = Backend(
    findComicByEan: Outcome<Option<Book>>,
    isbnExists: Outcome<bool>,
    fetchIsbn: Outcome<string>)

  /** The commands the listener invokes. */
  datatype Call = FindComicByEan(ean: string) | IsbnExists(isbn: string) | FetchIsbn(isbn: string)

  /** What the listener reports: a toast, a callback, or only a console log. */
  datatype Report =
    | Silent
    | Notice(message: string)
    | ExistingEan(book: Book)
    | NewEan(ean: string)
    | BookSaved(message: string)
    | ScanError(identifier: string, message: string)
    | Logged(error: string)

  datatype Effects = Effects(calls: seq<Call>, report: Report)

  /** The asynchronous follow-up of an action, given the backend's answers. */
  function Follow(a: Action, be: Backend): (e: Effects)
    ensures a.Ignore? || a.UnknownFormat? ==> e.calls == []
    ensures a.LookupEan? ==> e.calls == [FindComicByEan(a.ean)]
    ensures a.CheckThenFetch? ==>
      e.calls == [IsbnExists(a.isbn)] + (if be.isbnExists == Resolved(false) then [FetchIsbn(a.isbn)] else [])
    ensures e.report.ScanError? ==> a.CheckThenFetch? && e.report.identifier == a.isbn
    ensures a.Ignore? ==> e.report == Silent
    ensures a.UnknownFormat? ==> e.report == Notice(UnknownBarcodeFormat)
    ensures a.LookupEan? && be.findComicByEan.Resolved? && be.findComicByEan.value.Some? ==>
      e.report == ExistingEan(be.findComicByEan.value.value)
    ensures a.LookupEan? && be.findComicByEan == Resolved(None) ==> e.report == NewEan(a.ean)
    ensures a.LookupEan? && be.findComicByEan.Rejected? ==> e.report == Logged(be.findComicByEan.error)
    ensures a.CheckThenFetch? && be.isbnExists.Rejected? ==> e.report == ScanError(a.isbn, be.isbnExists.error)
    ensures a.CheckThenFetch? && be.isbnExists == Resolved(true) ==> e.report == Silent
    ensures a.CheckThenFetch? && be.isbnExists == Resolved(false) && be.fetchIsbn.Resolved? ==>
      e.report == BookSaved(be.fetchIsbn.value)
    ensures a.CheckThenFetch? && be.isbnExists == Resolved(false) && be.fetchIsbn.Rejected? ==>
      e.report == ScanError(a.isbn, be.fetchIsbn.error)
  {
    match a
    case Ignore => Effects([], Silent)
    case UnknownFormat => Effects([], Notice(UnknownBarcodeFormat))
    case LookupEan(ean) =>
      var report := match be.findComicByEan
        case Resolved(Some(book)) => ExistingEan(book)
        case Resolved(None) => NewEan(ean)
        case Rejected(err) => Logged(err);
      Effects([FindComicByEan(ean)], report)
    case CheckThenFetch(isbn) =>
      match be.isbnExists
      case Rejected(err) => Effects([IsbnExists(isbn)], ScanError(isbn, err))
      case Resolved(true) => Effects([IsbnExists(isbn)], Silent)
      case Resolved(false) =>
        var report := match be.fetchIsbn
          case Resolved(message) => BookSaved(message)
          case Rejected(err) => ScanError(isbn, err);
        Effects([IsbnExists(isbn), FetchIsbn(isbn)], report)
  }

  /** Text that is neither an ISBN nor an EAN-13 reaches no backend command,
      and is announced only when it is all digits. */
  lemma NoCallForUnknownText(text: string, be: Backend)
    ensures Follow(Dispatch(text), be).calls == [] <==>
      !Utils.IsbnAccepts(text) && !Utils.Ean13Accepts(text)
    ensures Follow(Dispatch(text), be).report.Notice? <==>
      !Utils.IsbnAccepts(text) && !Utils.Ean13Accepts(text) && Utils.IsOnlyDigits(text)
    ensures !Utils.IsbnAccepts(text) && !Utils.Ean13Accepts(text) && !Utils.IsOnlyDigits(text) ==>
      Follow(Dispatch(text), be).report == Silent
  {
  }

  /** `fetch_isbn` is invoked only for a 10-digit ISBN that `isbn_exists` has
      reported absent, and always with the scanned text. */
  lemma FetchOnlyWhenAbsent(text: string, be: Backend, c: Call)
    requires c in Follow(Dispatch(text), be).calls && c.FetchIsbn?
    ensures c.isbn == text
    ensures be.isbnExists == Resolved(false)
    ensures |Utils.Digits(text)| == 10 && Utils.Isbn10Valid(Utils.Digits(text))
  {
  }

  /** A failure of the existence check or of the fetch is reported with the
      scanned text and the error, and every such report comes from one; a
      failed EAN lookup is only logged. */
  lemma FailuresCarryScannedText(text: string, be: Backend)
    ensures Follow(Dispatch(text), be).report.ScanError? ==>
      Follow(Dispatch(text), be).report.identifier == text
    ensures Utils.IsbnAccepts(text) && !Utils.Ean13Accepts(text) && be.isbnExists.Rejected? ==>
      Follow(Dispatch(text), be).report == ScanError(text, be.isbnExists.error)
    ensures Utils.IsbnAccepts(text) && !Utils.Ean13Accepts(text) && be.isbnExists == Resolved(false) && be.fetchIsbn.Rejected? ==>
      Follow(Dispatch(text), be).report == ScanError(text, be.fetchIsbn.error)
    ensures Follow(Dispatch(text), be).report.ScanError? <==>
      Utils.IsbnAccepts(text) && !Utils.Ean13Accepts(text) &&
      (be.isbnExists.Rejected? || (be.isbnExists == Resolved(false) && be.fetchIsbn.Rejected?))
    ensures Utils.Ean13Accepts(text) && be.findComicByEan.Rejected? ==>
      Follow(Dispatch(text), be).report == Logged(be.findComicByEan.error)
  {
  }

  /** A scanned EAN-13 is reported as an existing book when the lookup finds
      one, and as a new EAN, with the scanned text, when it finds none. */
  lemma EanLookupReported(text: string, be: Backend)
    requires Utils.Ean13Accepts(text) && be.findComicByEan.Resolved?
    ensures be.findComicByEan.value.Some? ==>
      Follow(Dispatch(text), be).report == ExistingEan(be.findComicByEan.value.value)
    ensures be.findComicByEan.value.None? ==> Follow(Dispatch(text), be).report == NewEan(text)
  {
  }

  /** End to end: a fast burst of a valid EAN-13's digits followed by Enter
      leads to exactly one `find_comic_by_ean` with that text. */
  lemma ScannedEanLooksUp(s: ScanState, chars: string, times: seq<int>, enterTime: int, be: Backend)
    requires |chars| == 13 && |times| == 13 && AllDigits(chars) && Utils.Ean13Valid(chars)
    requires FastBurst(s, times)
    requires enterTime - times[12] <= MaxInterKeyDelayMs
    ensures var scans := Run(s, Burst(chars, times) + [KeyEvent(EnterKey, enterTime)]).1;
      scans == [chars] && Follow(Dispatch(scans[0]), be).calls == [FindComicByEan(chars)]
  {
    assert AllScanChars(chars) by {
      forall i | 0 <= i < |chars| ensures IsScanChar(chars[i]) { assert IsDigit(chars[i]); }
    }
    ScanBurst(s, chars, times, enterTime);

  }
}
