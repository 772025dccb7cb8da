/** The clipboard poller (`src/components/ClipboardListener.tsx`). While the
    window has focus, a 500 ms interval reads the clipboard; a trimmed text that
    passes `isPossibleIdentifier` and differs from the last one taken is
    remembered and sent to `fetch_isbn`. `isPossibleIdentifier` is not among the
    modelled files, so the poller carries it as an arbitrary predicate. */
module ClipboardListener {
  import opened Wrappers
  import opened Text

  const PollIntervalMs := 500

  /** A `setInterval` handle. Browsers hand out positive ids, so `!interval`
      in the source means exactly "no interval". */
  type Handle = h: int | h > 0 witness 1

  /** What one tick reports. */
  datatype Report =
    | Silent                                  // nothing to do
    | Success(message: string)                // `onSuccess(result)`
    | Failure(isbn: string, message: string)  // `onError(text, error)`
    | Logged(error: string)                   // the clipboard read failed

  /** One tick on the value side: the new `lastClipboard` and the text sent to
      `fetch_isbn`, if any, for a clipboard read that settled as `read`. */
  function Tick(last: string, read: Outcome<string>, possible: string -> bool): (r: (string, Option<string>))
    ensures r.1.Some? <==> read.Resolved? && possible(Trim(read.value)) && Trim(read.value) != last
    ensures r.1.Some? ==> r.1.value == Trim(read.value) && r.0 == r.1.value
    ensures r.1.None? ==> r.0 == last
  {
    match read
    case Rejected(_) => (last, None)
    case Resolved(raw) =>
      var text := Trim(raw);
      if !possible(text) then (last, None)
      else if text != last then (text, Some(text))
      else (last, None)
  }

  /** Successive ticks: the final marker and the texts fetched, in order. */
  function Poll(last: string, clips: seq<Outcome<string>>, possible: string -> bool): (string, seq<string>)
  {
    if clips == [] then (last, [])
    else
      var (mid, fetched) := Poll(last, clips[..|clips| - 1], possible);
      var (next, fetch) := Tick(mid, clips[|clips| - 1], possible);
      (next, fetched + if fetch.Some? then [fetch.value] else [])
  }

  /** Over any run of ticks the marker is the last text fetched, every fetched
      text passes the predicate, and no text is fetched twice in a row. */
  lemma {:induction false} PollInvariant(last: string, clips: seq<Outcome<string>>, possible: string -> bool)
    ensures var (marker, fetched) := Poll(last, clips, possible);
      marker == (if fetched == [] then last else fetched[|fetched| - 1]) &&
      (forall i :: 0 <= i < |fetched| ==> possible(fetched[i])) &&
      (fetched != [] ==> fetched[0] != last) &&
      (forall i :: 0 < i < |fetched| ==> fetched[i] != fetched[i - 1])
  {
    if clips != [] {
      var front := clips[..|clips| - 1];
      PollInvariant(last, front, possible);
      var (mid, fetched) := Poll(last, front, possible);
      var (next, fetch) := Tick(mid, clips[|clips| - 1], possible);
      var all := fetched + if fetch.Some? then [fetch.value] else [];
      assert Poll(last, clips, possible) == (next, all);
      if fetch.Some? {
        assert all[|all| - 1] == fetch.value;
        forall i | 0 < i < |all| ensures all[i] != all[i - 1] {
          if i < |fetched| {
            assert all[i] == fetched[i] && all[i - 1] == fetched[i - 1];
          }
        }
      } else {
        assert all == fetched;
      }
    }
  }

  /** The same identifier on consecutive ticks is fetched only once. */
  lemma RepeatedTextFetchedOnce(last: string, a: string, n: nat, possible: string -> bool)
    requires possible(Trim(a)) && Trim(a) != last
    requires n >= 1
    ensures Poll(last, seq(n, _ => Resolved(a)), possible).1 == [Trim(a)]
    decreases n
  {
    var clips := seq(n, _ => Resolved(a));
    if n == 1 {
      assert clips[..0] == [];
    } else {
      assert clips[..n - 1] == seq(n - 1, _ => Resolved(a));
      RepeatedTextFetchedOnce(last, a, n - 1, possible);
      PollInvariant(last, clips[..n - 1], possible);
    }
  }

  /** A, then a non-identifier, then A again: A is fetched once, because the
      rejected text does not replace the marker. */
  lemma RejectedTextKeepsMarker(last: string, a: string, b: string, possible: string -> bool)
    requires possible(Trim(a)) && Trim(a) != last
    requires !possible(Trim(b))
    ensures Poll(last, [Resolved(a), Resolved(b), Resolved(a)], possible) == (Trim(a), [Trim(a)])
  {
    assert Tick(last, Resolved(a), possible) == (Trim(a), Some(Trim(a)));
    assert Tick(Trim(a), Resolved(b), possible) == (Trim(a), None);
    assert Tick(Trim(a), Resolved(a), possible) == (Trim(a), None);
    var one: seq<Outcome<string>> := [Resolved(a)];
    var two := one + [Resolved(b)];
    var none: seq<Outcome<string>> := [];
    assert Poll(last, none, possible) == (last, []);
    PollSnoc(last, none, Resolved(a), possible);
    assert none + [Resolved(a)] == one;
    assert [] + [Trim(a)] == [Trim(a)];
    assert Poll(last, one, possible) == (Trim(a), [Trim(a)]);
    PollSnoc(last, one, Resolved(b), possible);
    assert [Trim(a)] + [] == [Trim(a)];
    assert Poll(last, two, possible) == (Trim(a), [Trim(a)]);
    PollSnoc(last, two, Resolved(a), possible);
    assert two + [Resolved(a)] == [Resolved(a), Resolved(b), Resolved(a)];
    assert [Trim(a)] + [] == [Trim(a)];
  }

  /** One more tick extends the run. */
  lemma PollSnoc(last: string, clips: seq<Outcome<string>>, c: Outcome<string>, possible: string -> bool)
    ensures var (mid, fetched) := Poll(last, clips, possible);
      var (next, fetch) := Tick(mid, c, possible);
      Poll(last, clips + [c], possible) == (next, fetched + if fetch.Some? then [fetch.value] else [])
  {
    assert (clips + [c])[..|clips|] == clips;
  }

  /** A failed clipboard read changes nothing and fetches nothing. */
  lemma FailedReadChangesNothing(last: string, clips: seq<Outcome<string>>, err: string, possible: string -> bool)
    ensures Poll(last, clips + [Rejected(err)], possible) == Poll(last, clips, possible)
  {
    var all := clips + [Rejected(err)];
    assert all[..|all| - 1] == clips;
    var (mid, fetched) := Poll(last, clips, possible);
    assert Tick(mid, Rejected(err), possible) == (mid, None);
    assert fetched + [] == fetched;
  }

  /** The closure state of the listener's effect: the marker, the interval
      handle and, for the proof, the set of timers the window is running. */
  class ClipboardPoller {
    const isPossibleIdentifier: string -> bool
    var lastClipboard: string
    var interval: Option<Handle>
    var running: set<Handle>

    /** At most one timer runs, and it is the one `interval` holds. */
    ghost predicate Valid()
      reads this
    {
      running == if interval.Some? then {interval.value} else {}
    }

    /** The effect body on mount: `lastClipboard = ""`, `interval = null`,
        then `startPolling()` with the handle the window hands out. */
    constructor (isPossibleIdentifier: string -> bool, handle: Handle)
      ensures this.isPossibleIdentifier == isPossibleIdentifier
      ensures lastClipboard == [] && interval == Some(handle) && running == {handle}
      ensures Valid()
    {
      this.isPossibleIdentifier := isPossibleIdentifier;
      lastClipboard := [];
      interval := None;
      running := {};
      new;
      StartPolling(handle);
    }

    /** `startPolling`: creates a timer only when none is held. `handle` is the
        id `setInterval` would return, never one already running. */
    method StartPolling(handle: Handle)
      requires Valid() && handle !in running
      modifies this
      ensures Valid()
      ensures lastClipboard == old(lastClipboard)
      ensures old(interval).Some? ==> interval == old(interval) && running == old(running)
      ensures old(interval).None? ==> interval == Some(handle) && running == {handle}
    {
      if interval.None? {
        interval := Some(handle);
        running := running + {handle};
      }
    }

    /** `stopPolling`: clears the timer if one is held; no-op otherwise. */
    method StopPolling()
      requires Valid()
      modifies this
      ensures Valid()
      ensures interval == None && running == {}
      ensures lastClipboard == old(lastClipboard)
    {
      if interval.Some? {
        running := running - {interval.value};
        interval := None;
      }
    }

    /** The focus listener: start on focus, stop on blur. */
    method OnFocusChanged(focused: bool, handle: Handle)
      requires Valid() && handle !in running
      modifies this
      ensures Valid()
      ensures lastClipboard == old(lastClipboard)
      ensures focused ==> interval == (if old(interval).Some? then old(interval) else Some(handle))
      ensures !focused ==> interval == None
    {
      if focused {
        StartPolling(handle);
      } else {
        StopPolling();
      }
    }

    /** `checkClipboard`: one tick, with the clipboard read and the fetch
        settled as `read` and `fetch`. Returns the text sent to `fetch_isbn`,
        if any, and what was reported. */
    method CheckClipboard(read: Outcome<string>, fetch: Outcome<string>) returns (fetched: Option<string>, report: Report)
      modifies this
      ensures (lastClipboard, fetched) == Tick(old(lastClipboard), read, isPossibleIdentifier)
      ensures interval == old(interval) && running == old(running)
      ensures read.Rejected? ==> report == Logged(read.error)
      ensures fetched.None? && read.Resolved? ==> report == Silent
      ensures fetched.Some? ==>
        report == (if fetch.Resolved? then Success(fetch.value) else Failure(fetched.value, fetch.error))
    {
      fetched := None;
      if read.Rejected? {
        report := Logged(read.error);
        return;
      }
      var text := Trim(read.value);
      if !isPossibleIdentifier(text) {
        report := Silent;
        return;
      }
      if text != lastClipboard {
        lastClipboard := text;
        fetched := Some(text);
        match fetch {
          case Resolved(result) => report := Success(result);
          case Rejected(error) => report := Failure(text, error);
        }
      } else {
        report := Silent;
      }
    }
  }

  /** Starting twice keeps one timer: the second start is a no-op. */
  method StartTwice(possible: string -> bool, h1: Handle, h2: Handle) returns (p: ClipboardPoller)
    requires h1 != h2
    ensures p.interval == Some(h1) && p.running == {h1}
  {
    p := new ClipboardPoller(possible, h1);
    p.StartPolling(h2);
  }

  /** Stopping twice leaves no timer: the second stop is a no-op. */
  method StopTwice(possible: string -> bool, h: Handle) returns (p: ClipboardPoller)
    ensures p.interval == None && p.running == {}
  {
    p := new ClipboardPoller(possible, h);
    p.StopPolling();
    p.StopPolling();
  }
}
