/**
  * The pause protocol between the speech listener and the speech handler,
  * which run as two threads over one `Channel`: any interleaving of their
  * steps, as a sequence of events. Each listener tests the flag at some
  * points of a pass and puts on the queue at a later point, without a test
  * in between; the handler takes an utterance and only then sets the flag.
  */
module SpeechProtocol {
  import opened Options
  import opened SpeechChannel
  import opened SpeechHandler
  import opened SpeechListener

  /** One step of one thread. */
  datatype Event =
    | VoskChecks
    | VoskDelivers(chunk: Chunk)
    | SrStarts
    | SrRechecks(capture: Capture)
    | SrDelivers
    | HandlerTakes
    | HandlerPauses
    | HandlerFinishes(outcome: AgentOutcome, notifyOk: bool)

  /**
    * What a step did: whether the flag was set when it ran, what it put on
    * the queue, and, for a put, the index of the step whose test of the
    * flag let its pass through (-1 for any other step).
    */
  datatype Record = Record(event: Event, paused: bool, enqueued: seq<string>, testedAt: int)

  /** The pause flag is set exactly while the handler works on a query. */
  ghost predicate Coupled(h: Handler, ch: Channel)
    reads h, ch
  {
    ch.paused <==> h.stage.Working?
  }

  /** Whether `e` is the test that precedes a put of `put`'s thread. */
  predicate TestFor(put: Event, e: Event) {
    (put.VoskDelivers? && e.VoskChecks?) || (put.SrDelivers? && e.SrRechecks?)
  }

  /** Every put was let through by an earlier test of its own thread that found the flag clear. */
  ghost predicate PutsTested(trace: seq<Record>) {
    forall j :: 0 <= j < |trace| && trace[j].enqueued != [] ==>
      && (trace[j].event.VoskDelivers? || trace[j].event.SrDelivers?)
      && 0 <= trace[j].testedAt < j
      && TestFor(trace[j].event, trace[trace[j].testedAt].event)
      && !trace[trace[j].testedAt].paused
  }

  /** No step puts an empty string on the queue. */
  ghost predicate NoEmptyPuts(trace: seq<Record>) {
    forall j :: 0 <= j < |trace| ==> forall t :: t in trace[j].enqueued ==> t != ""
  }

  /** A put made while the flag is set follows a `HandlerPauses` step that came after its test. */
  ghost predicate LatePausesBetween(trace: seq<Record>) {
    forall j :: 0 <= j < |trace| && trace[j].enqueued != [] && trace[j].paused ==>
      exists p :: trace[j].testedAt < p && 0 <= p < j && trace[p].event == HandlerPauses
  }

  /** Every put of `trace` is explained by the steps before it. */
  ghost predicate Explained(trace: seq<Record>) {
    PutsTested(trace) && NoEmptyPuts(trace) && LatePausesBetween(trace)
  }

  /** A step whose put is explained by the steps before it keeps the trace explained. */
  lemma Extend(prev: seq<Record>, r: Record)
    requires Explained(prev)
    requires forall t :: t in r.enqueued ==> t != ""
    requires r.enqueued != [] ==>
               && (r.event.VoskDelivers? || r.event.SrDelivers?)
               && 0 <= r.testedAt < |prev|
               && TestFor(r.event, prev[r.testedAt].event)
               && !prev[r.testedAt].paused
    requires r.enqueued != [] && r.paused ==>
               exists p :: r.testedAt < p < |prev| && prev[p].event == HandlerPauses
    ensures Explained(prev + [r])
  {
    var trace := prev + [r];
    assert forall j :: 0 <= j < |prev| ==> trace[j] == prev[j];
    assert trace[|prev|] == r;
  }

  /** The steps of `trace` are the first events of `events`, in order. */
  ghost predicate Follows(trace: seq<Record>, events: seq<Event>) {
    |trace| <= |events| && forall j :: 0 <= j < |trace| ==> trace[j].event == events[j]
  }

  /** A step that records the next event keeps the trace following the events. */
  lemma FollowsExtend(prev: seq<Record>, r: Record, events: seq<Event>)
    requires Follows(prev, events) && |prev| < |events| && r.event == events[|prev|]
    ensures Follows(prev + [r], events)
  {
    assert forall j :: 0 <= j < |prev| ==> (prev + [r])[j] == prev[j];
  }

  /**
    * What the steps of `trace` say about the passes under way, given the
    * flag, whether a Vosk pass is reading and whether a recognition is in
    * progress: each was let through by the test at `voskTest` or `srTest`,
    * which found the flag clear, and a flag set since then was set by the
    * `HandlerPauses` step at `lastPause`, after that test.
    */
  ghost predicate Pending(trace: seq<Record>, paused: bool, reading: bool, recognizing: bool,
                          voskTest: int, srTest: int, lastPause: int) {
    && (paused && (reading || recognizing) ==> 0 <= lastPause < |trace| && trace[lastPause].event == HandlerPauses)
    && (reading ==> 0 <= voskTest < |trace| && trace[voskTest].event == VoskChecks && !trace[voskTest].paused)
    && (reading && paused ==> voskTest < lastPause)
    && (recognizing ==> 0 <= srTest < |trace| && trace[srTest].event.SrRechecks? && !trace[srTest].paused)
    && (recognizing && paused ==> srTest < lastPause)
  }

  /** One step `r`, at index `|prev|`, moves the passes under way as `Act` says and keeps them explained. */
  lemma PendingStep(prev: seq<Record>, r: Record, paused: bool, reading: bool, recognizing: bool,
                    voskTest: int, srTest: int, lastPause: int,
                    paused': bool, reading': bool, recognizing': bool, voskTest': int, srTest': int, lastPause': int)
    requires Pending(prev, paused, reading, recognizing, voskTest, srTest, lastPause)
    requires r.paused == paused
    requires reading' ==> (reading && voskTest' == voskTest) || (r.event.VoskChecks? && !paused && voskTest' == |prev|)
    requires recognizing' ==>
               (recognizing && srTest' == srTest) || (r.event.SrRechecks? && !paused && srTest' == |prev|)
    requires paused' ==> (paused && lastPause' == lastPause) || (r.event == HandlerPauses && lastPause' == |prev|)
    ensures Pending(prev + [r], paused', reading', recognizing', voskTest', srTest', lastPause')
  {
    var trace := prev + [r];
    assert forall j :: 0 <= j < |prev| ==> trace[j] == prev[j];
    assert trace[|prev|] == r;
  }

  /** `calls` extends `calls0`, and every agent call made since happened while the listener was paused. */
  ghost predicate PausedSince(calls0: seq<AgentCall>, calls: seq<AgentCall>) {
    |calls0| <= |calls| && calls[..|calls0|] == calls0
    && forall c :: c in calls[|calls0|..] ==> c.listenerPaused
  }

  /** Calls made while paused, after calls that were, keep every call since `calls0` paused. */
  lemma PausedSinceExtend(calls0: seq<AgentCall>, before: seq<AgentCall>, after: seq<AgentCall>)
    requires PausedSince(calls0, before)
    requires |before| <= |after| && after[..|before|] == before
    requires forall c :: c in after[|before|..] ==> c.listenerPaused
    ensures PausedSince(calls0, after)
  {
    assert after[..|calls0|] == before[..|calls0|];
    assert after[|calls0|..] == before[|calls0|..] + after[|before|..];
  }

  /** Everything the steps of `trace` put on the queue, in order. */
  ghost function Puts(trace: seq<Record>): seq<string> {
    if trace == [] then [] else Puts(trace[..|trace| - 1]) + trace[|trace| - 1].enqueued
  }

  /** One more step adds its own puts behind the earlier ones. */
  lemma PutsAppend(prev: seq<Record>, r: Record)
    ensures Puts(prev + [r]) == Puts(prev) + r.enqueued
  {
    assert (prev + [r])[..|prev|] == prev;
  }

  /** Whatever the steps put was put by one of them. */
  lemma {:induction false} PutsFrom(trace: seq<Record>, t: string)
    requires t in Puts(trace)
    ensures exists j :: 0 <= j < |trace| && t in trace[j].enqueued
  {
    var last := |trace| - 1;
    if t !in trace[last].enqueued {
      PutsFrom(trace[..last], t);
      var j :| 0 <= j < last && t in trace[..last][j].enqueued;
      assert trace[j] == trace[..last][j];
    }
  }

  /**
    * The queue as a window on `all`, everything there was and everything
    * put since: one step appends its puts at the back, takes one from the
    * front, or leaves the queue alone, and the window follows.
    */
  lemma QueueWindow(all: seq<string>, n: nat, before: seq<string>, after: seq<string>, added: seq<string>)
    returns (n': nat)
    requires n <= |all| && before == all[n..]
    requires || after == before + added
             || (added == [] && before != [] && after == before[1..])
    ensures n <= n' <= |all + added| && after == (all + added)[n'..]
  {
    if after == before + added {
      n' := n;
      assert all[n..] + added == (all + added)[n..];
    } else {
      n' := n + 1;
      assert all + added == all;
    }
  }

  /** The queue `q` is `queue0` followed by the puts of `trace`, less the first `n`. */
  ghost predicate Window(queue0: seq<string>, trace: seq<Record>, n: nat, q: seq<string>) {
    n <= |queue0 + Puts(trace)| && q == (queue0 + Puts(trace))[n..]
  }

  /** The window after one more step `r` of the trace, which changed the queue from `before` to `after` as `Act` says. */
  lemma QueueStep(queue0: seq<string>, prev: seq<Record>, r: Record, n: nat, before: seq<string>, after: seq<string>)
    returns (n': nat)
    requires Window(queue0, prev, n, before)
    requires r.enqueued != [] ==> r.event.VoskDelivers? || r.event.SrDelivers?
    requires (r.event.VoskDelivers? || r.event.SrDelivers?) ==> after == before + r.enqueued
    requires r.event.HandlerTakes? ==> after == before || (before != [] && after == before[1..])
    requires !(r.event.VoskDelivers? || r.event.SrDelivers? || r.event.HandlerTakes?) ==> after == before
    ensures Window(queue0, prev + [r], n', after)
  {
    PutsAppend(prev, r);
    AppendAssoc(queue0, Puts(prev), r.enqueued);
    n' := QueueWindow(queue0 + Puts(prev), n, before, after, r.enqueued);
  }

  /** Every string in a window on the old queue and the puts was in the old queue or put by some step. */
  lemma QueueMembers(queue0: seq<string>, trace: seq<Record>, n: nat, q: seq<string>)
    requires Window(queue0, trace, n, q)
    ensures forall t :: t in q ==> t in queue0 || exists k :: 0 <= k < |trace| && t in trace[k].enqueued
  {
    forall t | t in q
      ensures t in queue0 || exists k :: 0 <= k < |trace| && t in trace[k].enqueued
    {
      assert t in queue0 + Puts(trace);
      if t !in queue0 {
        PutsFrom(trace, t);
      }
    }
  }

  /**
    * Runs the events in order, starting with both listeners between passes.
    * The flag stays coupled to the handler's stage and every agent call
    * happens with the listener paused. Only a listener's put adds to the
    * queue, never an empty string, and its pass was let through by a test
    * that found the flag clear. A put can still land while the flag is set,
    * but only when the handler set it after that test. The queue is what it
    * held before followed by the trace's puts, less what the handler took
    * from the front.
    */
  method Interleave(ch: Channel, h: Handler, vosk: VoskListener, sr: SrListener, events: seq<Event>)
    returns (trace: seq<Record>)
    requires Coupled(h, ch) && !vosk.reading && sr.stage == Between
    modifies ch, h, vosk, sr
    ensures Coupled(h, ch)
    ensures |trace| == |events|
    ensures forall k :: 0 <= k < |trace| ==> trace[k].event == events[k]
    ensures forall k :: 0 <= k < |trace| && trace[k].enqueued != [] ==>
              && (trace[k].event.VoskDelivers? || trace[k].event.SrDelivers?)
              && 0 <= trace[k].testedAt < k
              && TestFor(trace[k].event, trace[trace[k].testedAt].event)
              && !trace[trace[k].testedAt].paused
    ensures forall k :: 0 <= k < |trace| ==> forall t :: t in trace[k].enqueued ==> t != ""
    ensures forall k :: 0 <= k < |trace| && trace[k].enqueued != [] && trace[k].paused ==>
              exists j :: trace[k].testedAt < j < k && trace[j].event == HandlerPauses
    ensures exists n :: 0 <= n <= |old(ch.utterances) + Puts(trace)|
                        && ch.utterances == (old(ch.utterances) + Puts(trace))[n..]
    ensures forall t :: t in ch.utterances ==>
              t in old(ch.utterances) || exists k :: 0 <= k < |trace| && t in trace[k].enqueued
    ensures |old(h.calls)| <= |h.calls|
    ensures forall c :: c in h.calls[|old(h.calls)|..] ==> c.listenerPaused
  {
    ghost var calls0 := h.calls;
    ghost var queue0 := ch.utterances;
    ghost var taken: nat := 0;
    trace := [];
    var voskTest, srTest, lastPause := -1, -1, -1;
    while |trace| < |events|
      invariant Coupled(h, ch) && Follows(trace, events) && Explained(trace)
      invariant Pending(trace, ch.paused, vosk.reading, sr.stage.Recognizing?, voskTest, srTest, lastPause)
      invariant PausedSince(calls0, h.calls)
      // the queue is a window on what it held and what was put since
      invariant Window(queue0, trace, taken, ch.utterances)
      decreases |events| - |trace|
    {
      trace, taken, voskTest, srTest, lastPause :=
        Advance(ch, h, vosk, sr, events, trace, calls0, queue0, taken, voskTest, srTest, lastPause);
    }
    QueueMembers(queue0, trace, taken, ch.utterances);
  }

  /**
    * The step at index `|trace|` of the interleaving: `Act` on the next
    * event, with what it keeps of the trace, the passes under way, the
    * agent calls and the queue.
    */
  method Advance(ch: Channel, h: Handler, vosk: VoskListener, sr: SrListener, events: seq<Event>, trace: seq<Record>,
                 ghost calls0: seq<AgentCall>, ghost queue0: seq<string>, ghost taken: nat,
                 voskTest: int, srTest: int, lastPause: int)
    returns (trace': seq<Record>, ghost taken': nat, voskTest': int, srTest': int, lastPause': int)
    requires |trace| < |events|
    requires Coupled(h, ch) && Follows(trace, events) && Explained(trace)
    requires Pending(trace, ch.paused, vosk.reading, sr.stage.Recognizing?, voskTest, srTest, lastPause)
    requires PausedSince(calls0, h.calls) && Window(queue0, trace, taken, ch.utterances)
    modifies ch, h, vosk, sr
    ensures |trace'| == |trace| + 1
    ensures Coupled(h, ch) && Follows(trace', events) && Explained(trace')
    ensures Pending(trace', ch.paused, vosk.reading, sr.stage.Recognizing?, voskTest', srTest', lastPause')
    ensures PausedSince(calls0, h.calls) && Window(queue0, trace', taken', ch.utterances)
  {
    var k := |trace|;
    ghost var before, calls := ch.utterances, h.calls;
    ghost var paused, reading, recognizing := ch.paused, vosk.reading, sr.stage.Recognizing?;
    var r;
    r, voskTest', srTest', lastPause' := Act(ch, h, vosk, sr, events[k], k, voskTest, srTest, lastPause);
    if r.enqueued != [] && r.paused {
      assert r.testedAt < lastPause < k && trace[lastPause].event == HandlerPauses;
    }
    Extend(trace, r);
    FollowsExtend(trace, r, events);
    PendingStep(trace, r, paused, reading, recognizing, voskTest, srTest, lastPause,
                ch.paused, vosk.reading, sr.stage.Recognizing?, voskTest', srTest', lastPause');
    PausedSinceExtend(calls0, calls, h.calls);
    taken' := QueueStep(queue0, trace, r, taken, before, ch.utterances);
    trace' := trace + [r];
  }

  lemma AppendAssoc<T>(a: seq<T>, b: seq<T>, c: seq<T>)
    ensures (a + b) + c == a + (b + c)
  {
  }

  /**
    * One step of the interleaving. `voskTest`, `srTest` and `lastPause` are
    * the indices of the last test that let a Vosk pass through, of the last
    * test that let a recognition start, and of the step that last set the
    * flag; they come back updated with this step's index `k`.
    */
  method Act(ch: Channel, h: Handler, vosk: VoskListener, sr: SrListener, e: Event, k: int,
             voskTest: int, srTest: int, lastPause: int)
    returns (r: Record, voskTest': int, srTest': int, lastPause': int)
    requires Coupled(h, ch)
    modifies ch, h, vosk, sr
    ensures Coupled(h, ch)
    ensures r.event == e && r.paused == old(ch.paused)
    ensures forall t :: t in r.enqueued ==> t != ""
    ensures r.enqueued != [] ==>
              || (e.VoskDelivers? && old(vosk.reading) && r.testedAt == voskTest)
              || (e.SrDelivers? && old(sr.stage).Recognizing? && r.testedAt == srTest)
    ensures vosk.reading ==>
              || (old(vosk.reading) && voskTest' == voskTest)
              || (e.VoskChecks? && !old(ch.paused) && voskTest' == k)
    ensures sr.stage.Recognizing? ==>
              || (old(sr.stage).Recognizing? && srTest' == srTest)
              || (e.SrRechecks? && !old(ch.paused) && srTest' == k)
    ensures ch.paused ==> (old(ch.paused) && lastPause' == lastPause) || (e == HandlerPauses && lastPause' == k)
    ensures (e.VoskDelivers? || e.SrDelivers?) ==> ch.utterances == old(ch.utterances) + r.enqueued
    ensures e.HandlerTakes? ==>
              ch.utterances == old(ch.utterances) || (old(ch.utterances) != [] && ch.utterances == old(ch.utterances)[1..])
    ensures !(e.VoskDelivers? || e.SrDelivers? || e.HandlerTakes?) ==> ch.utterances == old(ch.utterances)
    ensures |old(h.calls)| <= |h.calls| && h.calls[..|old(h.calls)|] == old(h.calls)
    ensures forall c :: c in h.calls[|old(h.calls)|..] ==> c.listenerPaused
  {
    var before, paused := ch.utterances, ch.paused;
    var testedAt := -1;
    voskTest', srTest', lastPause' := voskTest, srTest, lastPause;
    match e {
      case VoskChecks =>
        var wasReading := vosk.reading;
        vosk.Check(ch);
        if !wasReading && vosk.reading {
          voskTest' := k;
        }
      case VoskDelivers(c) =>
        testedAt := if vosk.reading then voskTest else -1;
        vosk.Deliver(ch, c);
      case SrStarts =>
        sr.StartCapture(ch);
      case SrRechecks(c) =>
        var wasListening := sr.stage.Listening?;
        sr.Recheck(ch, c);
        if wasListening && sr.stage.Recognizing? {
          srTest' := k;
        }
      case SrDelivers =>
        testedAt := if sr.stage.Recognizing? then srTest else -1;
        sr.Deliver(ch);
      case HandlerTakes =>
        var _ := h.Take(ch);
      case HandlerPauses =>
        var wasPaused := ch.paused;
        var _ := h.Pause(ch);
        if !wasPaused && ch.paused {
          lastPause' := k;
        }
      case HandlerFinishes(o, ok) =>
        var _ := h.Finish(ch, o, ok);
    }
    var enqueued := if e.VoskDelivers? || e.SrDelivers? then ch.utterances[|before|..] else [];
    r := Record(e, paused, enqueued, testedAt);
  }

  /**
    * The window is real: the Vosk thread tests the flag, the handler takes
    * `u1` and pauses the listener, and the chunk that then arrives puts `u2`
    * on the queue while the handler works on `u1` with the flag set.
    */
  method PauseWindow() returns (ch: Channel, h: Handler)
    ensures ch.paused && h.stage == Working("u1") && ch.utterances == ["u2"]
  {
    ch := new Channel();
    ch.utterances := ["u1"];
    h := new Handler(true);
    var vosk := new VoskListener();
    vosk.Check(ch);
    var _ := h.Take(ch);
    var _ := h.Pause(ch);
    vosk.Deliver(ch, Chunk(4000, Some("u2")));
  }
}
