/**
  * The camera loop of `agent.py` (`VideoAgent.display_loop`). Each pass reads
  * a frame, recognises the faces in it, updates the visitor dictionary and
  * log, serves at most one frame request from the speech side, and stops on
  * the `q` key or a keyboard interrupt, releasing the camera once on the way
  * out. The camera, the face model and the keyboard are inputs: one `Tick`
  * per pass.
  */
module Agent {
  import opened Options
  import opened Visitors
  import opened FrameQueues
  import FaceMatch

  /** The `grace_period_sec` the camera loop passes to `update_visitors`. */
  const GracePeriodSec: int := 20
  /** `ord("q")`. */
  const QuitKey: int := 113

  /**
    * What happened to one detected face: its similarities to the known faces,
    * or an exception while it was recognised or drawn (an exception from
    * `face_model.get` itself is a first face that raises).
    */
  datatype FaceOutcome = Scores(scores: seq<FaceMatch.Scored>) | Raises

  /**
    * One pass of the loop: the frame `cap.read()` gave (`None` when it failed),
    * the faces found in it, the clock, the visitors whose log append raises,
    * and the code `cv2.waitKey(1)` returned; or a keyboard interrupt.
    */
  datatype Tick =
    | Tick(grabbed: Option<Frame>, faces: seq<FaceOutcome>, now: int, logFailing: set<string>, key: int)
    | Interrupted

  /** The names appended by the recognition loop: one per face, up to the first exception. */
  function Names(faces: seq<FaceOutcome>): seq<string>
    decreases |faces|
  {
    if faces == [] then []
    else
      match faces[0]
      case Raises => []
      case Scores(s) => [FaceMatch.Recognize(s, FaceMatch.FaceRecogThreshold).0] + Names(faces[1..])
  }

  /** `cv2.waitKey(1) & 0xFF == ord("q")`; `& 0xFF` keeps the low byte, also of the `-1` for no key. */
  predicate Quits(key: int) {
    key % 256 == QuitKey
  }

  /**
    * Only the low byte of the key code counts: no key pressed (`-1`) does not
    * quit, `q` does, and so does `q` with higher bits set.
    */
  lemma QuitsLowByte(key: int)
    ensures !Quits(-1) && Quits(QuitKey)
    ensures Quits(key) <==> Quits(key % 0x100)
    ensures Quits(key + 0x100) <==> Quits(key)
  {
  }

  /** What the loop puts on the response queue for a request: a frame copy, the encoded frame, or nothing. */
  function Answer(request: string, frame: Frame): (r: seq<Response>)
    ensures request == Capture <==> r == [FrameCopy(frame)]
    ensures request == GetFrame <==> r == [Jpeg(frame)]
    ensures request != Capture && request != GetFrame <==> r == []
  {
    if request == Capture then [FrameCopy(frame)]
    else if request == GetFrame then [Jpeg(frame)]
    else []
  }

  /** Everything the camera loop reads and writes besides the camera itself. */
  datatype World = World(visitors: Dict, sessions: seq<Session>, requests: seq<string>, responses: seq<Response>)

  /** `update_visitors` and the log appends of one pass. */
  function Track(w: World, names: seq<string>, now: int, failing: set<string>): World {
    w.(visitors := Updated(w.visitors, names, now, GracePeriodSec),
       sessions := w.sessions + Written(NewSessions(w.visitors, names, now, GracePeriodSec), failing))
  }

  /**
    * Tracking the names of a pass leaves the frame queues alone, only adds to
    * the log, keeps the dictionary well formed, and keeps every detected
    * name other than "Unknown" with `last_seen` set to the pass's time.
    */
  lemma TrackFacts(w: World, names: seq<string>, now: int, failing: set<string>)
    requires WellFormed(w.visitors)
    ensures var t := Track(w, names, now, failing);
            && t.requests == w.requests && t.responses == w.responses
            && w.sessions <= t.sessions
            && WellFormed(t.visitors)
            && forall n :: n in names && n != Unknown ==> n in t.visitors.entries && t.visitors.entries[n].lastSeen == now
  {
    UpdatedWellFormed(w.visitors, names, now, GracePeriodSec);
    forall n | n in names && n != Unknown
      ensures var u := Updated(w.visitors, names, now, GracePeriodSec); n in u.entries && u.entries[n].lastSeen == now
    {
      DetectedStays(w.visitors, names, now, GracePeriodSec, n);
    }
  }

  /** The request servicing of one pass: the front request, if any, is taken and answered with `frame`. */
  function Serve(w: World, frame: Frame): World {
    if w.requests == [] then w
    else w.(requests := w.requests[1..], responses := w.responses + Answer(w.requests[0], frame))
  }

  /** The effect of one pass on the world. */
  function Pass(w: World, t: Tick): World {
    match t
    case Interrupted => w
    case Tick(grabbed, faces, now, failing, _) =>
      if grabbed == None then w
      else Serve(Track(w, Names(faces), now, failing), grabbed.value)
  }

  /** Whether the loop stops after this pass. */
  predicate Ends(t: Tick) {
    t.Interrupted? || (t.grabbed.Some? && Quits(t.key))
  }

  /** Where the loop is after the passes it was given: the world, the passes run, and whether it stopped. */
  datatype Finish = Finish(world: World, used: nat, quit: bool)

  /** The loop from pass `i` on. */
  function Loop(w: World, ticks: seq<Tick>, i: nat): Finish
    requires i <= |ticks|
    decreases |ticks| - i
  {
    if i == |ticks| then Finish(w, i, false)
    else
      var next := Pass(w, ticks[i]);
      if Ends(ticks[i]) then Finish(next, i + 1, true)
      else Loop(next, ticks, i + 1)
  }

  // ---- properties ----------------------------------------------------------

  /**
    * The recognition loop keeps one name per face up to the first exception:
    * the name `recognize_face` gives that face, and nothing from the failing
    * face or any after it.
    */
  lemma {:induction false} NamesBeforeFailure(faces: seq<FaceOutcome>)
    ensures |Names(faces)| <= |faces|
    ensures forall k :: 0 <= k < |Names(faces)| ==>
              faces[k].Scores? && Names(faces)[k] == FaceMatch.Recognize(faces[k].scores, FaceMatch.FaceRecogThreshold).0
    ensures forall k :: 0 <= k < |faces| && faces[k].Raises? ==> |Names(faces)| <= k
    ensures (forall k :: 0 <= k < |faces| ==> faces[k].Scores?) ==> |Names(faces)| == |faces|
    decreases |faces|
  {
    if faces != [] && faces[0].Scores? {
      NamesBeforeFailure(faces[1..]);
      forall k | 0 <= k < |faces| && faces[k].Raises? ensures |Names(faces)| <= k {
        assert faces[1..][k - 1] == faces[k];
      }
    }
  }

  /** Passes whose frame read fails (or that are interrupted) leave the world as it was. */
  lemma {:induction false} FailedReadsChangeNothing(w: World, ticks: seq<Tick>, i: nat)
    requires i <= |ticks|
    requires forall k :: i <= k < |ticks| ==> ticks[k].Interrupted? || ticks[k].grabbed == None
    ensures Loop(w, ticks, i).world == w
    decreases |ticks| - i
  {
    if i < |ticks| && !Ends(ticks[i]) {
      FailedReadsChangeNothing(w, ticks, i + 1);
    }
  }

  /** `a` is what remains of `b` after some of its front entries were taken. */
  predicate Suffix(a: seq<string>, b: seq<string>) {
    |a| <= |b| && a == b[|b| - |a|..]
  }

  lemma SuffixTransitive(a: seq<string>, b: seq<string>, c: seq<string>)
    requires Suffix(a, b) && Suffix(b, c)
    ensures Suffix(a, c)
  {
    assert c[|c| - |b|..][|b| - |a|..] == c[|c| - |a|..];
  }

  lemma PrefixTransitive<T>(a: seq<T>, b: seq<T>, c: seq<T>)
    requires a <= b && b <= c
    ensures a <= c
  {
    assert c[..|b|][..|a|] == c[..|a|];
  }

  /**
    * One pass takes at most the front request and appends at most one
    * response, a frame the pass read; the log only grows.
    */
  lemma PassFacts(w: World, t: Tick)
    ensures var n := Pass(w, t);
            && Suffix(n.requests, w.requests)
            && |w.requests| <= |n.requests| + 1
            && w.responses <= n.responses
            && |n.responses| - |w.responses| <= |w.requests| - |n.requests|
            && (forall r :: r in n.responses[|w.responses|..] ==> t.Tick? && t.grabbed == Some(r.frame))
            && w.sessions <= n.sessions
  {
    if t.Tick? && t.grabbed != None {
      var m := Track(w, Names(t.faces), t.now, t.logFailing);
      assert m.requests == w.requests && m.responses == w.responses && w.sessions <= m.sessions;
      assert Pass(w, t) == Serve(m, t.grabbed.value);
    }
  }

  /**
    * Over any run requests are taken from the front, at most one per pass,
    * and each taken request gives at most one response, appended behind the
    * earlier ones; the log only grows.
    */
  lemma {:induction false} LoopQueues(w: World, ticks: seq<Tick>, i: nat)
    requires i <= |ticks|
    ensures var f := Loop(w, ticks, i);
            && Suffix(f.world.requests, w.requests)
            && |w.requests| - |f.world.requests| <= f.used - i
            && w.responses <= f.world.responses
            && |f.world.responses| - |w.responses| <= |w.requests| - |f.world.requests|
            && w.sessions <= f.world.sessions
  {
    LoopQueued(w, ticks, i);
  }

  lemma {:induction false} LoopQueued(w: World, ticks: seq<Tick>, i: nat)
    requires i <= |ticks|
    ensures var f := Loop(w, ticks, i);
            Queued(w, f.world, f.used - i)
    decreases |ticks| - i
  {
    var f := Loop(w, ticks, i);
    if i < |ticks| {
      var next := Pass(w, ticks[i]);
      PassQueued(w, ticks[i]);
      if Ends(ticks[i]) {
        assert f == Finish(next, i + 1, true);
      } else {
        LoopQueued(next, ticks, i + 1);
        assert f == Loop(next, ticks, i + 1);
        QueuedTransitive(w, next, f.world, 1, f.used - (i + 1));
      }
    } else {
      assert f == Finish(w, i, false);
    }
  }

  /**
    * From `a` to `b` requests were taken from the front, at most `passes` of
    * them, each giving at most one response appended behind the earlier ones,
    * and the log only grew.
    */
  predicate Queued(a: World, b: World, passes: int) {
    && Suffix(b.requests, a.requests)
    && |a.requests| - |b.requests| <= passes
    && a.responses <= b.responses
    && |b.responses| - |a.responses| <= |a.requests| - |b.requests|
    && a.sessions <= b.sessions
  }

  lemma PassQueued(w: World, t: Tick)
    ensures Queued(w, Pass(w, t), 1)
  {
    PassFacts(w, t);
  }

  lemma QueuedTransitive(a: World, b: World, c: World, p: int, q: int)
    requires Queued(a, b, p) && Queued(b, c, q)
    ensures Queued(a, c, p + q)
  {
    SuffixTransitive(c.requests, b.requests, a.requests);
    PrefixTransitive(a.responses, b.responses, c.responses);
    PrefixTransitive(a.sessions, b.sessions, c.sessions);
  }

  /** Every response the loop puts is the frame read by one of the passes it ran. */
  lemma {:induction false} LoopAnswersWithFrames(w: World, ticks: seq<Tick>, i: nat)
    requires i <= |ticks|
    ensures var f := Loop(w, ticks, i);
            && i <= f.used <= |ticks|
            && w.responses <= f.world.responses
            && forall r :: r in f.world.responses[|w.responses|..] ==>
                 exists k :: i <= k < f.used && ticks[k].Tick? && ticks[k].grabbed == Some(r.frame)
  {
    LoopAnswered(w, ticks, i);
    var f := Loop(w, ticks, i);
    AnsweredUnpack(w.responses, f.world.responses, ticks, i, f.used);
  }

  lemma {:induction false} LoopAnswered(w: World, ticks: seq<Tick>, i: nat)
    requires i <= |ticks|
    ensures var f := Loop(w, ticks, i);
            i <= f.used <= |ticks| && Answered(w.responses, f.world.responses, ticks, i, f.used)
    decreases |ticks| - i
  {
    var f := Loop(w, ticks, i);
    if i < |ticks| {
      var next := Pass(w, ticks[i]);
      PassAnswered(w, ticks, i);
      if Ends(ticks[i]) {
        assert f == Finish(next, i + 1, true);
      } else {
        LoopAnswered(next, ticks, i + 1);
        assert f == Loop(next, ticks, i + 1);
        AnsweredTransitive(w.responses, next.responses, f.world.responses, ticks, i, i + 1, f.used);
      }
    } else {
      assert f == Finish(w, i, false);
    }
  }

  /** `b` extends `a`, and each response it adds is the frame grabbed by one of the passes `lo` to `hi - 1`. */
  predicate Answered(a: seq<Response>, b: seq<Response>, ticks: seq<Tick>, lo: nat, hi: nat) {
    && a <= b
    && forall r :: r in b[|a|..] ==>
         exists k :: lo <= k < hi && k < |ticks| && ticks[k].Tick? && ticks[k].grabbed == Some(r.frame)
  }

  lemma PassAnswered(w: World, ticks: seq<Tick>, i: nat)
    requires i < |ticks|
    ensures Answered(w.responses, Pass(w, ticks[i]).responses, ticks, i, i + 1)
  {
    PassFacts(w, ticks[i]);
  }

  lemma AnsweredUnpack(a: seq<Response>, b: seq<Response>, ticks: seq<Tick>, lo: nat, hi: nat)
    requires hi <= |ticks| && Answered(a, b, ticks, lo, hi)
    ensures forall r :: r in b[|a|..] ==>
              exists k :: lo <= k < hi && ticks[k].Tick? && ticks[k].grabbed == Some(r.frame)
  {
  }

  lemma AnsweredTransitive(a: seq<Response>, b: seq<Response>, c: seq<Response>, ticks: seq<Tick>, lo: nat, mid: nat, hi: nat)
    requires lo <= mid <= hi
    requires Answered(a, b, ticks, lo, mid) && Answered(b, c, ticks, mid, hi)
    ensures Answered(a, c, ticks, lo, hi)
  {
    PrefixTransitive(a, b, c);
    assert c[|a|..] == b[|a|..] + c[|b|..];
  }

  /** The loop stops right after the first pass that quits, and runs every pass when none does. */
  lemma LoopStops(w: World, ticks: seq<Tick>, i: nat)
    requires i <= |ticks|
    ensures var f := Loop(w, ticks, i);
            && i <= f.used <= |ticks|
            && (forall k :: i <= k < f.used - 1 ==> !Ends(ticks[k]))
            && (f.quit <==> f.used > i && Ends(ticks[f.used - 1]))
            && (!f.quit ==> f.used == |ticks|)
  {
    LoopUsed(w, ticks, i);
    LoopPassesBeforeEnd(w, ticks, i);
  }

  /** How many passes ran and whether the loop quit. */
  lemma {:induction false} LoopUsed(w: World, ticks: seq<Tick>, i: nat)
    requires i <= |ticks|
    ensures var f := Loop(w, ticks, i);
            && i <= f.used <= |ticks|
            && (f.quit <==> f.used > i && Ends(ticks[f.used - 1]))
            && (!f.quit ==> f.used == |ticks|)
    decreases |ticks| - i
  {
    if i < |ticks| && !Ends(ticks[i]) {
      LoopUsed(Pass(w, ticks[i]), ticks, i + 1);
    }
  }

  /** No pass before the last one quits. */
  lemma {:induction false} LoopPassesBeforeEnd(w: World, ticks: seq<Tick>, i: nat)
    requires i <= |ticks|
    ensures forall k :: i <= k < |ticks| && k < Loop(w, ticks, i).used - 1 ==> !Ends(ticks[k])
    decreases |ticks| - i
  {
    if i < |ticks| && !Ends(ticks[i]) {
      LoopPassesBeforeEnd(Pass(w, ticks[i]), ticks, i + 1);
      LoopUsed(Pass(w, ticks[i]), ticks, i + 1);
    }
  }

  // ---- the object ------------------------------------------------------------

  class VideoAgent {
    /** `self.active_visitors`. */
    const active: ActiveVisitors
    /** The visitor log file. */
    const log: VisitorLog
    /** `frame_request_queue` and `frame_response_queue`. */
    const ex: FrameExchange
    /** How many times the camera has been released. */
    var releases: nat

    ghost predicate Valid()
      reads this, active
    {
      active.Valid()
    }

    function Current(): World
      reads this, active, log, ex
    {
      World(active.Value(), log.sessions, ex.requests, ex.responses)
    }

    /** `__init__`: an empty visitor dictionary and empty frame queues, over the existing log. */
    constructor (log: VisitorLog)
      ensures Valid() && this.log == log && releases == 0
      ensures Current() == World(Dict([], map[]), log.sessions, [], [])
    {
      active := new ActiveVisitors();
      this.log := log;
      ex := new FrameExchange();
      releases := 0;
    }

    /** The recognition loop over the faces of a frame. */
    static method CollectNames(faces: seq<FaceOutcome>) returns (names: seq<string>)
      ensures names == Names(faces)
    {
      names := [];
      var i := 0;
      while i < |faces|
        invariant 0 <= i <= |faces|
        invariant names + Names(faces[i..]) == Names(faces)
      {
        match faces[i] {
          case Raises =>
            assert Names(faces[i..]) == [];
            return;
          case Scores(s) =>
            var name, _ := FaceMatch.RecognizeFace(s, FaceMatch.FaceRecogThreshold);
            assert Names(faces[i..]) == [name] + Names(faces[i + 1..]);
            names := names + [name];
        }
        i := i + 1;
      }
    }

    /** One pass of `while True`; `ended` says whether the loop stops after it. */
    method Step(t: Tick) returns (ended: bool)
      requires Valid()
      modifies active, log, ex
      ensures Valid()
      ensures Current() == Pass(old(Current()), t)
      ensures ended == Ends(t)
    {
      if t.Interrupted? {
        return true;
      }
      if t.grabbed == None {
        return false;
      }
      var frame := t.grabbed.value;
      var names := CollectNames(t.faces);
      UpdateVisitors(names, active, log, GracePeriodSec, t.now, t.logFailing);
      var request := ex.TakeRequest();
      if request.Some? {
        if request.value == Capture {
          ex.PutResponse(FrameCopy(frame));
        } else if request.value == GetFrame {
          ex.PutResponse(Jpeg(frame));
        }
      }
      ended := Quits(t.key);
    }

    /**
      * `display_loop` over the passes `ticks`: nothing happens when the camera
      * does not open; otherwise the passes run until one quits, and the
      * camera is released once when the loop is left. A loop that has used up
      * `ticks` without quitting is still running.
      */
    method DisplayLoop(cameraOpens: bool, ticks: seq<Tick>) returns (used: nat, quit: bool)
      requires Valid()
      modifies this, active, log, ex
      ensures Valid()
      ensures !cameraOpens ==> used == 0 && !quit && Current() == old(Current()) && releases == old(releases)
      ensures cameraOpens ==>
                Finish(Current(), used, quit) == Loop(old(Current()), ticks, 0)
                && releases == old(releases) + (if quit then 1 else 0)
    {
      if !cameraOpens {
        return 0, false;
      }
      ghost var start := Current();
      var i := 0;
      quit := false;
      while i < |ticks| && !quit
        invariant 0 <= i <= |ticks| && Valid() && releases == old(releases)
        invariant !quit ==> Loop(Current(), ticks, i) == Loop(start, ticks, 0)
        invariant quit ==> Finish(Current(), i, true) == Loop(start, ticks, 0)
        decreases |ticks| - i
      {
        quit := Step(ticks[i]);
        i := i + 1;
      }
      used := i;
      if quit {
        releases := releases + 1;
      }
    }
  }
}
