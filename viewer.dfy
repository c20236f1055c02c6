/**
  * `view_items.py`: the interactive item viewer. It walks a list of item ids
  * with an index `i`, shows each item that still has a row, and reacts to one
  * key per shown item: `q` quits, `n` moves on, `d` deletes and moves on, any
  * other key shows the same item again. Its standard output ends with
  * `Deleted N items.`, which the tool that launched it reads back.
  */
module Viewer {
  import opened Text
  import opened Database

  /**
    * What follows a counted deletion: the `DELETED` overlay is shown for
    * 0.8 s, drawing it raises, or a keyboard interrupt arrives while it waits.
    */
  datatype Feedback = Shown | Raised(message: string) | Interrupted

  /**
    * Where in the `try` body an exception is raised: in the `SELECT` that
    * looks the row up, before it is known whether the row exists, or after
    * the row was found, while the item is drawn, shown or waits for its key.
    */
  datatype Stage = Lookup | Display

  /**
    * What the loop consumes for one item: a key press (with, for `d`, the
    * circumstances of the deletion and of the feedback after it), an
    * exception, or a keyboard interrupt, each of the last two at a stage.
    */
  datatype Event = Key(key: char, deletion: Deletion, feedback: Feedback) | Fault(message: string, stage: Stage) | Interrupt(stage: Stage)
  {
    /** An exception raised by the lookup itself, which comes whether or not the row is there. */
    predicate InLookup() {
      !Key? && stage.Lookup?
    }
  }

  /** One line of standard output: a `print` of the viewer, or a record of the logger, which writes there too. */
  datatype Line =
    | NoIds
    | Starting(ids: seq<int>)
    | ViewError(id: int, message: string)
    | DeletedTotal(count: nat)
    | Logged(entry: LogEntry)

  /**
    * The loop state: index `i`, `deleted_count`, the table, the events not yet
    * consumed, the positions shown so far, the lines printed, and whether
    * the loop has stopped on a quit (`q` or an interrupt) or is blocked waiting
    * for a key that never comes.
    */
  datatype State = State(i: nat, deleted: nat, rows: seq<Row>, events: seq<Event>,
                         shown: seq<nat>, printed: seq<Line>, quit: bool, waiting: bool)

  /** What a run of the viewer leaves behind. */
  datatype Outcome = Outcome(rows: seq<Row>, shown: seq<nat>, deleted: nat, lines: seq<Line>, finished: bool)

  /** The `SELECT ... WHERE id = ?` lookup: whether a row with this id exists. */
  predicate HasRow(rows: seq<Row>, id: int) {
    exists x :: x in rows && x.id == id
  }

  function Init(rows: seq<Row>, events: seq<Event>): State {
    State(0, 0, rows, events, [], [], false, false)
  }

  /** Log entries as printed lines. */
  function AsLines(log: seq<LogEntry>): seq<Line> {
    seq(|log|, k requires 0 <= k < |log| => Logged(log[k]))
  }

  /** One pass of the `while i < len(items_to_view)` body. */
  function Step(ids: seq<int>, s: State): State
    requires s.i < |ids|
  {
    var id := ids[s.i];
    if s.events != [] && s.events[0].InLookup() then Raised(s, id)
    else if !HasRow(s.rows, id) then s.(i := s.i + 1)
    else if s.events == [] then s.(waiting := true)
    else if !s.events[0].Key? then Raised(s, id)
    else
      var e := s.events[0];
      var seen := s.(events := s.events[1..], shown := s.shown + [s.i]);
      if e.key == 'q' then seen.(quit := true)
      else if e.key == 'n' then seen.(i := s.i + 1)
      else if e.key == 'd' then Pressed(seen, id, e.deletion, e.feedback)
      else seen
  }

  /**
    * An exception raised in the `try` body for item `id`: while its row is
    * looked up, which may be a row that is gone, or while it is on screen.
    * An interrupt stops the loop; any other exception prints an error line
    * and moves on.
    */
  function Raised(s: State, id: int): State
    requires s.events != [] && !s.events[0].Key?
  {
    match s.events[0]
    case Interrupt(_) => s.(events := s.events[1..], quit := true)
    case Fault(m, _) => s.(events := s.events[1..], i := s.i + 1, printed := s.printed + [ViewError(id, m)])
  }

  /** The `d` key on item `id`: what `delete_item` logged and, after a counted deletion, the overlay's outcome. */
  function Pressed(s: State, id: int, d: Deletion, fb: Feedback): State {
    var logged := s.(printed := s.printed + AsLines(DeleteLog(s.rows, id, d)));
    if !d.fault.NoFault? then logged.(i := s.i + 1)
    else Overlaid(logged.(deleted := s.deleted + 1, rows := WithoutId(s.rows, id)), id, fb)
  }

  /** The `DELETED` overlay on item `id`: shown, then on to the next item; an error line, then on; or a quit. */
  function Overlaid(s: State, id: int, fb: Feedback): State {
    match fb
    case Shown => s.(i := s.i + 1)
    case Raised(m) => s.(i := s.i + 1, printed := s.printed + [ViewError(id, m)])
    case Interrupted => s.(quit := true)
  }

  predicate Stopped(s: State) {
    s.quit || s.waiting
  }

  /** The loop run to its end. */
  function Run(ids: seq<int>, s: State): State
    requires s.i <= |ids|
    decreases |ids| - s.i + |s.events|, if Stopped(s) then 0 else 1
  {
    if s.i == |ids| || Stopped(s) then s
    else Run(ids, Step(ids, s))
  }

  /**
    * `main()`: the lines written to standard output, the table afterwards,
    * and whether the viewer returned. Opening the store (`ItemDatabase(...)`)
    * logs one entry before the start line.
    */
  function View(ids: seq<int>, rows: seq<Row>, events: seq<Event>, opening: Opening): Outcome {
    if ids == [] then Outcome(rows, [], 0, [NoIds], true)
    else
      var f := Run(ids, Init(rows, events));
      Outcome(f.rows, f.shown, f.deleted,
              [Logged(InitEntry(opening)), Starting(ids)] + f.printed
              + (if f.waiting then [] else [DeletedTotal(f.deleted)]),
              !f.waiting)
  }

  // ---- rendering of standard output ---------------------------------------

  /** The comma-separated body of Python's list repr. */
  function Items(ids: seq<int>): string {
    if ids == [] then ""
    else if |ids| == 1 then IntString(ids[0])
    else IntString(ids[0]) + ", " + Items(ids[1..])
  }

  /** The list rendered one id longer: the earlier rendering, a comma and a space, and the new id. */
  lemma {:induction false} ItemsAppend(ids: seq<int>, x: int)
    requires ids != []
    ensures Items(ids + [x]) == Items(ids) + ", " + IntString(x)
  {
    var head, sep, last := IntString(ids[0]), ", ", IntString(x);
    if |ids| > 1 {
      assert (ids + [x])[1..] == ids[1..] + [x];
      ItemsAppend(ids[1..], x);
      assert Items(ids + [x]) == head + sep + (Items(ids[1..]) + sep + last);
      assert Items(ids) == head + sep + Items(ids[1..]);
    } else {
      assert (ids + [x])[1..] == [x];
      assert Items(ids + [x]) == head + sep + last;
    }
  }

  function Render(line: Line): string {
    match line
    case NoIds => "No IDs provided."
    case Starting(ids) => "Starting viewer for IDs: [" + Items(ids) + "]"
    case ViewError(id, m) => "Error viewing item " + IntString(id) + ": " + m
    case DeletedTotal(n) => "Deleted " + Decimal(n) + " items."
    case Logged(e) => RenderEntry(e)
  }

  /** The captured standard output: each line followed by a newline. */
  function Stdout(lines: seq<Line>): string {
    if lines == [] then "" else Render(lines[0]) + "\n" + Stdout(lines[1..])
  }

  // ---- properties of the loop ---------------------------------------------

  /**
    * What every loop state satisfies. The deletions never outnumber the
    * positions passed, except for one more when an interrupt stops the loop
    * right after a deletion.
    */
  ghost predicate Sane(ids: seq<int>, s: State) {
    && s.i <= |ids|
    && (s.quit ==> s.i < |ids|)
    && s.deleted <= s.i + (if s.quit then 1 else 0)
    && (forall k :: 0 <= k < |s.shown| ==> s.shown[k] < |ids| && s.shown[k] <= s.i)
    && (forall k, l :: 0 <= k < l < |s.shown| ==> s.shown[k] <= s.shown[l])
  }

  /**
    * A move that advances `i` by at most one (or stops in place), shows at
    * most the current item, and counts a deletion only while advancing or
    * stopping.
    */
  predicate Move(s: State, t: State) {
    && ((t.i == s.i + 1 && !t.quit) || t.i == s.i)
    && (t.shown == s.shown || t.shown == s.shown + [s.i])
    && (t.deleted == s.deleted || (t.deleted == s.deleted + 1 && (t.i == s.i + 1 || t.quit)))
  }

  /** Such a move keeps the loop invariant. */
  lemma SaneMove(ids: seq<int>, s: State, t: State)
    requires Sane(ids, s) && s.i < |ids| && !s.quit
    requires Move(s, t)
    ensures Sane(ids, t)
  {
  }

  /** Every pass is such a move, taken branch by branch. */
  lemma StepMoves(ids: seq<int>, s: State)
    requires s.i < |ids| && !s.quit
    ensures Move(s, Step(ids, s))
  {
    var id := ids[s.i];
    if s.events != [] && (s.events[0].InLookup() || (HasRow(s.rows, id) && !s.events[0].Key?)) {
      RaisedMoves(s, id);
    } else if HasRow(s.rows, id) && s.events != [] && s.events[0].key == 'd' {
      var e := s.events[0];
      PressedMoves(s, s.(events := s.events[1..], shown := s.shown + [s.i]), id, e.deletion, e.feedback);
    }
  }

  lemma RaisedMoves(s: State, id: int)
    requires s.events != [] && !s.events[0].Key? && !s.quit
    ensures Move(s, Raised(s, id))
  {
  }

  lemma PressedMoves(s: State, seen: State, id: int, d: Deletion, fb: Feedback)
    requires s.events != [] && seen == s.(events := s.events[1..], shown := s.shown + [s.i]) && !s.quit
    ensures Move(s, Pressed(seen, id, d, fb))
  {
  }

  /** One pass keeps the state sane and never moves `i` back. */
  lemma StepSane(ids: seq<int>, s: State)
    requires Sane(ids, s) && s.i < |ids| && !Stopped(s)
    ensures Sane(ids, Step(ids, s)) && Step(ids, s).i >= s.i
    ensures s.shown <= Step(ids, s).shown
  {
    StepMoves(ids, s);
    SaneMove(ids, s, Step(ids, s));
  }

  /**
    * Index `i` never decreases, positions are shown in the given order, and the
    * deletions never outnumber the positions passed.
    */
  lemma {:induction false} RunSane(ids: seq<int>, s: State)
    requires Sane(ids, s)
    ensures Sane(ids, Run(ids, s)) && Run(ids, s).i >= s.i
    ensures s.shown <= Run(ids, s).shown
    decreases |ids| - s.i + |s.events|, if Stopped(s) then 0 else 1
  {
    if s.i < |ids| && !Stopped(s) {
      var t := Step(ids, s);
      StepSane(ids, s);
      RunSane(ids, t);
      RunUnfold(ids, s);
    }
  }

  /** The loop ends with `i` at the end of the list, or on a quit, or blocked on a key. */
  lemma {:induction false} RunEnds(ids: seq<int>, s: State)
    requires s.i <= |ids|
    ensures var f := Run(ids, s); f.i == |ids| || f.quit || f.waiting
    decreases |ids| - s.i + |s.events|, if Stopped(s) then 0 else 1
  {
    if s.i < |ids| && !Stopped(s) {
      RunEnds(ids, Step(ids, s));
    }
  }

  /** With no ids the viewer prints one line and returns without opening the store or viewing anything. */
  lemma NoIdsViewsNothing(rows: seq<Row>, events: seq<Event>, opening: Opening)
    ensures View([], rows, events, opening) == Outcome(rows, [], 0, [NoIds], true)
  {
  }

  /** The viewer visits ids in order, and reports at most as many deletions as it was given ids. */
  lemma ViewBounds(ids: seq<int>, rows: seq<Row>, events: seq<Event>, opening: Opening)
    ensures var o := View(ids, rows, events, opening);
            && o.deleted <= |ids|
            && (forall k :: 0 <= k < |o.shown| ==> o.shown[k] < |ids|)
            && (forall k, l :: 0 <= k < l < |o.shown| ==> o.shown[k] <= o.shown[l])
  {
    if ids != [] {
      RunSane(ids, Init(rows, events));
    }
  }

  /**
    * A returning viewer's output starts with the store's opening record and
    * the start line, and its last line is `Deleted N items.` with its
    * deletion count.
    */
  lemma FinalLine(ids: seq<int>, rows: seq<Row>, events: seq<Event>, opening: Opening)
    requires ids != []
    ensures var o := View(ids, rows, events, opening);
            && o.lines[0] == Logged(InitEntry(opening)) && o.lines[1] == Starting(ids)
            && (o.finished ==> o.lines[|o.lines| - 1] == DeletedTotal(o.deleted))
  {
  }

  /** A pass that is not the last one leaves the end of the run unchanged. */
  lemma RunUnfold(ids: seq<int>, s: State)
    requires s.i < |ids| && !Stopped(s)
    ensures Run(ids, s) == Run(ids, Step(ids, s))
  {
  }

  /**
    * A missing row, looked up without an exception, is skipped: `i` advances
    * and no event is consumed, so a key or an exception on screen goes to the
    * next item that is shown.
    */
  lemma MissingRowSkipped(ids: seq<int>, s: State)
    requires s.i < |ids| && !HasRow(s.rows, ids[s.i])
    requires s.events == [] || !s.events[0].InLookup()
    ensures Step(ids, s) == s.(i := s.i + 1)
  {
  }

  /** A key other than `q`, `n`, `d` shows the same item again. */
  lemma OtherKeyRepeats(ids: seq<int>, s: State, k: char, d: Deletion, fb: Feedback)
    requires s.i < |ids| && HasRow(s.rows, ids[s.i])
    requires s.events != [] && s.events[0] == Key(k, d, fb) && k !in {'q', 'n', 'd'}
    ensures Step(ids, s) == s.(events := s.events[1..], shown := s.shown + [s.i])
  {
  }

  /**
    * `d` prints what `delete_item` logged. A deletion that raises moves on
    * without counting. A deletion that succeeds removes the row and counts;
    * then the loop moves on, after an error line when drawing the overlay
    * raises, or stops when an interrupt arrives during the overlay's wait.
    */
  lemma DeleteAdvances(ids: seq<int>, s: State, d: Deletion, fb: Feedback)
    requires s.i < |ids| && HasRow(s.rows, ids[s.i])
    requires s.events != [] && s.events[0] == Key('d', d, fb)
    ensures var t := Step(ids, s);
            var logged := s.printed + AsLines(DeleteLog(s.rows, ids[s.i], d));
            && t.deleted == (if d.fault.NoFault? then s.deleted + 1 else s.deleted)
            && (d.fault.NoFault? ==> !HasRow(t.rows, ids[s.i]))
            && (!d.fault.NoFault? ==> t.rows == s.rows)
            && (!d.fault.NoFault? || !fb.Interrupted? ==> t.i == s.i + 1 && t.quit == s.quit)
            && (d.fault.NoFault? && fb.Interrupted? ==> t.i == s.i && t.quit)
            && t.printed == logged + (if d.fault.NoFault? && fb.Raised? then [ViewError(ids[s.i], fb.message)] else [])
  {
  }

  /**
    * An exception while the row is looked up, whether or not the row is
    * there, or while an item that has a row is on screen, prints an error
    * line and moves past the item, leaving the table and the count alone.
    */
  lemma FaultAdvances(ids: seq<int>, s: State, m: string, stage: Stage)
    requires s.i < |ids| && (stage.Lookup? || HasRow(s.rows, ids[s.i]))
    requires s.events != [] && s.events[0] == Fault(m, stage)
    ensures var t := Step(ids, s);
            && t.i == s.i + 1 && t.deleted == s.deleted && t.rows == s.rows && t.quit == s.quit
            && t.events == s.events[1..] && t.shown == s.shown
            && t.printed == s.printed + [ViewError(ids[s.i], m)]
  {
  }

  /**
    * A missing row is skipped and an exception raised while the next item is
    * on screen is reported for that next item: the two passes print exactly
    * one error line, naming the item that was shown.
    */
  lemma SkipThenDisplayFault(ids: seq<int>, s: State, m: string)
    requires s.i + 1 < |ids| && !HasRow(s.rows, ids[s.i]) && HasRow(s.rows, ids[s.i + 1])
    requires s.events != [] && s.events[0] == Fault(m, Display) && !Stopped(s)
    ensures var t := Step(ids, Step(ids, s));
            && t.i == s.i + 2 && t.events == s.events[1..] && t.rows == s.rows && t.deleted == s.deleted
            && t.printed == s.printed + [ViewError(ids[s.i + 1], m)] && !Stopped(t)
  {
    MissingRowSkipped(ids, s);
    FaultAdvances(ids, s.(i := s.i + 1), m, Display);
  }

  /** A keyboard interrupt, during the lookup or while an item that has a row is on screen, stops the loop where it is. */
  lemma InterruptStops(ids: seq<int>, s: State, stage: Stage)
    requires s.i < |ids| && (stage.Lookup? || HasRow(s.rows, ids[s.i]))
    requires s.events != [] && s.events[0] == Interrupt(stage)
    ensures var t := Step(ids, s);
            && t.quit && t.i == s.i && t.deleted == s.deleted && t.rows == s.rows
            && t.events == s.events[1..] && t.shown == s.shown && t.printed == s.printed
  {
  }

  /**
    * `main()` over the item store: opens it, prints the start line, runs the
    * navigation loop and, when it returns, prints the deletion count.
    */
  method ViewItems(ids: seq<int>, db: ItemDatabase, events: seq<Event>, opening: Opening)
    returns (lines: seq<Line>, finished: bool)
    requires db.Valid()
    modifies db
    ensures db.Valid()
    ensures var o := View(ids, old(db.rows), events, opening);
            db.rows == o.rows && lines == o.lines && finished == o.finished
  {
    if ids == [] {
      return [NoIds], true;
    }
    var deleted, printed, waiting := Browse(ids, db, events);
    lines := [Logged(InitEntry(opening)), Starting(ids)] + printed + (if waiting then [] else [DeletedTotal(deleted)]);
    finished := !waiting;
  }

  /** The `while i < len(items_to_view)` loop, updating `i` and `deleted_count` and deleting through the store. */
  method Browse(ids: seq<int>, db: ItemDatabase, events: seq<Event>) returns (deleted: nat, printed: seq<Line>, waiting: bool)
    requires db.Valid()
    modifies db
    ensures db.Valid()
    ensures var f := Run(ids, Init(old(db.rows), events));
            db.rows == f.rows && deleted == f.deleted && printed == f.printed && waiting == f.waiting
  {
    var i: nat, k: nat := 0, 0;
    var shown: seq<nat> := [];
    var quit := false;
    deleted, printed, waiting := 0, [], false;
    while i < |ids| && !quit && !waiting
      invariant i <= |ids| && k <= |events| && db.Valid()
      invariant Run(ids, State(i, deleted, db.rows, events[k..], shown, printed, quit, waiting))
                == Run(ids, Init(old(db.rows), events))
      decreases |ids| - i + |events| - k, if quit || waiting then 0 else 1
    {
      ghost var s := State(i, deleted, db.rows, events[k..], shown, printed, quit, waiting);
      RunUnfold(ids, s);
      var id := ids[i];
      var found := HasRow(db.rows, id);
      // the lookup raises, or the row is there to be shown
      if k < |events| && (events[k].InLookup() || found) {
        i, deleted, shown, printed, quit := Show(ids, db, events[k..], i, deleted, shown, printed);
        assert events[k..][1..] == events[k + 1..];
        k := k + 1;
      } else if !found {
        MissingRowSkipped(ids, s);
        i := i + 1;
      } else {
        waiting := true;
        assert State(i, deleted, db.rows, events[k..], shown, printed, quit, waiting) == Step(ids, s);
      }
    }
  }

  /**
    * The body of the loop when it consumes the first of `events`: an
    * exception from the lookup, raised whether or not the item has a row, or
    * a key, an exception or an interrupt on an item that has one.
    */
  method Show(ids: seq<int>, db: ItemDatabase, events: seq<Event>, i: nat, deleted: nat, shown: seq<nat>, printed: seq<Line>)
    returns (i': nat, deleted': nat, shown': seq<nat>, printed': seq<Line>, quit: bool)
    requires db.Valid() && i < |ids| && events != [] && (HasRow(db.rows, ids[i]) || events[0].InLookup())
    modifies db
    ensures db.Valid() && i <= i' <= i + 1
    ensures State(i', deleted', db.rows, events[1..], shown', printed', quit, false)
            == Step(ids, State(i, deleted, old(db.rows), events, shown, printed, false, false))
  {
    i', deleted', shown', printed', quit := i, deleted, shown, printed, false;
    match events[0] {
      case Interrupt(_) =>
        quit := true;
      case Fault(m, _) =>
        printed' := printed + [ViewError(ids[i], m)];
        i' := i + 1;
      case Key(key, d, fb) =>
        shown' := shown + [i];
        if key == 'q' {
          quit := true;
        } else if key == 'n' {
          i' := i + 1;
        } else if key == 'd' {
          i', deleted', shown', printed', quit := Delete(ids, db, d, fb, events[1..], i, deleted, shown', printed);
        }
    }
  }

  /** The overlay after a counted deletion, from state `s`: the new index, the lines and whether the loop quits. */
  method Overlay(ghost s: State, i: nat, printed: seq<Line>, id: int, fb: Feedback) returns (i': nat, printed': seq<Line>, quit: bool)
    requires s.i == i && s.printed == printed && !s.quit
    ensures s.(i := i', printed := printed', quit := quit) == Overlaid(s, id, fb)
  {
    i', printed', quit := i + 1, printed, false;
    match fb {
      case Shown =>
      case Raised(m) =>
        printed' := printed' + [ViewError(id, m)];
      case Interrupted =>
        i', quit := i, true;
    }
  }

  /** The `d` key on a shown item: `delete_item`, its log records, and the feedback after a counted deletion. */
  method Delete(ids: seq<int>, db: ItemDatabase, d: Deletion, fb: Feedback, ghost rest: seq<Event>, i: nat, deleted: nat, shown: seq<nat>, printed: seq<Line>)
    returns (i': nat, deleted': nat, shown': seq<nat>, printed': seq<Line>, quit: bool)
    requires db.Valid() && i < |ids| && HasRow(db.rows, ids[i])
    modifies db
    ensures db.Valid() && i <= i' <= i + 1
    ensures State(i', deleted', db.rows, rest, shown', printed', quit, false)
            == Pressed(State(i, deleted, old(db.rows), rest, shown, printed, false, false), ids[i], d, fb)
  {
    ghost var s := State(i, deleted, db.rows, rest, shown, printed, false, false);
    var removed, log := db.DeleteItem(ids[i], d);
    i', deleted', shown', printed', quit := i + 1, deleted, shown, printed + AsLines(log), false;
    ghost var logged := s.(printed := printed');
    if removed {
      deleted' := deleted + 1;
      ghost var gone := logged.(deleted := deleted', rows := db.rows);
      i', printed', quit := Overlay(gone, i, printed', ids[i], fb);
      assert Pressed(s, ids[i], d, fb) == Overlaid(gone, ids[i], fb);
    } else {
      assert Pressed(s, ids[i], d, fb) == logged.(i := i');
    }
  }
}
