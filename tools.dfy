/**
  * The item tools of `tool_calling.py`: storing an item with a captured frame,
  * finding items, listing items, and the helper that opens the item viewer and
  * reads back how many items were deleted in it. A reply is modelled by which
  * message is chosen and the values it carries, not by its wording.
  */
module Tools {
  import opened Text
  import opened Options
  import opened Database
  import opened FrameQueues
  import opened Logging
  import Viewer

  // ---- query normalisation ------------------------------------------------

  /** Queries that mean "everything" to `list_all_items`. */
  const GenericQueries: seq<string> := ["all", "everything", "current", "items"]

  /** The search query `list_all_items` runs: empty for a generic query, else the query itself. */
  function SearchQuery(query: string): string {
    if Lower(query) in GenericQueries then "" else query
  }

  /** The generic queries are recognised whatever their case, and nothing else is rewritten. */
  lemma GenericQueryIgnoresCase(a: string, b: string)
    requires Lower(a) == Lower(b)
    ensures (SearchQuery(a) == "") <==> (SearchQuery(b) == "")
    ensures SearchQuery(a) != "" ==> SearchQuery(a) == a
  {
  }

  // ---- reading the viewer's output ----------------------------------------

  /** The longest run of ASCII digits at the start of `s` (what a greedy `\d+` takes). */
  function DigitRun(s: string): (d: string)
    ensures |d| <= |s| && d == s[..|d|] && AllDigits(d)
    ensures |d| < |s| ==> !IsDigit(s[|d|])
  {
    if s == [] || !IsDigit(s[0]) then []
    else
      var d := DigitRun(s[1..]);
      assert [s[0]] + d == s[..|d| + 1];
      [s[0]] + d
  }

  const DeletedMarker := "Deleted "

  /** Whether `Deleted (\d+) items` matches at the very start of `s`, and the number it captures. */
  function MatchHere(s: string): Option<nat> {
    if !StartsWith(s, DeletedMarker) then None
    else
      var rest := s[|DeletedMarker|..];
      var d := DigitRun(rest);
      if d != [] && StartsWith(rest[|d|..], " items") then Some(DecimalValue(d)) else None
  }

  /** `re.search(r"Deleted (\d+) items", s)`: the leftmost match. */
  function FirstMatch(s: string): Option<nat>
    decreases |s|
  {
    if MatchHere(s).Some? then MatchHere(s)
    else if s == [] then None
    else FirstMatch(s[1..])
  }

  /** `deleted_count` of `_launch_viewer`: the captured number, or 0. */
  function DeletedCount(output: string): nat {
    if !Contains(output, "Deleted") then 0
    else match FirstMatch(output)
      case Some(n) => n
      case None => 0
  }

  lemma {:induction false} DigitRunOf(d: string, t: string)
    requires AllDigits(d) && (t == [] || !IsDigit(t[0]))
    ensures DigitRun(d + t) == d
  {
    if d != [] {
      assert (d + t)[1..] == d[1..] + t;
      DigitRunOf(d[1..], t);
    }
  }

  /** A report `Deleted N items` matches where it starts, capturing N. */
  lemma MatchReport(n: nat, rest: string)
    ensures MatchHere(DeletedMarker + Decimal(n) + " items" + rest) == Some(n)
  {
    var s := DeletedMarker + Decimal(n) + " items" + rest;
    assert s[..|DeletedMarker|] == DeletedMarker;
    var tail := s[|DeletedMarker|..];
    assert tail == Decimal(n) + (" items" + rest);
    DigitRunOf(Decimal(n), " items" + rest);
    assert tail[|Decimal(n)|..] == " items" + rest;
    DecimalRoundTrip(n);
  }

  /** Text that says `Deleted ` says `Deleted`. */
  lemma SaysDeleted(p: string, t: string)
    requires StartsWith(t, DeletedMarker)
    ensures Contains(p + t, "Deleted")
  {
    assert OccursAt(p + t, "Deleted", |p|) by {
      assert (p + t)[|p|..] == t;
      assert t[..7] == "Deleted";
      assert (p + t)[|p|..|p| + 7] == t[..7];
    }
    ContainsAt(p + t, "Deleted");
  }

  /** Output that never says `Deleted` reads as zero deletions. */
  lemma SilentOutputIsZero(output: string)
    requires !Contains(output, "Deleted")
    ensures DeletedCount(output) == 0
  {
  }

  // ---- where a match can start ----------------------------------------------

  /** No match of `Deleted (\d+) items` starts anywhere in `s`. */
  predicate Quiet(s: string) {
    forall i :: 0 <= i <= |s| ==> MatchHere(s[i..]) == None
  }

  /** A character that is not in `w` cannot be crossed by an occurrence of `w`. */
  lemma StartsWithCut(x: string, c: char, t: string, w: string)
    requires c !in w
    ensures StartsWith(x + [c] + t, w) <==> StartsWith(x, w)
  {
    var s := x + [c] + t;
    if |w| <= |x| {
      assert s[..|w|] == x[..|w|];
    } else {
      assert s[|x|] == c && w[|x|] in w;
      assert !StartsWith(s, w) by {
        if |w| <= |s| {
          assert s[..|w|][|x|] == c;
        }
      }
    }
  }

  /** A run of digits stops at a character that is not a digit. */
  lemma {:induction false} DigitRunCut(x: string, c: char, t: string)
    requires !IsDigit(c)
    ensures DigitRun(x + [c] + t) == DigitRun(x)
  {
    if x != [] && IsDigit(x[0]) {
      assert (x + [c] + t)[1..] == x[1..] + [c] + t;
      DigitRunCut(x[1..], c, t);
    }
  }

  /**
    * A match never spans a newline or a colon, as neither occurs in
    * `Deleted N items`: what follows one cannot complete a match begun
    * before it.
    */
  lemma CutMatch(x: string, c: char, t: string)
    requires c == '\n' || c == ':'
    ensures MatchHere(x + [c] + t) == MatchHere(x)
  {
    var s := x + [c] + t;
    CutOutsidePattern(c);
    StartsWithCut(x, c, t, DeletedMarker);
    if StartsWith(x, DeletedMarker) {
      var rx := x[|DeletedMarker|..];
      assert s[|DeletedMarker|..] == rx + [c] + t;
      DigitRunCut(rx, c, t);
      var d := DigitRun(rx);
      assert (rx + [c] + t)[|d|..] == rx[|d|..] + [c] + t;
      StartsWithCut(rx[|d|..], c, t, " items");
    }
  }

  /** Neither a newline nor a colon occurs in the pattern. */
  lemma CutOutsidePattern(c: char)
    requires c == '\n' || c == ':'
    ensures c !in DeletedMarker && c !in " items"
  {
    assert DeletedMarker == ['D', 'e', 'l', 'e', 't', 'e', 'd', ' '];
    assert " items" == [' ', 'i', 't', 'e', 'm', 's'];
  }

  /** Quiet text joined by a newline or a colon stays quiet. */
  lemma QuietCut(x: string, c: char, t: string)
    requires Quiet(x) && Quiet(t) && (c == '\n' || c == ':')
    ensures Quiet(x + [c] + t)
  {
    var s := x + [c] + t;
    forall i | 0 <= i <= |s| ensures MatchHere(s[i..]) == None {
      if i <= |x| {
        assert s[i..] == x[i..] + [c] + t;
        CutMatch(x[i..], c, t);
      } else {
        assert s[i..] == t[i - |x| - 1..];
      }
    }
  }

  /** A match starts with `D`: text without one adds no match in front of quiet text. */
  lemma PlainQuiet(a: string, b: string)
    requires 'D' !in a && Quiet(b)
    ensures Quiet(a + b)
  {
    var s := a + b;
    forall i | 0 <= i <= |s| ensures MatchHere(s[i..]) == None {
      if i < |a| {
        assert s[i..][0] == a[i] && a[i] in a;
      } else {
        assert s[i..] == b[i - |a|..];
      }
    }
  }

  /** The report has an `l` two places after its start: text without `l` holds no match. */
  lemma NoLetterLQuiet(s: string)
    requires 'l' !in s
    ensures Quiet(s)
  {
    forall i | 0 <= i <= |s| ensures MatchHere(s[i..]) == None {
      if |s| - i >= |DeletedMarker| {
        assert s[i + 2] in s;
        assert s[i..][..|DeletedMarker|][2] == s[i + 2];
      }
    }
  }

  /** `Deleted ` followed by anything but a digit is not the report. */
  lemma NotAReport(y: string)
    requires y == [] || !IsDigit(y[0])
    ensures MatchHere(DeletedMarker + y) == None
  {
    assert (DeletedMarker + y)[|DeletedMarker|..] == y;
  }

  /** `Deleted ` and then quiet text not starting with a digit is quiet: as in `Deleted image file: ...`. */
  lemma MarkerThenQuiet(y: string)
    requires (y == [] || !IsDigit(y[0])) && Quiet(y)
    ensures Quiet(DeletedMarker + y)
  {
    var s := DeletedMarker + y;
    NotAReport(y);
    PlainQuiet("eleted ", y);
    forall i | 1 <= i <= |s| ensures MatchHere(s[i..]) == None {
      assert s[i..] == ("eleted " + y)[i - 1..];
    }
  }

  /** A `D` followed by quiet text not starting with `e` is quiet: as in `ID 7`. */
  lemma CapitalDQuiet(y: string)
    requires y != [] && y[0] != 'e' && Quiet(y)
    ensures Quiet("D" + y)
  {
    var s := "D" + y;
    if |s| >= |DeletedMarker| {
      assert s[..|DeletedMarker|][1] == y[0];
    }
    forall i | 1 <= i <= |s| ensures MatchHere(s[i..]) == None {
      assert s[i..] == y[i - 1..];
    }
  }

  lemma IntPlain(n: int)
    ensures 'l' !in IntString(n) && 'D' !in IntString(n)
  {
    var d := IntString(n);
    assert forall k :: 0 <= k < |d| ==> d[k] != 'l' && d[k] != 'D';
  }

  lemma {:induction false} ItemsPlain(ids: seq<int>)
    ensures 'l' !in Viewer.Items(ids) && 'D' !in Viewer.Items(ids)
  {
    if ids != [] {
      ItemsPlain(ids[1..]);
      IntPlain(ids[0]);
    }
  }

  // ---- what the viewer prints ------------------------------------------------

  /** The strings a log message carries from outside (paths, exception texts) start no match. */
  predicate QuietMessage(m: Message) {
    match m
    case Initialized(p) => Quiet(p)
    case InitFailed(e) => Quiet(e)
    case ImageDeleted(p) => Quiet(p)
    case ImageNotDeleted(p, e) => Quiet(p) && Quiet(e)
    case ItemDeleted(_) => true
    case ItemNotDeleted(_, e) => Quiet(e)
  }

  /**
    * No log message of the store starts a match of its own: in particular
    * `Deleted image file: ` and `Deleted item with ID ` are followed by a
    * letter, not a digit.
    */
  lemma MessageQuiet(m: Message)
    requires QuietMessage(m)
    ensures Quiet(MessageText(m))
  {
    match m
    case Initialized(p) =>
      PlainQuiet("Initialized item database at ", p);
    case InitFailed(e) =>
      PlainQuiet("Failed to initialize database: ", e);
    case ImageDeleted(p) =>
      ImageDeletedQuiet(p);
    case ImageNotDeleted(p, e) =>
      ImageNotDeletedQuiet(p, e);
    case ItemDeleted(id) =>
      ItemDeletedQuiet(id);
    case ItemNotDeleted(id, e) =>
      IntPlain(id);
      PlainQuiet("Failed to delete item " + IntString(id) + ": ", e);
  }

  lemma ImageDeletedQuiet(p: string)
    requires Quiet(p)
    ensures Quiet(MessageText(ImageDeleted(p)))
  {
    PlainQuiet("image file: ", p);
    MarkerThenQuiet("image file: " + p);
    assert MessageText(ImageDeleted(p)) == DeletedMarker + ("image file: " + p);
  }

  lemma ImageNotDeletedQuiet(p: string, e: string)
    requires Quiet(p) && Quiet(e)
    ensures Quiet(MessageText(ImageNotDeleted(p, e)))
  {
    PlainQuiet(" ", e);
    QuietCut(p, ':', " " + e);
    PlainQuiet("Failed to delete image file ", p + [':'] + (" " + e));
    assert MessageText(ImageNotDeleted(p, e)) == "Failed to delete image file " + (p + [':'] + (" " + e));
  }

  lemma ItemDeletedQuiet(id: int)
    ensures Quiet(MessageText(ItemDeleted(id)))
  {
    var n := IntString(id);
    IntPlain(id);
    assert Quiet([]);
    PlainQuiet(" " + n, []);
    assert " " + n + [] == " " + n;
    CapitalDQuiet(" " + n);
    PlainQuiet("item with I", "D" + (" " + n));
    MarkerThenQuiet("item with I" + ("D" + (" " + n)));
    assert "Deleted item with ID " == DeletedMarker + "item with I" + "D" + " ";
    Nest(DeletedMarker, "item with I", "D", " ", n);
  }

  lemma Nest(a: string, b: string, c: string, d: string, e: string)
    ensures (a + b + c + d) + e == a + (b + (c + (d + e)))
  {
  }

  /** A line that starts no match when its outside strings start none; the closing report is not one. */
  predicate Harmless(l: Viewer.Line) {
    match l
    case NoIds => true
    case Starting(_) => true
    case ViewError(_, m) => Quiet(m)
    case DeletedTotal(_) => false
    case Logged(e) => QuietMessage(e.message)
  }

  lemma RenderQuiet(l: Viewer.Line)
    requires Harmless(l)
    ensures Quiet(Viewer.Render(l))
  {
    match l
    case NoIds =>
      NoLetterLQuiet("No IDs provided.");
    case Starting(ids) =>
      ItemsPlain(ids);
      NoLetterLQuiet(Viewer.Render(l));
    case ViewError(id, m) =>
      IntPlain(id);
      PlainQuiet("Error viewing item " + IntString(id) + ": ", m);
    case Logged(e) =>
      MessageQuiet(e.message);
      HeaderPlain(e.at, MessageLevel(e.message));
      PlainQuiet(Header(e.at, MessageLevel(e.message)), MessageText(e.message));
  }

  /** Quiet text and its newline are passed over by the search. */
  lemma {:induction false} SkipQuietLine(x: string, t: string)
    requires Quiet(x)
    ensures FirstMatch(x + "\n" + t) == FirstMatch(t)
    decreases |x|
  {
    var s := x + "\n" + t;
    CutMatch(x, '\n', t);
    assert x[0..] == x;
    if x == [] {
      assert s[1..] == t;
    } else {
      assert s[1..] == x[1..] + "\n" + t;
      assert Quiet(x[1..]) by {
        forall i | 0 <= i <= |x[1..]| ensures MatchHere(x[1..][i..]) == None {
          assert x[1..][i..] == x[i + 1..];
        }
      }
      SkipQuietLine(x[1..], t);
    }
  }

  /** The search passes over harmless lines to whatever follows them. */
  lemma {:induction false} StdoutSkip(lines: seq<Viewer.Line>, last: seq<Viewer.Line>)
    requires AllHarmless(lines)
    ensures FirstMatch(Viewer.Stdout(lines + last)) == FirstMatch(Viewer.Stdout(last))
  {
    if lines == [] {
      assert lines + last == last;
    } else {
      assert (lines + last)[0] == lines[0];
      assert (lines + last)[1..] == lines[1..] + last;
      RenderQuiet(lines[0]);
      SkipQuietLine(Viewer.Render(lines[0]), Viewer.Stdout(lines[1..] + last));
      StdoutSkip(lines[1..], last);
    }
  }

  lemma StdoutAppend(a: seq<Viewer.Line>, b: seq<Viewer.Line>)
    ensures Viewer.Stdout(a + b) == Viewer.Stdout(a) + Viewer.Stdout(b)
  {
    StdoutIsJoin(a + b);
    StdoutIsJoin(a);
    StdoutIsJoin(b);
    JoinAppend(Viewer.Render, a, b);
  }

  /** Each item rendered by `f` and followed by a newline. */
  function Join<T>(f: T -> string, xs: seq<T>): string {
    if xs == [] then "" else f(xs[0]) + "\n" + Join(f, xs[1..])
  }

  lemma {:induction false} StdoutIsJoin(lines: seq<Viewer.Line>)
    ensures Viewer.Stdout(lines) == Join(Viewer.Render, lines)
  {
    if lines != [] {
      StdoutIsJoin(lines[1..]);
    }
  }

  lemma {:induction false} JoinAppend<T>(f: T -> string, a: seq<T>, b: seq<T>)
    ensures Join(f, a + b) == Join(f, a) + Join(f, b)
  {
    if a != [] {
      assert (a + b)[0] == a[0];
      assert (a + b)[1..] == a[1..] + b;
      JoinAppend(f, a[1..], b);
    } else {
      assert a + b == b;
    }
  }

  /** The exception texts an event can make the viewer print start no match. */
  predicate QuietEvent(e: Viewer.Event) {
    match e
    case Interrupt(_) => true
    case Fault(m, _) => Quiet(m)
    case Key(_, d, fb) =>
      && (d.file.UnlinkRaised? ==> Quiet(d.file.error))
      && (!d.fault.NoFault? ==> Quiet(d.fault.error))
      && (fb.Raised? ==> Quiet(fb.message))
  }

  predicate QuietEvents(events: seq<Viewer.Event>) {
    forall k :: 0 <= k < |events| ==> QuietEvent(events[k])
  }

  /** What deleting a row logs is harmless when the row's picture path and the error texts are quiet. */
  lemma DeleteLogHarmless(rows: seq<Row>, id: int, d: Deletion)
    requires QuietPaths(rows)
    requires QuietEvent(Viewer.Key('d', d, Viewer.Shown))
    ensures AllHarmless(Viewer.AsLines(DeleteLog(rows, id, d)))
  {
    DeleteLogShape(rows, id, d);
  }

  /** Every line of `lines` is harmless. */
  predicate AllHarmless(lines: seq<Viewer.Line>) {
    forall k :: 0 <= k < |lines| ==> Harmless(lines[k])
  }

  /** Every picture path of the table starts no match. */
  predicate QuietPaths(rows: seq<Row>) {
    forall x :: x in rows ==> Quiet(x.imagePath)
  }

  /** One pass of the loop prints only harmless lines and keeps the events and the table quiet. */
  lemma StepHarmless(ids: seq<int>, s: Viewer.State)
    requires s.i < |ids| && !Viewer.Stopped(s)
    requires AllHarmless(s.printed) && QuietEvents(s.events) && QuietPaths(s.rows)
    ensures var t := Viewer.Step(ids, s);
            AllHarmless(t.printed) && QuietEvents(t.events) && QuietPaths(t.rows)
  {
    var id := ids[s.i];
    if s.events != [] {
      QuietTail(s.events);
      if s.events[0].InLookup() || (Viewer.HasRow(s.rows, id) && !s.events[0].Key?) {
        RaisedHarmless(ids, s);
      } else if Viewer.HasRow(s.rows, id) && s.events[0].key == 'd' {
        DeleteStepHarmless(ids, s, s.events[0].deletion, s.events[0].feedback);
      }
    }
  }

  /** The events after the first are quiet when all are. */
  lemma QuietTail(events: seq<Viewer.Event>)
    requires events != [] && QuietEvents(events)
    ensures QuietEvent(events[0]) && QuietEvents(events[1..])
  {
    var rest := events[1..];
    forall k | 0 <= k < |rest| ensures QuietEvent(rest[k]) {
      assert rest[k] == events[k + 1];
    }
  }

  /** A pass that takes an exception prints at most its quiet error line. */
  lemma RaisedHarmless(ids: seq<int>, s: Viewer.State)
    requires s.i < |ids| && s.events != [] && QuietEvent(s.events[0]) && AllHarmless(s.printed)
    requires s.events[0].InLookup() || (Viewer.HasRow(s.rows, ids[s.i]) && !s.events[0].Key?)
    ensures AllHarmless(Viewer.Step(ids, s).printed)
  {
    if s.events[0].Fault? {
      HarmlessAppend(s.printed, [Viewer.ViewError(ids[s.i], s.events[0].message)]);
    }
  }

  /** The `d` key: the store's log lines, then perhaps the feedback's error. */
  lemma DeleteStepHarmless(ids: seq<int>, s: Viewer.State, d: Deletion, fb: Viewer.Feedback)
    requires s.i < |ids| && !Viewer.Stopped(s) && Viewer.HasRow(s.rows, ids[s.i])
    requires s.events != [] && s.events[0] == Viewer.Key('d', d, fb)
    requires AllHarmless(s.printed) && QuietEvent(s.events[0]) && QuietPaths(s.rows)
    ensures var t := Viewer.Step(ids, s);
            AllHarmless(t.printed) && QuietPaths(t.rows)
  {
    var id := ids[s.i];
    var lines := Viewer.AsLines(DeleteLog(s.rows, id, d));
    DeleteLogHarmless(s.rows, id, d);
    HarmlessAppend(s.printed, lines);
    var t := Viewer.Step(ids, s);
    if !d.fault.NoFault? {
      assert t.printed == s.printed + lines && t.rows == s.rows;
    } else if fb.Raised? {
      HarmlessAppend(s.printed + lines, [Viewer.ViewError(id, fb.message)]);
      assert t.printed == s.printed + lines + [Viewer.ViewError(id, fb.message)];
      assert t.rows == WithoutId(s.rows, id);
    } else {
      assert t.printed == s.printed + lines;
      assert t.rows == WithoutId(s.rows, id);
    }
  }

  lemma HarmlessAppend(a: seq<Viewer.Line>, b: seq<Viewer.Line>)
    requires AllHarmless(a) && AllHarmless(b)
    ensures AllHarmless(a + b)
  {
    var c := a + b;
    forall k | 0 <= k < |c| ensures Harmless(c[k]) {
      if k < |a| {
        assert c[k] == a[k];
      } else {
        assert c[k] == b[k - |a|];
      }
    }
  }

  /** Every line the loop prints is harmless when the events and the picture paths are quiet. */
  lemma {:induction false} RunHarmless(ids: seq<int>, s: Viewer.State)
    requires s.i <= |ids|
    requires AllHarmless(s.printed) && QuietEvents(s.events) && QuietPaths(s.rows)
    ensures AllHarmless(Viewer.Run(ids, s).printed)
    decreases |ids| - s.i + |s.events|, if Viewer.Stopped(s) then 0 else 1
  {
    if s.i < |ids| && !Viewer.Stopped(s) {
      StepHarmless(ids, s);
      RunHarmless(ids, Viewer.Step(ids, s));
    }
  }

  /** The closing line is `Deleted N items.` and its newline. */
  lemma FinalLineText(n: nat)
    ensures Viewer.Stdout([Viewer.DeletedTotal(n)]) == DeletedMarker + Decimal(n) + " items" + ".\n"
  {
    assert Viewer.Stdout([Viewer.DeletedTotal(n)]) == Viewer.Render(Viewer.DeletedTotal(n)) + "\n" + Viewer.Stdout([]);
  }

  /** After harmless lines, the search finds the closing report and reads back its count. */
  lemma ReportAfterHarmless(prefix: seq<Viewer.Line>, n: nat)
    requires AllHarmless(prefix)
    ensures DeletedCount(Viewer.Stdout(prefix + [Viewer.DeletedTotal(n)])) == n
  {
    var last := [Viewer.DeletedTotal(n)];
    StdoutSkip(prefix, last);
    FinalLineText(n);
    MatchReport(n, ".\n");
    assert Viewer.Stdout(last) == DeletedMarker + Decimal(n) + " items" + ".\n";
    assert StartsWith(Viewer.Stdout(last), DeletedMarker) by {
      assert Viewer.Stdout(last)[..|DeletedMarker|] == DeletedMarker;
    }
    StdoutAppend(prefix, last);
    SaysDeleted(Viewer.Stdout(prefix), Viewer.Stdout(last));
  }

  /**
    * What the viewer prints and what `_launch_viewer` reads back agree: when
    * the viewer returns, the count parsed from its standard output is the
    * number of rows it deleted, provided no match of the pattern starts
    * inside the store's path, a picture path of the table, or an exception
    * text the viewer prints.
    */
  lemma ViewerReportReadBack(ids: seq<int>, rows: seq<Row>, events: seq<Viewer.Event>, opening: Opening)
    requires ids != []
    requires Viewer.View(ids, rows, events, opening).finished
    requires QuietMessage(InitEntry(opening).message)
    requires QuietEvents(events)
    requires QuietPaths(rows)
    ensures DeletedCount(Viewer.Stdout(Viewer.View(ids, rows, events, opening).lines))
            == Viewer.View(ids, rows, events, opening).deleted
  {
    var f := Viewer.Run(ids, Viewer.Init(rows, events));
    RunHarmless(ids, Viewer.Init(rows, events));
    var head := [Viewer.Logged(InitEntry(opening)), Viewer.Starting(ids)];
    assert AllHarmless(head) by {
      assert Harmless(head[0]) && Harmless(head[1]);
    }
    HarmlessAppend(head, f.printed);
    ReportAfterHarmless(head + f.printed, f.deleted);
  }

  /** A prefix without `D` is passed over by the search. */
  lemma {:induction false} PlainSkip(a: string, b: string)
    requires 'D' !in a
    ensures FirstMatch(a + b) == FirstMatch(b)
    decreases |a|
  {
    if a == [] {
      assert a + b == b;
    } else {
      assert a[0] in a;
      NoCapitalNoMatch(a + b);
      assert (a + b)[1..] == a[1..] + b;
      assert a == [a[0]] + a[1..];
      PlainSkip(a[1..], b);
    }
  }

  /** Text that does not start with `D` starts no match. */
  lemma NoCapitalNoMatch(s: string)
    requires s != [] && s[0] != 'D'
    ensures MatchHere(s) == None
  {
    if |DeletedMarker| <= |s| {
      assert s[..|DeletedMarker|][0] == s[0];
    }
  }

  /**
    * The read-back can be fooled, as `_launch_viewer` parses the viewer's
    * whole standard output, log records included. Deleting the one item
    * stored under the name `Deleted k items` logs its picture path, which
    * holds that name, before the viewer's own report, and the search finds
    * that first: one deletion is read back as `k`.
    */
  lemma PictureNameMisread(k: nat, id: int, place: string, stamp: string, now: int, at: Clock, opening: Opening)
    requires QuietMessage(InitEntry(opening).message)
    ensures var name := DeletedMarker + Decimal(k) + " items";
            var rows := [Row(id, Lower(name), Lower(place), ImagePath(name, stamp), now, "")];
            var events := [Viewer.Key('d', Deletion(Unlinked, NoFault, at), Viewer.Shown)];
            var o := Viewer.View([id], rows, events, opening);
            o.finished && o.deleted == 1 && DeletedCount(Viewer.Stdout(o.lines)) == k
  {
    var name := DeletedMarker + Decimal(k) + " items";
    var path := ImagePath(name, stamp);
    assert path != [] by { assert path[0] == ItemFramesDir[0]; }
    var row := Row(id, Lower(name), Lower(place), path, now, "");
    NameRecordMatch(k, stamp, Viewer.Stdout([Viewer.Logged(LogEntry(at, ItemDeleted(id))), Viewer.DeletedTotal(1)]));
    PictureFirstRead(row, at, opening, k);
  }

  /**
    * Deleting the only row reads back whatever number the first match in its
    * picture path's record captures, when that match starts inside the path.
    */
  lemma PictureFirstRead(row: Row, at: Clock, opening: Opening, k: nat)
    requires row.imagePath != "" && QuietMessage(InitEntry(opening).message)
    requires FirstMatch(row.imagePath + "\n"
                        + Viewer.Stdout([Viewer.Logged(LogEntry(at, ItemDeleted(row.id))), Viewer.DeletedTotal(1)]))
             == Some(k)
    ensures var o := Viewer.View([row.id], [row], [Viewer.Key('d', Deletion(Unlinked, NoFault, at), Viewer.Shown)], opening);
            o.finished && o.deleted == 1 && DeletedCount(Viewer.Stdout(o.lines)) == k
  {
    DeleteOnlyRow(row, at, opening);
    RecordsReadBack(opening, row.id, row.imagePath, at, k);
  }

  /** The lines of that run, read back: the search stops in the picture's record. */
  lemma RecordsReadBack(opening: Opening, id: int, path: string, at: Clock, k: nat)
    requires QuietMessage(InitEntry(opening).message)
    requires FirstMatch(path + "\n"
                        + Viewer.Stdout([Viewer.Logged(LogEntry(at, ItemDeleted(id))), Viewer.DeletedTotal(1)]))
             == Some(k)
    ensures DeletedCount(Viewer.Stdout([Viewer.Logged(InitEntry(opening)), Viewer.Starting([id])]
                                       + [Viewer.Logged(LogEntry(at, ImageDeleted(path))),
                                          Viewer.Logged(LogEntry(at, ItemDeleted(id))), Viewer.DeletedTotal(1)]))
            == k
  {
    var image := Viewer.Logged(LogEntry(at, ImageDeleted(path)));
    var rest := [Viewer.Logged(LogEntry(at, ItemDeleted(id))), Viewer.DeletedTotal(1)];
    OpeningHarmless(opening, [id]);
    assert [image] + rest == [image, Viewer.Logged(LogEntry(at, ItemDeleted(id))), Viewer.DeletedTotal(1)];
    ImageLineFirst([Viewer.Logged(InitEntry(opening)), Viewer.Starting([id])], path, at, rest, k);
  }

  /** The opening record and the start line are harmless when the record is quiet. */
  lemma OpeningHarmless(opening: Opening, ids: seq<int>)
    requires QuietMessage(InitEntry(opening).message)
    ensures AllHarmless([Viewer.Logged(InitEntry(opening)), Viewer.Starting(ids)])
  {
    var head := [Viewer.Logged(InitEntry(opening)), Viewer.Starting(ids)];
    assert Harmless(head[0]) && Harmless(head[1]);
  }

  /** After harmless lines, a picture's record whose path starts a match decides the count read back. */
  lemma ImageLineFirst(head: seq<Viewer.Line>, path: string, at: Clock, rest: seq<Viewer.Line>, k: nat)
    requires AllHarmless(head) && FirstMatch(path + "\n" + Viewer.Stdout(rest)) == Some(k)
    ensures DeletedCount(Viewer.Stdout(head + ([Viewer.Logged(LogEntry(at, ImageDeleted(path)))] + rest))) == k
  {
    var image := Viewer.Logged(LogEntry(at, ImageDeleted(path)));
    var tail := [image] + rest;
    var more := Viewer.Stdout(rest);
    assert tail[0] == image && tail[1..] == rest;
    assert Viewer.Stdout(tail) == RenderEntry(LogEntry(at, ImageDeleted(path))) + "\n" + more;
    PictureRecordMatch(Viewer.Stdout(head), path, at, more, k);
    HarmlessHeadCount(head, tail, k);
  }

  /** After harmless lines, the count read back is the one of the first match in the lines that follow. */
  lemma HarmlessHeadCount(head: seq<Viewer.Line>, tail: seq<Viewer.Line>, k: nat)
    requires AllHarmless(head) && FirstMatch(Viewer.Stdout(tail)) == Some(k)
    requires Contains(Viewer.Stdout(head) + Viewer.Stdout(tail), "Deleted")
    ensures DeletedCount(Viewer.Stdout(head + tail)) == k
  {
    StdoutSkip(head, tail);
    StdoutAppend(head, tail);
  }

  /** Deleting the only row, shown and confirmed, logs its picture, then the row, then the total. */
  lemma DeleteOnlyRow(row: Row, at: Clock, opening: Opening)
    requires row.imagePath != ""
    ensures var o := Viewer.View([row.id], [row], [Viewer.Key('d', Deletion(Unlinked, NoFault, at), Viewer.Shown)], opening);
            && o.finished && o.deleted == 1
            && o.lines == [Viewer.Logged(InitEntry(opening)), Viewer.Starting([row.id])]
                          + [Viewer.Logged(LogEntry(at, ImageDeleted(row.imagePath))),
                             Viewer.Logged(LogEntry(at, ItemDeleted(row.id))), Viewer.DeletedTotal(1)]
  {
    DeleteOnlyRowRun(row, at);
  }

  /** The loop of that run: one pass, which deletes the row and logs two records. */
  lemma DeleteOnlyRowRun(row: Row, at: Clock)
    requires row.imagePath != ""
    ensures var f := Viewer.Run([row.id], Viewer.Init([row], [Viewer.Key('d', Deletion(Unlinked, NoFault, at), Viewer.Shown)]));
            && f.deleted == 1 && !f.waiting
            && f.printed == [Viewer.Logged(LogEntry(at, ImageDeleted(row.imagePath))), Viewer.Logged(LogEntry(at, ItemDeleted(row.id)))]
  {
    var rows, id := [row], row.id;
    var d := Deletion(Unlinked, NoFault, at);
    var s0 := Viewer.Init(rows, [Viewer.Key('d', d, Viewer.Shown)]);
    assert Viewer.HasRow(rows, id) by { assert rows[0] in rows; }
    DeleteOnlyRowLog(row, d);
    var f := Viewer.Step([id], s0);
    assert f.i == 1 && f.deleted == 1 && !f.waiting;
    assert Viewer.Run([id], s0) == f;
  }

  lemma DeleteOnlyRowLog(row: Row, d: Deletion)
    requires row.imagePath != "" && d.file == Unlinked && d.fault == NoFault
    ensures Viewer.AsLines(DeleteLog([row], row.id, d))
            == [Viewer.Logged(LogEntry(d.at, ImageDeleted(row.imagePath))), Viewer.Logged(LogEntry(d.at, ItemDeleted(row.id)))]
  {
    assert PicturePath([row], row.id) == Some(row.imagePath);
  }

  /**
    * The picture's record, whatever precedes and follows it: the header,
    * `Deleted image file: `, then the path. When the first match in the path
    * captures `k`, so does the first match in the record.
    */
  lemma PictureRecordMatch(before: string, path: string, at: Clock, more: string, k: nat)
    requires FirstMatch(path + "\n" + more) == Some(k)
    ensures var text := RenderEntry(LogEntry(at, ImageDeleted(path))) + "\n" + more;
            Contains(before + text, "Deleted") && FirstMatch(text) == Some(k)
  {
    var header := Header(at, Info);
    var q := path + "\n" + more;
    var text := RenderEntry(LogEntry(at, ImageDeleted(path))) + "\n" + more;
    var record := "Deleted image file: " + q;
    ImageRecordText(at, path, more);
    HeaderPlain(at, Info);
    PlainSkip(header, record);
    ImageRecordSkip(q);
    assert StartsWith(record, DeletedMarker) by {
      assert record[..|DeletedMarker|] == DeletedMarker;
    }
    assert before + text == (before + header) + record;
    SaysDeleted(before + header, record);
  }

  /** The record's text: the header, then `Deleted image file: ` and the path. */
  lemma ImageRecordText(at: Clock, path: string, more: string)
    ensures RenderEntry(LogEntry(at, ImageDeleted(path))) + "\n" + more
            == Header(at, Info) + ("Deleted image file: " + (path + "\n" + more))
  {
    var header := Header(at, Info);
    var m := MessageText(ImageDeleted(path));
    assert RenderEntry(LogEntry(at, ImageDeleted(path))) == header + m;
    Regroup(header, m, "\n", more);
    Regroup("Deleted image file: ", path, "\n", more);
  }

  /** Past the record's marker, the search runs through the frames directory to the name. */
  lemma NameRecordMatch(k: nat, stamp: string, more: string)
    ensures FirstMatch(ImagePath(DeletedMarker + Decimal(k) + " items", stamp) + "\n" + more) == Some(k)
  {
    var name := DeletedMarker + Decimal(k) + " items";
    var q := ImagePath(name, stamp) + "\n" + more;
    var rest := "_" + stamp + ".jpg" + "\n" + more;
    PathRegroup(ItemFramesDir + "/", name, "_", stamp, ".jpg", "\n", more);
    assert q == (ItemFramesDir + "/") + (name + rest);
    PlainSkip(ItemFramesDir + "/", name + rest);
    MatchReport(k, rest);
  }

  lemma Regroup(a: string, b: string, c: string, d: string)
    ensures a + b + c + d == a + (b + c + d)
  {
  }

  lemma PathRegroup(dir: string, name: string, u: string, stamp: string, j: string, n: string, more: string)
    ensures dir + name + u + stamp + j + n + more == dir + (name + (u + stamp + j + n + more))
  {
  }

  /** `Deleted image file: ` is no report: the search passes over it. */
  lemma ImageRecordSkip(q: string)
    ensures FirstMatch("Deleted image file: " + q) == FirstMatch(q)
  {
    MarkerSkip("Deleted image file: ", q);
  }

  /** `Deleted ` and then text without `D` that does not start with a digit: the search passes over all of it. */
  lemma MarkerSkip(w: string, q: string)
    requires |w| > |DeletedMarker| && w[..|DeletedMarker|] == DeletedMarker
    requires !IsDigit(w[|DeletedMarker|]) && 'D' !in w[1..]
    ensures FirstMatch(w + q) == FirstMatch(q)
  {
    var s := w + q;
    var y := w[|DeletedMarker|..];
    assert w == DeletedMarker + y;
    assert s == DeletedMarker + (y + q);
    NotAReport(y + q);
    assert s[1..] == w[1..] + q;
    PlainSkip(w[1..], q);
  }

  // ---- opening the viewer ---------------------------------------------------

  /** The result of running the viewer process: it could not be started, or it exited with this output. */
  datatype ViewerRun = LaunchFailed(error: string) | Finished(stdout: string)

  /** What is spoken before the viewer opens. */
  datatype Announcement = TotalCount(count: nat) | OneItem(term: string) | CountMatching(count: nat, term: string)

  /** The tool's reply to the agent. */
  datatype Reply =
    | NoItemsFor(term: string)
    | OpenFailed(count: nat, error: string)
      // `deletions` is `Some(n)` when the reply acknowledges `n` deletions, `None` for the plain wrap-up
    | ViewerClosed(count: nat, summary: seq<(string, string)>, deletions: Option<nat>)
    | NothingFound(term: string)
    | NoneMatching(query: string)
    | StoreEmpty
    | CaptureFailed
    | SaveFailed
    | Stored(item: string, place: string, stamp: string)
    | LogFailed(item: string)

  /** What `_launch_viewer` did: the announcement it spoke, the ids it opened the viewer on, and its reply. */
  datatype Launch = Launch(announced: Option<Announcement>, viewerIds: Option<seq<int>>, reply: Reply)

  const AllItemsLabel := "all items"

  function Ids(results: seq<Row>): (ids: seq<int>)
    ensures |ids| == |results| && forall k :: 0 <= k < |results| ==> ids[k] == results[k].id
  {
    if results == [] then [] else [results[0].id] + Ids(results[1..])
  }

  function Summary(results: seq<Row>): (s: seq<(string, string)>)
    ensures |s| == |results| && forall k :: 0 <= k < |results| ==> s[k] == (results[k].itemName, results[k].placeName)
  {
    if results == [] then [] else [(results[0].itemName, results[0].placeName)] + Summary(results[1..])
  }

  /** The announcement for `count` results under `term`. */
  function Announce(term: string, count: nat): Announcement {
    if term == AllItemsLabel then TotalCount(count)
    else if count == 1 then OneItem(term)
    else CountMatching(count, term)
  }

  /**
    * The announcement gives the total for the whole list, names the item for a
    * single result, and otherwise gives the count and the term: each
    * announcement belongs to exactly one of these cases.
    */
  lemma AnnounceCases(term: string, count: nat)
    ensures var a := Announce(term, count);
            && (a.TotalCount? <==> term == AllItemsLabel)
            && (a.OneItem? <==> term != AllItemsLabel && count == 1)
            && (a.CountMatching? <==> term != AllItemsLabel && count != 1)
            && (a.TotalCount? || a.CountMatching? ==> a.count == count)
            && (a.OneItem? || a.CountMatching? ==> a.term == term)
  {
  }

  /** `_launch_viewer(results, term)`, where `run` is what running the viewer process gives. */
  function LaunchViewer(results: seq<Row>, term: string, run: ViewerRun): Launch {
    if results == [] then Launch(None, None, NoItemsFor(term))
    else
      var count := |results|;
      var announced := Some(Announce(term, count));
      match run
      case LaunchFailed(e) => Launch(announced, Some(Ids(results)), OpenFailed(count, e))
      case Finished(out) =>
        var deleted := DeletedCount(out);
        Launch(announced, Some(Ids(results)),
               ViewerClosed(count, Summary(results), if deleted > 0 then Some(deleted) else None))
  }

  /**
    * No results: nothing is announced or opened. Otherwise the viewer opens on
    * the results' ids in order, after one announcement naming their count.
    */
  lemma LaunchContract(results: seq<Row>, term: string, run: ViewerRun)
    ensures var l := LaunchViewer(results, term, run);
            && (results == [] <==> l.viewerIds == None)
            && (results == [] ==> l.announced == None && l.reply == NoItemsFor(term))
            && (results != [] ==> l.viewerIds == Some(Ids(results)) && l.announced.Some?)
            && (results != [] && term == AllItemsLabel ==> l.announced == Some(TotalCount(|results|)))
            && (results != [] && term != AllItemsLabel && |results| == 1 ==> l.announced == Some(OneItem(term)))
            && (results != [] && term != AllItemsLabel && |results| != 1 ==> l.announced == Some(CountMatching(|results|, term)))
  {
  }

  /** The closing reply acknowledges deletions exactly when the viewer's output reports a positive count, and then that count. */
  lemma DeletionsAcknowledged(results: seq<Row>, term: string, out: string)
    requires results != []
    ensures var r := LaunchViewer(results, term, Finished(out)).reply;
            && r.ViewerClosed? && r.count == |results|
            && (r.deletions.Some? <==> DeletedCount(out) > 0)
            && (r.deletions.Some? ==> r.deletions.value == DeletedCount(out))
  {
  }

  // ---- finding and listing items --------------------------------------------

  /** `retrieve_item_location`: search, then the viewer over the results. */
  function RetrieveItemLocation(item: string, rows: seq<Row>, faults: SearchFaults, run: ViewerRun): Launch {
    var results := Search(rows, item, faults);
    if results == [] then Launch(None, None, NothingFound(item))
    else LaunchViewer(results, item, run)
  }

  /** `list_all_items`: a generic query lists everything, any other query searches. */
  function ListAllItems(query: string, rows: seq<Row>, faults: SearchFaults, run: ViewerRun): Launch {
    var q := SearchQuery(query);
    var items := Search(rows, q, faults);
    if items == [] then
      Launch(None, None, if q != "" then NoneMatching(q) else StoreEmpty)
    else LaunchViewer(items, if q != "" then query else AllItemsLabel, run)
  }

  /** Finding an item in a store that is not empty always opens the viewer (unless the fallback read fails). */
  lemma RetrieveOpensViewer(item: string, rows: seq<Row>, faults: SearchFaults, run: ViewerRun)
    requires rows != [] && !faults.recent
    ensures RetrieveItemLocation(item, rows, faults, run).viewerIds.Some?
  {
    NeverEmpty(rows, item, faults);
  }

  /** A generic query over a store that is not empty opens the viewer on every row, newest first, announcing the total. */
  lemma ListAllShowsEverything(query: string, rows: seq<Row>, faults: SearchFaults, run: ViewerRun)
    requires Lower(query) in GenericQueries && rows != [] && !faults.exact
    ensures var l := ListAllItems(query, rows, faults, run);
            l.viewerIds == Some(Ids(NewestFirst(rows))) && l.announced == Some(TotalCount(|rows|))
  {
    assert Normalize("") == "" by { assert Lower("") == ""; StripUnchanged(""); }
    EmptyQueryListsAll(rows, "", faults);
  }

  /** With nothing found, a specific query is reported as not matching, and a generic one as an empty store. */
  lemma ListAllEmptyReplies(query: string, rows: seq<Row>, faults: SearchFaults, run: ViewerRun)
    requires Search(rows, SearchQuery(query), faults) == []
    ensures var l := ListAllItems(query, rows, faults, run);
            && l.viewerIds == None
            && (Lower(query) in GenericQueries || query == "" ==> l.reply == StoreEmpty)
            && (Lower(query) !in GenericQueries && query != "" ==> l.reply == NoneMatching(query))
  {
  }

  /** An empty store with a generic query gives the empty-store reply. */
  lemma EmptyStoreListsNothing(query: string, faults: SearchFaults, run: ViewerRun)
    requires Lower(query) in GenericQueries
    ensures ListAllItems(query, [], faults, run).reply == StoreEmpty
  {
    assert Normalize("") == "" by { assert Lower("") == ""; StripUnchanged(""); }
    assert Split("") == [];
  }

  // ---- storing an item ------------------------------------------------------

  /** Where item pictures are written. */
  const ItemFramesDir := "data/item_frames"

  /** The picture file of an item stored at `stamp` (the `%Y%m%d_%H%M%S` time). */
  function ImagePath(item: string, stamp: string): string {
    ItemFramesDir + "/" + item + "_" + stamp + ".jpg"
  }

  /**
    * The picture path lies in `data/item_frames`, ends in `.jpg`, and names
    * its item: two items stored at the same second get different files.
    */
  lemma ImagePathNames(a: string, b: string, stamp: string)
    ensures StartsWith(ImagePath(a, stamp), ItemFramesDir + "/") && EndsWith(ImagePath(a, stamp), ".jpg")
    ensures ImagePath(a, stamp) == ImagePath(b, stamp) ==> a == b
  {
    var p, q := ImagePath(a, stamp), ImagePath(b, stamp);
    var dir := ItemFramesDir + "/";
    assert p == dir + (a + "_" + stamp + ".jpg");
    assert p[..|dir|] == dir;
    if p == q {
      assert |a| == |b|;
      assert a == p[|dir|..|dir| + |a|];
      assert b == q[|dir|..|dir| + |b|];
    }
  }

  /**
    * `store_item_location_structured`. `arrivals` are the responses the camera
    * loop puts while the tool waits, `stamp` is the formatted time, `saveOk`
    * whether `cv2.imwrite` returns without raising (its `False` result for a
    * file it could not write is ignored, so `saveOk` does not mean the file
    * exists) and `storageOk` whether the insert succeeds. `saved` is the
    * response handed to `cv2.imwrite`, if any.
    */
  method StoreItemLocation(item: string, place: string, ex: FrameExchange, db: ItemDatabase,
                           arrivals: seq<Response>, stamp: string, saveOk: bool, now: int, storageOk: bool)
    returns (reply: Reply, saved: Option<Response>)
    requires db.Valid()
    modifies ex, db
    ensures db.Valid()
    ensures ex.requests == old(ex.requests) + [Capture]
    ensures var waited := old(ex.responses) + arrivals;
            && (waited == [] ==> reply == CaptureFailed && saved == None && ex.responses == [])
            && (waited != [] ==> ex.responses == waited[1..] && saved == (if saveOk then Some(waited[0]) else None))
            && (waited != [] && !saveOk ==> reply == SaveFailed)
            && (waited != [] && saveOk && storageOk ==> reply == Stored(item, place, stamp))
            && (waited != [] && saveOk && !storageOk ==> reply == LogFailed(item))
    ensures old(ex.responses) != [] && saveOk ==> saved == Some(old(ex.responses)[0])
    ensures reply.Stored? ==> db.rows == old(db.rows) + [Row(old(db.nextId), Lower(item), Lower(place), ImagePath(item, stamp), now, "")]
    ensures !reply.Stored? ==> db.rows == old(db.rows)
  {
    ex.PutRequest(Capture);
    var response := ex.TakeResponse(arrivals);
    if response == None {
      return CaptureFailed, None;
    }
    if !saveOk {
      return SaveFailed, None;
    }
    saved := response;
    var ok := db.LogItem(item, place, ImagePath(item, stamp), "", now, storageOk);
    if ok {
      reply := Stored(item, place, stamp);
    } else {
      reply := LogFailed(item);
    }
  }
}
