/**
  * The visitor presence state machine of `update_visitors.py`.
  *
  * The caller's `active_visitors` dictionary is an object updated in place
  * (`ActiveVisitors`); Python dictionaries iterate in insertion order, so the
  * object keeps its keys in that order (`order`) beside the entries. The
  * append-only session log file is a second object (`VisitorLog`), one
  * `Session` per line. Times are integers counting microseconds (the
  * resolution of Python's `datetime`); the current time is a parameter.
  */
module Visitors {

  const Unknown: string := "Unknown"
  const MicrosPerSecond: int := 1_000_000
  const SecondsPerDay: int := 86_400

  /** One entry of `active_visitors`: `{"last_seen": ..., "arrived_at": ...}`. */
  datatype Presence = Presence(arrivedAt: int, lastSeen: int)

  /** One line of the visitor log: `{"Timestamp": date, "visitor": name, "from": time, "to": time}`. */
  datatype Session = Session(date: int, visitor: string, from: int, to: int)

  /** The value of an `active_visitors` dictionary: its keys in insertion order and its entries. */
  datatype Dict = Dict(order: seq<string>, entries: map<string, Presence>)

  predicate Distinct(s: seq<string>) {
    forall i, j :: 0 <= i < j < |s| ==> s[i] != s[j]
  }

  /** The key order lists every key of the dictionary exactly once. */
  ghost predicate WellFormed(d: Dict) {
    && Distinct(d.order)
    && (forall n :: n in d.entries <==> n in d.order)
  }

  /** `strftime("%Y-%m-%d")`: the day (counted from the epoch) that contains instant `t`. */
  function Day(t: int): int {
    t / (MicrosPerSecond * SecondsPerDay)
  }

  /** `strftime("%H:%M:%S")`: the whole second of the day of instant `t`. */
  function TimeOfDay(t: int): int {
    (t / MicrosPerSecond) % SecondsPerDay
  }

  /**
    * The date and the time of day split an instant's whole seconds: the time
    * of day is a second within the day, and the day count times a day's
    * seconds plus it gives back the instant's whole seconds.
    */
  lemma DayAndTime(t: int)
    ensures 0 <= TimeOfDay(t) < SecondsPerDay
    ensures Day(t) * SecondsPerDay + TimeOfDay(t) == t / MicrosPerSecond
  {
    var secs := t / MicrosPerSecond;
    var q, r := secs / SecondsPerDay, secs % SecondsPerDay;
    assert t == MicrosPerSecond * secs + t % MicrosPerSecond;
    assert secs == SecondsPerDay * q + r;
    assert t == (MicrosPerSecond * SecondsPerDay) * q + (MicrosPerSecond * r + t % MicrosPerSecond);
    assert 0 <= MicrosPerSecond * r + t % MicrosPerSecond < MicrosPerSecond * SecondsPerDay;
    assert Day(t) == q;
  }

  /** The record that `log_visitor_session` writes for one visit. */
  function Record(name: string, arrivedAt: int, leftAt: int): Session {
    Session(Day(arrivedAt), name, TimeOfDay(arrivedAt), TimeOfDay(leftAt))
  }

  // ---- specification of one call of update_visitors ---------------------

  /** The arrival step for one detected name. */
  function Arrive(d: Dict, name: string, now: int): Dict {
    if name == Unknown then d
    else if name in d.entries then Dict(d.order, d.entries[name := Presence(d.entries[name].arrivedAt, now)])
    else Dict(d.order + [name], d.entries[name := Presence(now, now)])
  }

  /** The arrival loop over all detected names, in order. */
  function ArriveAll(d: Dict, names: seq<string>, now: int): Dict
    decreases |names|
  {
    if names == [] then d
    else Arrive(ArriveAll(d, names[..|names| - 1], now), names[|names| - 1], now)
  }

  /** The departure test: not detected in this frame and absent for strictly longer than the grace period. */
  predicate Departs(p: Presence, name: string, detected: seq<string>, now: int, grace: int) {
    name !in detected && now - p.lastSeen > grace * MicrosPerSecond
  }

  /**
    * The `to_remove` list built by iterating over `names` (a prefix of the key
    * order). The names are keys of `d` wherever the model uses it; the
    * membership test only keeps the function total.
    */
  function Departures(d: Dict, names: seq<string>, detected: seq<string>, now: int, grace: int): (gone: seq<string>)
    ensures forall n :: n in gone ==> n in d.entries
    decreases |names|
  {
    if names == [] then []
    else
      var last := names[|names| - 1];
      Departures(d, names[..|names| - 1], detected, now, grace)
        + (if last in d.entries && Departs(d.entries[last], last, detected, now, grace) then [last] else [])
  }

  /** The session lines written for the departed names (keys of `d`), in order. */
  function Sessions(d: Dict, gone: seq<string>): seq<Session>
    decreases |gone|
  {
    if gone == [] then []
    else
      var last := gone[|gone| - 1];
      Sessions(d, gone[..|gone| - 1])
        + (if last in d.entries then [Record(last, d.entries[last].arrivedAt, d.entries[last].lastSeen)] else [])
  }

  lemma DeparturesStep(d: Dict, names: seq<string>, j: nat, detected: seq<string>, now: int, grace: int)
    requires j < |names|
    ensures Departures(d, names[..j + 1], detected, now, grace)
            == Departures(d, names[..j], detected, now, grace)
               + (if names[j] in d.entries && Departs(d.entries[names[j]], names[j], detected, now, grace) then [names[j]] else [])
  {
    assert names[..j + 1][..j] == names[..j];
  }

  lemma SessionsStep(d: Dict, gone: seq<string>, n: string)
    ensures Sessions(d, gone + [n])
            == Sessions(d, gone) + (if n in d.entries then [Record(n, d.entries[n].arrivedAt, d.entries[n].lastSeen)] else [])
  {
    assert (gone + [n])[..|gone|] == gone;
  }

  /** `s` without the element `x`. */
  function Erase(s: seq<string>, x: string): (r: seq<string>)
    ensures forall y :: y in r <==> y in s && y != x
    decreases |s|
  {
    if s == [] then []
    else
      assert s == s[..|s| - 1] + [s[|s| - 1]];
      Erase(s[..|s| - 1], x) + (if s[|s| - 1] == x then [] else [s[|s| - 1]])
  }

  lemma {:induction false} EraseDistinct(s: seq<string>, x: string)
    requires Distinct(s)
    ensures Distinct(Erase(s, x))
    decreases |s|
  {
    if s != [] {
      var init, last := s[..|s| - 1], s[|s| - 1];
      assert s == init + [last];
      EraseDistinct(init, x);
      var e := Erase(init, x);
      var r := Erase(s, x);
      if last != x {
        assert last !in init;
        forall i, j | 0 <= i < j < |r| ensures r[i] != r[j] {
          if j == |r| - 1 { assert r[i] in e; }
        }
      }
    }
  }

  /** `del d[name]`. */
  function Delete(d: Dict, name: string): Dict {
    Dict(Erase(d.order, name), d.entries - {name})
  }

  /** The removal loop over `to_remove`. */
  function RemoveAll(d: Dict, gone: seq<string>): Dict
    decreases |gone|
  {
    if gone == [] then d else Delete(RemoveAll(d, gone[..|gone| - 1]), gone[|gone| - 1])
  }

  /** The dictionary after the arrivals of this call. */
  function Arrived(d: Dict, detected: seq<string>, now: int): Dict {
    ArriveAll(d, detected, now)
  }

  /** The names this call removes, in dictionary order. */
  function Departed(d: Dict, detected: seq<string>, now: int, grace: int): seq<string>
  {
    var a := Arrived(d, detected, now);
    Departures(a, a.order, detected, now, grace)
  }

  /** The dictionary `update_visitors` leaves behind. */
  function Updated(d: Dict, detected: seq<string>, now: int, grace: int): Dict
  {
    RemoveAll(Arrived(d, detected, now), Departed(d, detected, now, grace))
  }

  /** The session lines `update_visitors` appends to the log. */
  function NewSessions(d: Dict, detected: seq<string>, now: int, grace: int): seq<Session>
  {
    Sessions(Arrived(d, detected, now), Departed(d, detected, now, grace))
  }

  // ---- characterisation of the building blocks ---------------------------

  /** What the arrival loop does to every key. */
  lemma {:induction false} ArriveAllFacts(d: Dict, names: seq<string>, now: int)
    requires WellFormed(d)
    ensures var a := ArriveAll(d, names, now);
      && WellFormed(a)
      && (forall n :: n in a.entries <==> n in d.entries || (n in names && n != Unknown))
      && (forall n :: n in names && n != Unknown ==>
            a.entries[n] == Presence(if n in d.entries then d.entries[n].arrivedAt else now, now))
      && (forall n :: n in d.entries && (n !in names || n == Unknown) ==> a.entries[n] == d.entries[n])
    decreases |names|
  {
    if names != [] {
      var init := names[..|names| - 1];
      var last := names[|names| - 1];
      ArriveAllFacts(d, init, now);
      assert names == init + [last];
      var b := ArriveAll(d, init, now);
      var a := Arrive(b, last, now);
      assert a == ArriveAll(d, names, now);
      if last != Unknown && last !in b.entries {
        forall i, j | 0 <= i < j < |a.order| ensures a.order[i] != a.order[j] {
          if j == |a.order| - 1 { assert a.order[i] in b.order; }
        }
      }
    }
  }

  /** `Departures` keeps, in order and once each, exactly the names that depart. */
  lemma {:induction false} DeparturesFacts(d: Dict, names: seq<string>, detected: seq<string>, now: int, grace: int)
    requires forall n :: n in names ==> n in d.entries
    requires Distinct(names)
    ensures var gone := Departures(d, names, detected, now, grace);
      && Distinct(gone)
      && (forall n :: n in gone ==> n in d.entries)
      && (forall n :: n in gone <==> n in names && Departs(d.entries[n], n, detected, now, grace))
    decreases |names|
  {
    if names != [] {
      var init := names[..|names| - 1];
      var last := names[|names| - 1];
      assert names == init + [last];
      assert last !in init;
      DeparturesFacts(d, init, detected, now, grace);
    }
  }

  /** Session line `k` describes the `k`-th departed name. */
  lemma {:induction false} SessionsAt(d: Dict, gone: seq<string>, k: nat)
    requires forall n :: n in gone ==> n in d.entries
    requires k < |gone|
    ensures |Sessions(d, gone)| == |gone|
    ensures Sessions(d, gone)[k] == Record(gone[k], d.entries[gone[k]].arrivedAt, d.entries[gone[k]].lastSeen)
    decreases |gone|
  {
    var init := gone[..|gone| - 1];
    if k < |gone| - 1 {
      SessionsAt(d, init, k);
    } else if init != [] {
      SessionsAt(d, init, 0);
    }
  }

  /** The removal loop deletes exactly the listed keys and keeps the rest unchanged. */
  lemma {:induction false} RemoveAllFacts(d: Dict, gone: seq<string>)
    requires WellFormed(d)
    ensures var r := RemoveAll(d, gone);
      && WellFormed(r)
      && (forall n :: n in r.entries <==> n in d.entries && n !in gone)
      && (forall n :: n in r.entries ==> r.entries[n] == d.entries[n])
    decreases |gone|
  {
    if gone != [] {
      var init := gone[..|gone| - 1];
      assert gone == init + [gone[|gone| - 1]];
      RemoveAllFacts(d, init);
      EraseDistinct(RemoveAll(d, init).order, gone[|gone| - 1]);
    }
  }

  // ---- the properties update_visitors promises ---------------------------

  /** The dictionary `update_visitors` leaves behind lists each of its keys once. */
  lemma UpdatedWellFormed(d: Dict, detected: seq<string>, now: int, grace: int)
    requires WellFormed(d)
    ensures WellFormed(Updated(d, detected, now, grace))
  {
    ArriveAllFacts(d, detected, now);
    RemoveAllFacts(Arrived(d, detected, now), Departed(d, detected, now, grace));
  }

  /** "Unknown" is never inserted into the dictionary. */
  lemma UnknownNeverTracked(d: Dict, detected: seq<string>, now: int, grace: int)
    requires WellFormed(d)
    requires Unknown !in d.entries
    ensures WellFormed(Updated(d, detected, now, grace))
    ensures Unknown !in Updated(d, detected, now, grace).entries
  {
    ArriveAllFacts(d, detected, now);
    RemoveAllFacts(Arrived(d, detected, now), Departed(d, detected, now, grace));
  }

  /**
    * A detected name (other than "Unknown") is present afterwards, is never removed
    * in the same call, and has `last_seen == now`; its `arrived_at` is `now` when it
    * was absent and unchanged when it was present.
    */
  lemma DetectedStays(d: Dict, detected: seq<string>, now: int, grace: int, n: string)
    requires WellFormed(d)
    requires n in detected && n != Unknown
    ensures n in Updated(d, detected, now, grace).entries
    ensures Updated(d, detected, now, grace).entries[n]
            == Presence(if n in d.entries then d.entries[n].arrivedAt else now, now)
  {
    ArriveAllFacts(d, detected, now);
    var a := Arrived(d, detected, now);
    DeparturesFacts(a, a.order, detected, now, grace);
    RemoveAllFacts(a, Departed(d, detected, now, grace));
  }

  /**
    * A tracked name that is not detected is removed exactly when its absence
    * `now - last_seen` is strictly longer than the grace period; otherwise its
    * entry is left exactly as it was.
    */
  lemma UndetectedFate(d: Dict, detected: seq<string>, now: int, grace: int, n: string)
    requires WellFormed(d)
    requires n in d.entries && n !in detected
    ensures n !in Updated(d, detected, now, grace).entries
            <==> now - d.entries[n].lastSeen > grace * MicrosPerSecond
    ensures n in Updated(d, detected, now, grace).entries
            ==> Updated(d, detected, now, grace).entries[n] == d.entries[n]
  {
    ArriveAllFacts(d, detected, now);
    var a := Arrived(d, detected, now);
    DeparturesFacts(a, a.order, detected, now, grace);
    RemoveAllFacts(a, Departed(d, detected, now, grace));
  }

  /**
    * The keys afterwards are the keys before plus the detected names other than
    * "Unknown", minus the departed names; nothing else is removed.
    */
  lemma KeysAfterUpdate(d: Dict, detected: seq<string>, now: int, grace: int)
    requires WellFormed(d)
    ensures forall n :: n in Updated(d, detected, now, grace).entries
              <==> (n in d.entries || (n in detected && n != Unknown)) && n !in Departed(d, detected, now, grace)
    ensures forall n :: n in Departed(d, detected, now, grace)
              <==> n in d.entries && Departs(d.entries[n], n, detected, now, grace)
  {
    ArriveAllFacts(d, detected, now);
    var a := Arrived(d, detected, now);
    DeparturesFacts(a, a.order, detected, now, grace);
    RemoveAllFacts(a, Departed(d, detected, now, grace));
  }

  /**
    * Each removed name yields exactly one session line, in dictionary order, whose
    * `from` is the visit's `arrived_at` and whose `to` is its `last_seen` (not `now`).
    */
  lemma OneSessionPerDeparture(d: Dict, detected: seq<string>, now: int, grace: int)
    requires WellFormed(d)
    ensures var gone := Departed(d, detected, now, grace);
      && Distinct(gone)
      && (forall n :: n in gone <==> n in d.entries && n !in Updated(d, detected, now, grace).entries)
      && |NewSessions(d, detected, now, grace)| == |gone|
      && forall k :: 0 <= k < |gone| ==>
           NewSessions(d, detected, now, grace)[k]
             == Record(gone[k], d.entries[gone[k]].arrivedAt, d.entries[gone[k]].lastSeen)
  {
    ArriveAllFacts(d, detected, now);
    var a := Arrived(d, detected, now);
    DeparturesFacts(a, a.order, detected, now, grace);
    RemoveAllFacts(a, Departed(d, detected, now, grace));
    DepartedSessions(d, detected, now, grace);
  }

  /** The session lines of one call, one per removed name, with the times the table held before the call. */
  lemma DepartedSessions(d: Dict, detected: seq<string>, now: int, grace: int)
    requires WellFormed(d)
    ensures var gone := Departed(d, detected, now, grace);
      && |NewSessions(d, detected, now, grace)| == |gone|
      && forall k :: 0 <= k < |gone| ==>
           gone[k] in d.entries
           && NewSessions(d, detected, now, grace)[k]
                == Record(gone[k], d.entries[gone[k]].arrivedAt, d.entries[gone[k]].lastSeen)
  {
    ArriveAllFacts(d, detected, now);
    var a := Arrived(d, detected, now);
    DeparturesFacts(a, a.order, detected, now, grace);
    var gone := Departed(d, detected, now, grace);
    if gone != [] {
      SessionsAt(a, gone, 0);
    }
    forall k | 0 <= k < |gone|
      ensures gone[k] in d.entries
      ensures NewSessions(d, detected, now, grace)[k]
              == Record(gone[k], d.entries[gone[k]].arrivedAt, d.entries[gone[k]].lastSeen)
    {
      assert gone[k] in gone;
      SessionsAt(a, gone, k);
    }
  }

  /**
    * The session lines that reach the file when the appends for the
    * visitors in `failing` raise: `log_visitor_session` swallows each failure
    * on its own, so exactly those lines are lost and the rest keep their order.
    */
  function Written(lines: seq<Session>, failing: set<string>): seq<Session> {
    if lines == [] then []
    else
      var last := lines[|lines| - 1];
      Written(lines[..|lines| - 1], failing) + (if last.visitor in failing then [] else [last])
  }

  /** A line is written exactly when its append does not fail; with no failure, every line is written. */
  lemma {:induction false} WrittenFacts(lines: seq<Session>, failing: set<string>)
    ensures forall x :: x in Written(lines, failing) <==> x in lines && x.visitor !in failing
    ensures failing == {} ==> Written(lines, failing) == lines
    ensures |Written(lines, failing)| <= |lines|
  {
    WrittenMembers(lines, failing);
    if failing == {} {
      WrittenAll(lines, failing);
    }
  }

  lemma {:induction false} WrittenMembers(lines: seq<Session>, failing: set<string>)
    ensures forall x :: x in Written(lines, failing) <==> x in lines && x.visitor !in failing
    ensures |Written(lines, failing)| <= |lines|
  {
    if lines != [] {
      var init, last := lines[..|lines| - 1], lines[|lines| - 1];
      WrittenMembers(init, failing);
      assert lines == init + [last];
    }
  }

  lemma {:induction false} WrittenAll(lines: seq<Session>, failing: set<string>)
    requires failing == {}
    ensures Written(lines, failing) == lines
  {
    if lines != [] {
      var init := lines[..|lines| - 1];
      WrittenAll(init, failing);
      assert lines == init + [lines[|lines| - 1]];
    }
  }

  lemma WrittenStep(lines: seq<Session>, x: Session, failing: set<string>)
    ensures Written(lines + [x], failing) == Written(lines, failing) + (if x.visitor in failing then [] else [x])
  {
    assert (lines + [x])[..|lines|] == lines;
  }

  /** One more departed key adds its line to those written, unless its append fails. */
  lemma WrittenDeparture(d: Dict, gone: seq<string>, n: string, failing: set<string>)
    requires n in d.entries
    ensures Written(Sessions(d, gone + [n]), failing)
            == Written(Sessions(d, gone), failing)
               + (if n in failing then [] else [Record(n, d.entries[n].arrivedAt, d.entries[n].lastSeen)])
  {
    SessionsStep(d, gone, n);
    WrittenStep(Sessions(d, gone), Record(n, d.entries[n].arrivedAt, d.entries[n].lastSeen), failing);
  }

  lemma AppendAssoc<T>(a: seq<T>, b: seq<T>, c: seq<T>)
    ensures (a + b) + c == a + (b + c)
  {
  }

  /** Every entry's times are ordered: `arrived_at <= last_seen <= now`. */
  ghost predicate TimesOrdered(d: Dict, now: int) {
    forall n :: n in d.entries ==> d.entries[n].arrivedAt <= d.entries[n].lastSeen <= now
  }

  /** If `now` never decreases from one call to the next, every entry keeps `arrived_at <= last_seen`. */
  lemma TimesStayOrdered(d: Dict, detected: seq<string>, before: int, now: int, grace: int)
    requires WellFormed(d) && TimesOrdered(d, before) && before <= now
    ensures TimesOrdered(Updated(d, detected, now, grace), now)
  {
    ArriveAllFacts(d, detected, now);
    var a := Arrived(d, detected, now);
    assert TimesOrdered(a, now) by {
      forall n | n in a.entries ensures a.entries[n].arrivedAt <= a.entries[n].lastSeen <= now {
        if n !in detected || n == Unknown { assert a.entries[n] == d.entries[n]; }
      }
    }
    RemoveAllFacts(a, Departed(d, detected, now, grace));
  }

  // ---- the objects -------------------------------------------------------

  /** The append-only visitor log file. */
  class VisitorLog {
    var sessions: seq<Session>

    constructor ()
      ensures sessions == []
    {
      sessions := [];
    }
  }

  /** A visitor dictionary `{name: {"last_seen": ..., "arrived_at": ...}}`. */
  class ActiveVisitors {
    var order: seq<string>
    var entries: map<string, Presence>

    ghost predicate Valid()
      reads this
    {
      WellFormed(Value())
    }

    function Value(): Dict
      reads this
    {
      Dict(order, entries)
    }

    constructor ()
      ensures Valid() && Value() == Dict([], map[])
    {
      order, entries := [], map[];
    }

    /** The arrival of `name` at `now` (the body of the arrival loop). */
    method See(name: string, now: int)
      requires Valid()
      modifies this
      ensures Valid()
      ensures Value() == Arrive(old(Value()), name, now)
    {
      if name != Unknown {
        if name !in entries {
          assert name !in order;
          entries := entries[name := Presence(now, now)];
          order := order + [name];
          forall i, j | 0 <= i < j < |order| ensures order[i] != order[j] {
            if j == |order| - 1 { assert order[i] in old(order); }
          }
        } else {
          entries := entries[name := Presence(entries[name].arrivedAt, now)];
        }
      }
    }

    /** `del self[name]`. */
    method Remove(name: string)
      requires Valid()
      modifies this
      ensures Valid()
      ensures Value() == Delete(old(Value()), name)
    {
      EraseDistinct(order, name);
      entries := entries - {name};
      order := Erase(order, name);
    }
  }

  /**
    * `log_visitor_session`: appends one line for the visit of `name` from
    * `arrivedAt` to `leftAt`; when the log file cannot be appended to, the
    * error is swallowed and nothing is written.
    */
  method LogVisitorSession(name: string, arrivedAt: int, leftAt: int, log: VisitorLog, writable: bool)
    modifies log
    ensures log.sessions == old(log.sessions) + (if writable then [Record(name, arrivedAt, leftAt)] else [])
  {
    if writable {
      log.sessions := log.sessions + [Record(name, arrivedAt, leftAt)];
    }
  }

  /** The arrival loop of `update_visitors` ("Handle arrivals"). */
  method HandleArrivals(detected: seq<string>, active: ActiveVisitors, now: int)
    requires active.Valid()
    modifies active
    ensures active.Valid()
    ensures active.Value() == ArriveAll(old(active.Value()), detected, now)
  {
    ghost var d := active.Value();
    var i := 0;
    while i < |detected|
      invariant 0 <= i <= |detected|
      invariant active.Valid()
      invariant active.Value() == ArriveAll(d, detected[..i], now)
    {
      assert detected[..i + 1] == detected[..i] + [detected[i]];
      active.See(detected[i], now);
      i := i + 1;
    }
    assert detected[..i] == detected;
  }

  /**
    * The departure loop of `update_visitors` ("Handle departures"): walks the
    * dictionary in order, logs each departed visit and returns `to_remove`.
    */
  method HandleDepartures(detected: seq<string>, active: ActiveVisitors, log: VisitorLog,
                          grace: int, now: int, failing: set<string>) returns (toRemove: seq<string>)
    requires active.Valid()
    modifies log
    ensures toRemove == Departures(active.Value(), active.order, detected, now, grace)
    ensures forall n :: n in toRemove ==> n in active.entries
    ensures log.sessions == old(log.sessions) + Written(Sessions(active.Value(), toRemove), failing)
  {
    ghost var a := active.Value();
    var names, entries := active.order, active.entries;
    assert a.entries == entries;
    assert forall n :: n in names ==> n in entries;
    toRemove := [];
    ghost var written: seq<Session> := [];
    var j := 0;
    while j < |names|
      invariant 0 <= j <= |names|
      invariant toRemove == Departures(a, names[..j], detected, now, grace)
      invariant written == Written(Sessions(a, toRemove), failing)
      invariant log.sessions == old(log.sessions) + written
    {
      var name := names[j];
      assert name in names;
      DeparturesStep(a, names, j, detected, now, grace);
      ghost var before := log.sessions;
      var departs := CheckDeparture(name, entries[name], detected, log, grace, now, name !in failing);
      assert departs == (name in a.entries && Departs(a.entries[name], name, detected, now, grace));
      ghost var line := if departs && name !in failing then [Record(name, a.entries[name].arrivedAt, a.entries[name].lastSeen)] else [];
      assert log.sessions == before + line;
      if departs {
        WrittenDeparture(a, toRemove, name, failing);
        toRemove := toRemove + [name];
      }
      AppendAssoc(old(log.sessions), written, line);
      written := written + line;
      j := j + 1;
    }
    assert names[..j] == names;
  }

  /** The body of the departure loop for one entry: the departure test, and the log line when it departs. */
  method CheckDeparture(name: string, data: Presence, detected: seq<string>, log: VisitorLog,
                        grace: int, now: int, writable: bool) returns (departs: bool)
    modifies log
    ensures departs == Departs(data, name, detected, now, grace)
    ensures log.sessions == old(log.sessions)
              + (if departs && writable then [Record(name, data.arrivedAt, data.lastSeen)] else [])
  {
    departs := false;
    if name !in detected {
      if now - data.lastSeen > grace * MicrosPerSecond {
        LogVisitorSession(name, data.arrivedAt, data.lastSeen, log, writable);
        departs := true;
      }
    }
  }

  /** The removal loop of `update_visitors`: `del active_visitors[name]` for each name. */
  method RemoveDeparted(toRemove: seq<string>, active: ActiveVisitors)
    requires active.Valid()
    modifies active
    ensures active.Valid()
    ensures active.Value() == RemoveAll(old(active.Value()), toRemove)
  {
    ghost var a := active.Value();
    var k := 0;
    while k < |toRemove|
      invariant 0 <= k <= |toRemove|
      invariant active.Valid()
      invariant active.Value() == RemoveAll(a, toRemove[..k])
    {
      assert toRemove[..k + 1] == toRemove[..k] + [toRemove[k]];
      active.Remove(toRemove[k]);
      k := k + 1;
    }
    assert toRemove[..k] == toRemove;
  }

  /**
    * `update_visitors`: the arrivals, then the departures (each logged), then
    * the removals. `failing` names the visitors whose log append raises in
    * this call; each such failure loses that visitor's line only.
    */
  method UpdateVisitors(detected: seq<string>, active: ActiveVisitors, log: VisitorLog,
                        grace: int, now: int, failing: set<string>)
    requires active.Valid()
    modifies active, log
    ensures active.Valid()
    ensures active.Value() == Updated(old(active.Value()), detected, now, grace)
    ensures log.sessions == old(log.sessions)
              + Written(NewSessions(old(active.Value()), detected, now, grace), failing)
  {
    HandleArrivals(detected, active, now);
    var toRemove := HandleDepartures(detected, active, log, grace, now, failing);
    RemoveDeparted(toRemove, active);
  }
}
