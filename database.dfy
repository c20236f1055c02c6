/**
  * `ItemDatabase` of `database.py`: the `item_log` table held in memory as
  * its rows in insertion order, with the AUTOINCREMENT counter. Storage
  * failures (an exception from the database driver) are parameters: each says
  * whether the corresponding statement raised.
  */
module Database {
  import opened Text
  import opened Options
  import opened Logging

  /** One row of `item_log`. */
  datatype Row = Row(id: int, itemName: string, placeName: string, imagePath: string,
                     timestamp: int, description: string)

  /** Which of the three search statements raise. */
  datatype SearchFaults = SearchFaults(exact: bool, tokens: bool, recent: bool)

  const NoFaults := SearchFaults(false, false, false)

  /** The default `limit` of `get_recent_items`. */
  const RecentLimit: nat := 5

  function Reverse<T>(s: seq<T>): (r: seq<T>)
    ensures |r| == |s|
    ensures forall k :: 0 <= k < |s| ==> r[k] == s[|s| - 1 - k]
  {
    if s == [] then [] else Reverse(s[1..]) + [s[0]]
  }

  /** `ORDER BY timestamp DESC`, with rows of equal timestamp newest-inserted first. */
  function NewestFirst(rows: seq<Row>): (r: seq<Row>)
    ensures |r| == |rows|
    ensures forall x :: x in r <==> x in rows
  {
    var r := Reverse(rows);
    assert forall x :: x in rows ==> x in r by {
      forall x | x in rows ensures x in r {
        var k :| 0 <= k < |rows| && rows[k] == x;
        assert r[|rows| - 1 - k] == x;
      }
    }
    r
  }

  /** `WHERE item_name LIKE '%q%'`, in table order. */
  function Matching(rows: seq<Row>, q: string): (r: seq<Row>)
    ensures forall x :: x in r <==> x in rows && Contains(x.itemName, q)
  {
    if rows == [] then []
    else (if Contains(rows[0].itemName, q) then [rows[0]] else []) + Matching(rows[1..], q)
  }

  /** Whether some token occurs in `name`. */
  predicate ContainsAny(name: string, tokens: seq<string>) {
    exists t :: t in tokens && Contains(name, t)
  }

  /** `WHERE item_name LIKE '%t1%' OR item_name LIKE '%t2%' ...`, in table order. */
  function MatchingAny(rows: seq<Row>, tokens: seq<string>): (r: seq<Row>)
    ensures forall x :: x in r <==> x in rows && ContainsAny(x.itemName, tokens)
  {
    if rows == [] then []
    else (if ContainsAny(rows[0].itemName, tokens) then [rows[0]] else []) + MatchingAny(rows[1..], tokens)
  }

  /** The query as matched: `query.lower().strip()`. */
  function Normalize(query: string): string {
    Strip(Lower(query))
  }

  /** `get_recent_items(limit)`: the `limit` newest rows, or `[]` when the statement raises. */
  function Recent(rows: seq<Row>, limit: nat, fault: bool): (r: seq<Row>)
    ensures fault ==> r == []
    ensures !fault ==> |r| == if |rows| < limit then |rows| else limit
    ensures forall x :: x in r ==> x in rows
  {
    if fault then []
    else
      var all := NewestFirst(rows);
      if |all| <= limit then all else all[..limit]
  }

  /** `search_items`: exact phrase match, then (for several tokens) any-token match, then the newest rows. */
  function Search(rows: seq<Row>, query: string, faults: SearchFaults): seq<Row> {
    var q := Normalize(query);
    var exact := NewestFirst(Matching(rows, q));
    if !faults.exact && exact != [] then exact
    else
      var tokens := Split(q);
      var byToken := NewestFirst(MatchingAny(rows, tokens));
      if |tokens| > 1 && !faults.tokens && byToken != [] then byToken
      else Recent(rows, RecentLimit, faults.recent)
  }

  /** The rows other than the one with id `id`. */
  function WithoutId(rows: seq<Row>, id: int): (r: seq<Row>)
    ensures forall x :: x in r <==> x in rows && x.id != id
  {
    if rows == [] then []
    else (if rows[0].id == id then [] else [rows[0]]) + WithoutId(rows[1..], id)
  }

  // ---- properties of the search cascade -----------------------------------

  /** Every row a search returns is a row of the table. */
  lemma SearchFromTable(rows: seq<Row>, query: string, faults: SearchFaults)
    ensures forall x :: x in Search(rows, query, faults) ==> x in rows
  {
  }

  /** The query is lowercased and stripped before matching: a normalised query searches the same. */
  lemma NormalizeIdempotent(query: string)
    ensures Normalize(Normalize(query)) == Normalize(query)
  {
    var l := Lower(query);
    var s := Strip(l);
    StripSubset(l);
    assert forall c :: c in l ==> LowerChar(c) == c;
    LowerFixed(s);
    StripUnchanged(s);
  }

  /** Searching for an already normalised query gives the same rows. */
  lemma SearchNormalizes(rows: seq<Row>, query: string, faults: SearchFaults)
    ensures Search(rows, Normalize(query), faults) == Search(rows, query, faults)
  {
    NormalizeIdempotent(query);
  }

  /** When some item name contains the query, the search returns exactly those rows, newest first. */
  lemma ExactStage(rows: seq<Row>, query: string, faults: SearchFaults)
    requires !faults.exact
    requires exists x :: x in rows && Contains(x.itemName, Normalize(query))
    ensures Search(rows, query, faults) == NewestFirst(Matching(rows, Normalize(query)))
    ensures forall x :: x in Search(rows, query, faults) <==> x in rows && Contains(x.itemName, Normalize(query))
  {
    var x :| x in rows && Contains(x.itemName, Normalize(query));
    assert x in Matching(rows, Normalize(query));
  }

  /** The empty (or blank) query matches every row: the search lists the whole table, newest first. */
  lemma EmptyQueryListsAll(rows: seq<Row>, query: string, faults: SearchFaults)
    requires rows != [] && !faults.exact
    requires Normalize(query) == ""
    ensures Search(rows, query, faults) == NewestFirst(rows)
  {
    forall x | x in rows ensures Contains(x.itemName, "") { ContainsEmpty(x.itemName); }
    MatchingAll(rows, "");
  }

  lemma {:induction false} MatchingAll(rows: seq<Row>, q: string)
    requires forall x :: x in rows ==> Contains(x.itemName, q)
    ensures Matching(rows, q) == rows
  {
    if rows != [] {
      MatchingAll(rows[1..], q);
    }
  }

  /** The token stage runs only for a query of more than one token: otherwise a miss falls back to the newest rows. */
  lemma OneTokenSkipsTokenStage(rows: seq<Row>, query: string, faults: SearchFaults)
    requires |Split(Normalize(query))| <= 1
    requires faults.exact || Matching(rows, Normalize(query)) == []
    ensures Search(rows, query, faults) == Recent(rows, RecentLimit, faults.recent)
  {
  }

  /**
    * With several tokens and no phrase match, the search returns exactly the rows
    * whose name contains some token, when there are any, newest first: in
    * descending timestamp order when the clock never ran backwards.
    */
  lemma TokenStage(rows: seq<Row>, query: string, faults: SearchFaults)
    requires |Split(Normalize(query))| > 1 && !faults.tokens
    requires faults.exact || Matching(rows, Normalize(query)) == []
    requires exists x :: x in rows && ContainsAny(x.itemName, Split(Normalize(query)))
    ensures Search(rows, query, faults) == NewestFirst(MatchingAny(rows, Split(Normalize(query))))
    ensures forall x :: x in Search(rows, query, faults)
              <==> x in rows && ContainsAny(x.itemName, Split(Normalize(query)))
    ensures Chronological(rows) ==>
              var r := Search(rows, query, faults);
              forall i, j :: 0 <= i < j < |r| ==> r[i].timestamp >= r[j].timestamp
  {
    var tokens := Split(Normalize(query));
    var x :| x in rows && ContainsAny(x.itemName, tokens);
    var byToken := NewestFirst(MatchingAny(rows, tokens));
    assert x in MatchingAny(rows, tokens) && x in byToken;
    assert Search(rows, query, faults) == byToken;
    if Chronological(rows) {
      MatchingAnyChronological(rows, tokens);
      NewestFirstSorted(MatchingAny(rows, tokens));
    }
  }

  /** Keeping the rows that match some token keeps their order. */
  lemma {:induction false} MatchingAnyChronological(rows: seq<Row>, tokens: seq<string>)
    requires Chronological(rows)
    ensures Chronological(MatchingAny(rows, tokens))
  {
    if rows != [] {
      var tail := rows[1..];
      assert Chronological(tail) by {
        forall i, j | 0 <= i < j < |tail| ensures tail[i].timestamp <= tail[j].timestamp {
          assert tail[i] == rows[i + 1] && tail[j] == rows[j + 1];
        }
      }
      MatchingAnyChronological(tail, tokens);
      var rest := MatchingAny(tail, tokens);
      forall y | y in rest ensures rows[0].timestamp <= y.timestamp {
        var k :| 0 <= k < |tail| && tail[k] == y;
        assert y == rows[k + 1];
      }
    }
  }

  /**
    * With several tokens, a phrase stage that found nothing or raised, and a
    * token stage that found nothing or raised, the search falls back to the
    * newest rows.
    */
  lemma TokenFallback(rows: seq<Row>, query: string, faults: SearchFaults)
    requires |Split(Normalize(query))| > 1
    requires faults.exact || Matching(rows, Normalize(query)) == []
    requires faults.tokens || MatchingAny(rows, Split(Normalize(query))) == []
    ensures Search(rows, query, faults) == Recent(rows, RecentLimit, faults.recent)
  {
  }

  /** A table that is not empty never yields an empty search, unless the fallback statement itself raises. */
  lemma NeverEmpty(rows: seq<Row>, query: string, faults: SearchFaults)
    requires rows != [] && !faults.recent
    ensures Search(rows, query, faults) != []
  {
  }

  /** The fallback returns at most five rows, the newest ones. */
  lemma FallbackIsNewestFive(rows: seq<Row>)
    ensures |Recent(rows, RecentLimit, false)| <= RecentLimit
    ensures Recent(rows, RecentLimit, false) == NewestFirst(rows)[..|Recent(rows, RecentLimit, false)|]
  {
  }

  /** After a row is deleted by id, no search returns that id. */
  lemma DeletedNeverFound(rows: seq<Row>, id: int, query: string, faults: SearchFaults)
    ensures forall x :: x in Search(WithoutId(rows, id), query, faults) ==> x.id != id
  {
    SearchFromTable(WithoutId(rows, id), query, faults);
  }

  /** Insertion order matches the clock: timestamps never decrease along the table. */
  predicate Chronological(rows: seq<Row>) {
    forall i, j :: 0 <= i < j < |rows| ==> rows[i].timestamp <= rows[j].timestamp
  }

  /** When the clock never runs backwards, newest-inserted-first is `ORDER BY timestamp DESC`. */
  lemma NewestFirstSorted(rows: seq<Row>)
    requires Chronological(rows)
    ensures forall i, j :: 0 <= i < j < |rows| ==> NewestFirst(rows)[i].timestamp >= NewestFirst(rows)[j].timestamp
  {
  }

  // ---- what the store logs --------------------------------------------------

  /** The messages `database.py` logs while the viewer runs. */
  datatype Message =
    | Initialized(path: string)
    | InitFailed(error: string)
    | ImageDeleted(path: string)
    | ImageNotDeleted(path: string, error: string)
    | ItemDeleted(id: int)
    | ItemNotDeleted(id: int, error: string)

  /** One logged message and the time it was logged. */
  datatype LogEntry = LogEntry(at: Clock, message: Message)

  function MessageLevel(m: Message): Level {
    if m.Initialized? || m.ImageDeleted? || m.ItemDeleted? then Info else Error
  }

  function MessageText(m: Message): string {
    match m
    case Initialized(p) => "Initialized item database at " + p
    case InitFailed(e) => "Failed to initialize database: " + e
    case ImageDeleted(p) => "Deleted image file: " + p
    case ImageNotDeleted(p, e) => "Failed to delete image file " + p + ": " + e
    case ItemDeleted(id) => "Deleted item with ID " + IntString(id)
    case ItemNotDeleted(id, e) => "Failed to delete item " + IntString(id) + ": " + e
  }

  /** The line the logger writes for an entry. */
  function RenderEntry(e: LogEntry): string {
    Format(e.at, MessageLevel(e.message), MessageText(e.message))
  }

  /** How opening the store went: its path, the error creating the table raised if any, and when. */
  datatype Opening = Opening(path: string, failure: Option<string>, at: Clock)

  /** What `_initialize_db` logs. */
  function InitEntry(o: Opening): LogEntry {
    LogEntry(o.at, match o.failure case None => Initialized(o.path) case Some(e) => InitFailed(e))
  }

  /**
    * Opening the store writes one record: at INFO, naming the store's path,
    * when creating the table succeeded, otherwise at ERROR with the error.
    */
  lemma OpeningRecord(o: Opening)
    ensures o.failure.None? ==>
              RenderEntry(InitEntry(o)) == Format(o.at, Info, "Initialized item database at " + o.path)
    ensures o.failure.Some? ==>
              RenderEntry(InitEntry(o)) == Format(o.at, Error, "Failed to initialize database: " + o.failure.value)
  {
  }

  /** What happens to a picture file that `delete_item` removes: there is none on disk, it goes, or removing it raises. */
  datatype ImageFile = NoFile | Unlinked | UnlinkRaised(error: string)

  /** Which statement of `delete_item` raises: none, the picture lookup, or the delete itself. */
  datatype DeleteFault = NoFault | LookupRaised(error: string) | DeleteRaised(error: string)

  /** The circumstances of one `delete_item` call. */
  datatype Deletion = Deletion(file: ImageFile, fault: DeleteFault, at: Clock)

  /** `SELECT image_path ... WHERE id = ?` and the `if result and result[0]` test: the stored path, when it is not empty. */
  function PicturePath(rows: seq<Row>, id: int): (p: Option<string>)
    ensures p.Some? ==> p.value != "" && exists x :: x in rows && x.id == id && x.imagePath == p.value
    ensures (forall x :: x in rows ==> x.id != id) ==> p == None
  {
    if rows == [] then None
    else if rows[0].id == id then (if rows[0].imagePath != "" then Some(rows[0].imagePath) else None)
    else PicturePath(rows[1..], id)
  }

  /** The entries `delete_item` logs: the picture's fate, if it had one, then the row's. */
  function DeleteLog(rows: seq<Row>, id: int, d: Deletion): seq<LogEntry> {
    var image :=
      if d.fault.LookupRaised? then []
      else match PicturePath(rows, id)
        case None => []
        case Some(p) =>
          match d.file
          case NoFile => []
          case Unlinked => [LogEntry(d.at, ImageDeleted(p))]
          case UnlinkRaised(e) => [LogEntry(d.at, ImageNotDeleted(p, e))];
    image + [LogEntry(d.at, if d.fault.NoFault? then ItemDeleted(id) else ItemNotDeleted(id, d.fault.error))]
  }

  /**
    * A deletion logs one entry for the row, last: that it was deleted when no
    * statement raised, otherwise the error. Before it comes at most one entry
    * for the picture, exactly when the lookup ran, the row had a picture
    * path and a file was there; that entry names the row's own path.
    */
  lemma DeleteLogShape(rows: seq<Row>, id: int, d: Deletion)
    ensures var log := DeleteLog(rows, id, d);
            && 1 <= |log| <= 2
            && log[|log| - 1].message
               == (if d.fault.NoFault? then ItemDeleted(id) else ItemNotDeleted(id, d.fault.error))
            && (|log| == 2 <==> !d.fault.LookupRaised? && PicturePath(rows, id).Some? && !d.file.NoFile?)
            && (|log| == 2 ==> log[0].message.path == PicturePath(rows, id).value)
            && (|log| == 2 ==> (log[0].message.ImageDeleted? <==> d.file.Unlinked?))
            && (|log| == 2 ==> exists x :: x in rows && x.id == id && x.imagePath == log[0].message.path)
            && (forall k :: 0 <= k < |log| ==> log[k].at == d.at)
  {
  }

  /** The table's ids are strictly increasing (AUTOINCREMENT) and below the counter. */
  predicate IdsBelow(rows: seq<Row>, nextId: int) {
    && (forall i, j :: 0 <= i < j < |rows| ==> rows[i].id < rows[j].id)
    && (forall i :: 0 <= i < |rows| ==> rows[i].id < nextId)
  }

  /** The item store. */
  class ItemDatabase {
    var rows: seq<Row>
    var nextId: int

    ghost predicate Valid()
      reads this
    {
      nextId >= 1 && IdsBelow(rows, nextId)
    }

    /** A freshly created, empty table. */
    constructor ()
      ensures Valid() && rows == [] && nextId == 1
    {
      rows, nextId := [], 1;
    }

    /**
      * `log_item`: inserts the item and place lowercased, stamped `now`, under a
      * fresh id, and returns true; when the statement raises, returns false and
      * the table is unchanged.
      */
    method LogItem(itemName: string, placeName: string, imagePath: string, description: string,
                   now: int, storageOk: bool) returns (ok: bool)
      requires Valid()
      modifies this
      ensures Valid()
      ensures ok == storageOk
      ensures ok ==> rows == old(rows) + [Row(old(nextId), Lower(itemName), Lower(placeName), imagePath, now, description)]
      ensures ok ==> nextId > old(nextId)
      ensures !ok ==> rows == old(rows) && nextId == old(nextId)
    {
      if !storageOk {
        return false;
      }
      rows := rows + [Row(nextId, Lower(itemName), Lower(placeName), imagePath, now, description)];
      nextId := nextId + 1;
      return true;
    }

    /**
      * `delete_item`: looks up the row's picture path, removes the picture
      * file if there is one, then deletes the row. It returns true, or false
      * when a statement raises, and then the table is unchanged. `log` is
      * what it writes through the logger.
      */
    method DeleteItem(id: int, d: Deletion) returns (ok: bool, log: seq<LogEntry>)
      requires Valid()
      modifies this
      ensures Valid() && nextId == old(nextId)
      ensures ok == d.fault.NoFault?
      ensures ok ==> rows == WithoutId(old(rows), id)
      ensures !ok ==> rows == old(rows)
      ensures log == DeleteLog(old(rows), id, d)
    {
      log := [];
      if !d.fault.LookupRaised? {
        var path := PicturePath(rows, id);
        if path.Some? {
          match d.file {
            case NoFile =>
            case Unlinked => log := [LogEntry(d.at, ImageDeleted(path.value))];
            case UnlinkRaised(e) => log := [LogEntry(d.at, ImageNotDeleted(path.value, e))];
          }
        }
      }
      if !d.fault.NoFault? {
        return false, log + [LogEntry(d.at, ItemNotDeleted(id, d.fault.error))];
      }
      WithoutIdKeepsOrder(rows, id, nextId);
      rows := WithoutId(rows, id);
      return true, log + [LogEntry(d.at, ItemDeleted(id))];
    }

    /** `search_items`. */
    method SearchItems(query: string, faults: SearchFaults) returns (results: seq<Row>)
      ensures results == Search(rows, query, faults)
      ensures forall x :: x in results ==> x in rows
    {
      SearchFromTable(rows, query, faults);
      results := Search(rows, query, faults);
    }

    /** `get_recent_items`. */
    method GetRecentItems(limit: nat, fault: bool) returns (results: seq<Row>)
      ensures results == Recent(rows, limit, fault)
    {
      results := Recent(rows, limit, fault);
    }
  }

  lemma {:induction false} WithoutIdKeepsOrder(rows: seq<Row>, id: int, nextId: int)
    requires IdsBelow(rows, nextId)
    ensures IdsBelow(WithoutId(rows, id), nextId)
    decreases |rows|
  {
    if rows != [] {
      var tail := rows[1..];
      assert IdsBelow(tail, nextId);
      WithoutIdKeepsOrder(tail, id, nextId);
      var rt := WithoutId(tail, id);
      if rows[0].id != id {
        HeadBelow(rows, nextId);
        ConsIdsBelow(rows[0], rt, nextId);
        assert WithoutId(rows, id) == [rows[0]] + rt;
      } else {
        assert WithoutId(rows, id) == rt;
      }
    }
  }

  /** In an ordered table the first id is below every later one. */
  lemma HeadBelow(rows: seq<Row>, nextId: int)
    requires rows != [] && IdsBelow(rows, nextId)
    ensures rows[0].id < nextId
    ensures forall y :: y in rows[1..] ==> rows[0].id < y.id
  {
    forall y | y in rows[1..] ensures rows[0].id < y.id {
      var k :| 0 <= k < |rows[1..]| && rows[1..][k] == y;
      assert y == rows[k + 1];
    }
  }

  /** A row below every id of an ordered table, and below the counter, can go in front of it. */
  lemma ConsIdsBelow(x: Row, rows: seq<Row>, nextId: int)
    requires IdsBelow(rows, nextId) && x.id < nextId
    requires forall y :: y in rows ==> x.id < y.id
    ensures IdsBelow([x] + rows, nextId)
  {
    var r := [x] + rows;
    forall i, j | 0 <= i < j < |r| ensures r[i].id < r[j].id {
      assert r[j] == rows[j - 1];
      if i > 0 {
        assert r[i] == rows[i - 1];
      }
    }
  }
}
