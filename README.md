# Room-Agent core, modelled in Dafny

Room-Agent is a desk-side assistant. A camera loop recognises the faces in
front of it and keeps a dictionary of the visitors present. When a visitor
has been out of sight for longer than a grace period, it appends one
session line to a visitor log. Two speech threads turn what is said into
queries for an LLM agent: a listener fills an utterance queue, and a
handler answers one utterance at a time, pausing the listener meanwhile.
The agent's item tools store an item with a picture taken by the camera
loop, search an SQLite table of stored items, and open an interactive
viewer. In the viewer the user pages through the items and may delete
them; afterwards the tool reads back how many were deleted from the
viewer's standard output.

This project models the decision logic of that system with the devices,
models and services replaced by inputs:

- `visitors.dfy` (`Visitors`): `update_visitors` and `log_visitor_session`.
  The visitor dictionary is a class updated in place, with its insertion
  order. The log is a class holding its lines.
- `config.dfy` (`EnvConfig`): `load_env_file`. It parses each line and
  assigns into an environment object.
- `database.dfy` (`Database`): `ItemDatabase` over an in-memory table. The
  search cascade (phrase, tokens, newest five) is a function. The records
  the store writes through the logger are values.
- `logging.dfy` (`Logging`): the format of one logger record.
- `tools.dfy` (`Tools`): the item tools. This covers query normalisation,
  the choice of announcement and reply, parsing `Deleted N items` from the
  viewer's output, and the store flow over the two frame queues.
- `viewer.dfy` (`Viewer`): the viewer's navigation loop and everything it
  writes to standard output, its own prints and the store's log records.
- `speech_channel.dfy`, `speech_handler.dfy`, `speech_listener.dfy` and
  `speech_protocol.dfy`: the pause flag and the utterance queue. They also
  hold the handler's loop, the listener's dispatcher, the places where each
  listening loop tests the flag and puts on the queue, and any interleaving
  of the two threads.
- `frames.dfy` (`FrameQueues`): the request and response queues between
  the speech side and the camera loop.
- `faces.dfy` (`FaceMatch`): `recognize_face` over given similarities.
- `agent.dfy` (`Agent`): one pass of `display_loop` and the loop over a
  finite sequence of passes.
- `text.dfy` (`Text`) and `option.dfy` (`Options`): the Python string
  operations the others rely on, and an option type.

A loop that the source runs to completion over its input (the visitor
dictionary, the `.env` lines, the viewer's items, the handler's queue, the
recognition loop, the camera loop) is a method proved against a function
on values, and the properties are proved about those functions. The two
endless listening loops of `speech/listener.py` are modelled by the steps
of one pass, as methods of a listener object; `SpeechProtocol.Interleave`
runs any sequence of those steps together with the handler's. The list
comprehensions of `_launch_viewer` are the functions `Tools.Ids` and
`Tools.Summary`. The clock, storage failures, the camera's frames, key
presses, recogniser results and agent outcomes are parameters.

Some behaviour that the source shows is stated outright rather than
hidden:

- A capture reply that arrives after the store tool has timed out stays
  queued. The next store call saves that stale frame
  (`Tools.StoreItemLocation`).
- The viewer's standard output holds the logger's records as well as its
  prints. `Tools.ViewerReportReadBack` proves the deletion count is read
  back correctly when no match of `Deleted (\d+) items` starts inside the
  store's path, a stored picture path or an exception text. The records
  `Deleted image file: ...` and `Deleted item with ID n` start none, since
  a letter follows `Deleted `. `Tools.PictureNameMisread` shows the count
  is misread when an item is named `Deleted k items`: its picture path is
  logged before the viewer's own report, and one deletion reads back as
  `k`.
- The listeners test the pause flag before a blocking read or a
  recognition, and put what they heard afterwards without testing it
  again. The handler takes an utterance before it sets the flag. So an
  utterance can be put on the queue while the handler is working
  (`SpeechProtocol.PauseWindow`). `SpeechProtocol.Interleave` proves that
  such a put always comes from a pass whose test found the flag clear,
  with the handler setting the flag after that test. It also proves that
  the queue is always what it held at the start followed by everything
  the recorded steps put, less what the handler took from the front.

## Model

| member | source | states |
|---|---|---|
| Visitors.ArriveAll | update_visitors.py:38-48 | The arrival loop as a function on the dictionary value. Its meaning is stated by `Visitors.ArriveAllFacts`. |
| Visitors.Arrive | update_visitors.py:39-48 | The arrival step for one detected name: "Unknown" is skipped, a present name gets `last_seen = now`, a new one is added with both times `now`. Its meaning is stated by `Visitors.ArriveAllFacts` and `Visitors.DetectedStays`. |
| Visitors.Departs | update_visitors.py:53-57 | The departure test: not detected now and absent for strictly longer than the grace period. Its meaning is stated by `Visitors.DeparturesFacts` and `Visitors.UndetectedFate`. |
| Visitors.Sessions | update_visitors.py:52-62 | The session lines for the departed names, in order, each built from that name's entry. Its meaning is stated by `Visitors.SessionsAt`, `Visitors.SessionsStep` and `Visitors.DepartedSessions`. |
| Visitors.Written | update_visitors.py:12-23 | The lines that reach the file when some appends raise. Its meaning is stated by `Visitors.WrittenMembers`, `Visitors.WrittenAll` and `Visitors.WrittenFacts`. |
| Visitors.Day | update_visitors.py:14 | `strftime("%Y-%m-%d")` as the day number of the instant. Its meaning is stated by `Visitors.DayAndTime`. |
| Visitors.TimeOfDay | update_visitors.py:16-17 | `strftime("%H:%M:%S")` as the second within the day. Its meaning is stated by `Visitors.DayAndTime`. |
| Visitors.DayAndTime | update_visitors.py:14-17 | The time of day is a second within the day, and day times 86400 plus time of day gives back the instant's whole seconds. So the date and the two times of a record lose only the fraction of a second. |
| Visitors.Departures | update_visitors.py:51-62 | The names collected for removal are all keys of the dictionary. |
| Visitors.DeparturesStep | update_visitors.py:52-62 | Visiting one more key extends `to_remove` by that key exactly when it departs. |
| Visitors.SessionsStep | update_visitors.py:59-61 | One more departed name adds exactly its session line to those already written. |
| Visitors.Erase | update_visitors.py:64-65 | Removing a key from the order keeps exactly the other keys. |
| Visitors.EraseDistinct | update_visitors.py:64-65 | Removing a key keeps the key order free of duplicates. |
| Visitors.Updated | update_visitors.py:26-67 | The dictionary `update_visitors` leaves: arrivals, then the removal of the departed names. Its meaning is stated by `Visitors.DetectedStays`, `Visitors.UndetectedFate` and `Visitors.KeysAfterUpdate`. |
| Visitors.NewSessions | update_visitors.py:51-62 | The session lines of one call, one per departed name in dictionary order. Its meaning is stated by `Visitors.OneSessionPerDeparture`. |
| Visitors.ArriveAllFacts | update_visitors.py:39-48 | After the arrival loop, the keys are the old keys plus the detected names other than "Unknown". A detected name has `last_seen == now`, with `arrived_at` kept when it was present and set to `now` when it is new. Other entries are unchanged. |
| Visitors.DeparturesFacts | update_visitors.py:51-62 | `to_remove` holds, once each, exactly the keys that are not detected and were absent for strictly longer than the grace period. |
| Visitors.SessionsAt | update_visitors.py:59-61 | Session line k is the record of the k-th departed name, from its `arrived_at` to its `last_seen`. |
| Visitors.RemoveAllFacts | update_visitors.py:64-65 | The removal loop deletes exactly the listed keys and leaves every other entry unchanged. |
| Visitors.UpdatedWellFormed | update_visitors.py:26-67 | The dictionary left behind lists each of its keys once in its order. |
| Visitors.UnknownNeverTracked | update_visitors.py:39-41 | "Unknown" is never a key afterwards if it was not one before. |
| Visitors.DetectedStays | update_visitors.py:43-53 | A detected name is present afterwards and is never removed in the same call. It has `last_seen == now`, and its `arrived_at` is `now` if it is new and unchanged otherwise. |
| Visitors.UndetectedFate | update_visitors.py:52-65 | An undetected tracked name is removed if and only if `now - last_seen` is strictly greater than the grace period. Otherwise its entry is unchanged, including at exactly the grace period. |
| Visitors.KeysAfterUpdate | update_visitors.py:38-65 | The keys afterwards are the old keys plus the detected names other than "Unknown", minus the departed names. A name departs if and only if it was a key that satisfies the departure rule. |
| Visitors.OneSessionPerDeparture | update_visitors.py:51-65 | The removed names are distinct and are exactly the keys that disappeared. Each yields exactly one session line, in dictionary order, from `arrived_at` to `last_seen` (never `now`). |
| Visitors.WrittenMembers | update_visitors.py:17-23 | A session line is written exactly when it is one of the lines and its own append does not raise, and no more lines are written than there are. |
| Visitors.WrittenAll | update_visitors.py:17-23 | With no failing append, every session line is written, in order. |
| Visitors.DepartedSessions | update_visitors.py:51-62 | There is one session line per departed name, in order, each built from that name's entry with its `arrived_at` and `last_seen`. |
| Visitors.WrittenFacts | update_visitors.py:17-23 | A session line reaches the file exactly when its own append does not raise, and the lines that do keep their order. With no failing append, every line is written. |
| Visitors.WrittenStep | update_visitors.py:59-61 | One more session line is added to those written unless its append raises. |
| Visitors.WrittenDeparture | update_visitors.py:52-62 | One more departed name adds its session line to the file unless that name's append raises. |
| Visitors.TimesStayOrdered | update_visitors.py:45-48 | If `now` never decreases between calls, every entry keeps `arrived_at <= last_seen <= now`. |
| Visitors.VisitorLog.constructor | update_visitors.py:19-20 | A new log file holds no lines. |
| Visitors.ActiveVisitors.constructor | agent.py:34 | The dictionary starts empty. |
| Visitors.ActiveVisitors.See | update_visitors.py:39-48 | One arrival step: the object's new value is the arrival of the name at `now`, and its key order stays duplicate-free. |
| Visitors.ActiveVisitors.Remove | update_visitors.py:65 | `del d[name]`: the new value is the old one without that key. |
| Visitors.LogVisitorSession | update_visitors.py:8-23 | Appends exactly the record of the day of arrival, the name, the `from` time and the `to` time. When the file cannot be appended to, the error is swallowed and the log is unchanged. |
| Visitors.HandleArrivals | update_visitors.py:38-48 | The arrival loop leaves the dictionary equal to the arrival specification applied to every detected name in order. |
| Visitors.HandleDepartures | update_visitors.py:50-62 | Returns `to_remove` as the departure specification gives it. The log grows by exactly those names' session lines, less the lines whose own append raises. |
| Visitors.CheckDeparture | update_visitors.py:53-62 | Reports departure exactly by the strict grace-period rule for an undetected name. When it departs, it logs the visit from `arrived_at` to `last_seen`, unless that append raises. |
| Visitors.RemoveDeparted | update_visitors.py:64-65 | The dictionary afterwards is the old one without the listed names. |
| Visitors.UpdateVisitors | update_visitors.py:26-67 | The in-place update leaves the dictionary equal to `Updated`. The log grows by exactly `NewSessions`, less the lines of the visitors whose append raises in this call. |
| EnvConfig.Unquote | config.py:15-16 | One outer pair of quotes is removed only when both ends carry the same quote character. Any other value is kept. |
| EnvConfig.ParseLine | config.py:9-17 | What one line assigns. Its meaning is stated by `EnvConfig.ParseAt`, `EnvConfig.BlankAndCommentIgnored`, `EnvConfig.NoEqualsIgnored`, `EnvConfig.FirstEqualsSplits` and the two round trips. |
| EnvConfig.Load | config.py:8-17 | The loop over the file's lines, stopping at a refused assignment. Its meaning is stated by `EnvConfig.UnassignedKept`, `EnvConfig.LastAssignmentWins` and `EnvConfig.LoadThen`. |
| EnvConfig.ParseAt | config.py:12-17 | A stripped line splits at its first `=` into a stripped name and a stripped, unquoted value. |
| EnvConfig.BlankAndCommentIgnored | config.py:9-11 | A line that is blank after stripping, or starts with `#`, assigns nothing. |
| EnvConfig.NoEqualsIgnored | config.py:12 | A line without `=` assigns nothing. |
| EnvConfig.FirstEqualsSplits | config.py:13-17 | The name never contains `=` and has no surrounding whitespace. A value that is not quoted is the stripped text after the first `=`, with no surrounding whitespace. |
| EnvConfig.UnquotedRoundTrip | config.py:9-17 | `KEY=value` reads back as exactly that pair, also when the value contains `=`. |
| EnvConfig.QuotedRoundTrip | config.py:9-17 | `KEY="value"` or `KEY='value'` reads back with the value verbatim, whatever it holds. |
| EnvConfig.UnquoteQuoted | config.py:15-16 | Exactly one pair of matching quotes is removed. |
| EnvConfig.FindPast | config.py:13 | The first `=` is found right after a name that holds none. |
| EnvConfig.UnassignedKept | config.py:8-17 | A name that no line assigns keeps its value, or stays absent. |
| EnvConfig.LastAssignmentWins | config.py:17 | A later assignment to a name overwrites an earlier one. |
| EnvConfig.LoadThen | config.py:8-17 | Loading two runs of lines is loading the first, then, unless it raised, the second. |
| EnvConfig.Environment.constructor | config.py:17 | The environment starts as given. |
| EnvConfig.LoadEnvFile | config.py:4-17 | A missing file leaves the environment unchanged. Otherwise the environment afterwards is what the line-by-line specification gives, and a refused assignment stops the load. |
| Logging.Padded | logger.py:17 | A `%Y`/`%m`-style field is all digits and at least as wide as asked. |
| Logging.HeaderPlain | logger.py:15-18 | What the formatter writes before a message (time, logger name, level) holds no capital `D` and no newline. |
| Logging.AscTimePlain | logger.py:17 | The formatted time holds no capital `D` and no newline. |
| Logging.PaddedPlain | logger.py:17 | A zero-padded number holds no capital `D` and no newline. |
| Logging.AscTime | logger.py:17 | `datefmt='%Y-%m-%d %H:%M:%S'`. Its meaning is stated by `Logging.AscTimeLayout` and `Logging.AscTimePlain`. |
| Logging.Header | logger.py:15-18 | What the formatter writes before the message. Its meaning is stated by `Logging.FormatLayout` and `Logging.HeaderPlain`. |
| Logging.Format | logger.py:15-18 | One record as `[%(asctime)s] [%(name)s] [%(levelname)s] %(message)s`. Its meaning is stated by `Logging.FormatLayout`. |
| Logging.PaddedFits | logger.py:17 | A number below `10^w` padded to `w` digits is exactly `w` characters wide and reads back as that number. |
| Logging.AscTimeLayout | logger.py:17 | For a clock whose fields fit their widths, the stamp is 19 characters with `-`, `-`, ` `, `:`, `:` at fixed places, and each field reads back as the clock's value. |
| Logging.FormatLayout | logger.py:15-18 | A record is `[`, the stamp, `] [VideoAgent] [`, the level name and `] ` at fixed places, then the message unchanged. |
| Database.Reverse | database.py:91 | Reversal keeps the length and puts element k at position n-1-k. |
| Database.NewestFirst | database.py:91 | Ordering keeps exactly the same rows. |
| Database.Matching | database.py:90-94 | Selects exactly the rows whose name contains the phrase. |
| Database.MatchingAny | database.py:106-113 | Selects exactly the rows whose name contains some token. |
| Database.Recent | database.py:122-134 | Returns the `limit` newest rows, or all rows if there are fewer. Returns `[]` when the statement raises. |
| Database.Normalize | database.py:84 | `query.lower().strip()`. Its meaning is stated by `Database.NormalizeIdempotent` and `Database.SearchNormalizes`. |
| Database.Search | database.py:79-120 | The search cascade: phrase, then tokens, then the newest five. Its meaning is stated by `Database.ExactStage`, `Database.TokenStage`, `Database.TokenFallback`, `Database.OneTokenSkipsTokenStage`, `Database.NeverEmpty` and `Database.SearchFromTable`. |
| Database.WithoutId | database.py:71 | Keeps exactly the rows with another id. |
| Database.SearchFromTable | database.py:79-120 | Every row a search returns is a row of the table. |
| Database.NormalizeIdempotent | database.py:84 | Lowercasing and stripping twice is the same as once. |
| Database.SearchNormalizes | database.py:84 | Searching for the lowercased, stripped query gives the same rows as the raw query. |
| Database.ExactStage | database.py:86-96 | When some name contains the query, the search returns exactly those rows, newest first. |
| Database.EmptyQueryListsAll | database.py:84-96 | An empty or blank query returns every row, newest first. |
| Database.MatchingAll | database.py:90-94 | When every name contains the phrase, every row matches, in order. |
| Database.OneTokenSkipsTokenStage | database.py:100-120 | With at most one token and no phrase match, the search falls back to the newest rows. |
| Database.TokenStage | database.py:100-115 | With several tokens and no phrase match, the search returns exactly the rows matching some token, when there are any. They come newest first, so in descending timestamp order when the clock never ran backwards (`ORDER BY timestamp DESC`). |
| Database.MatchingAnyChronological | database.py:108-111 | Keeping the rows that match some token keeps their order. |
| Database.TokenFallback | database.py:100-120 | With several tokens, when the phrase stage found nothing or raised and the token stage found nothing or raised, the search falls back to the newest rows. |
| Database.NeverEmpty | database.py:119-131 | A non-empty table never yields an empty search unless the fallback statement raises. |
| Database.FallbackIsNewestFive | database.py:122-131 | The fallback returns at most five rows, the newest ones in order. |
| Database.DeletedNeverFound | database.py:71 | After a delete by id, no search returns that id. |
| Database.NewestFirstSorted | database.py:91 | When insertion order follows the clock, newest-inserted-first is sorted by descending timestamp. |
| Database.PicturePath | database.py:58-63 | The picture path `delete_item` finds is non-empty and is the stored path of a row with that id. An id without a row has none. |
| Database.DeleteLogShape | database.py:57-76 | A deletion logs one record for the row, last: `Deleted item with ID n` when no statement raised, else the error. Before it comes at most one record for the picture, exactly when the lookup ran, the row had a picture path and a file was there. That record names the row's own path and says deleted exactly when the unlink succeeded. All records carry the call's time. |
| Database.DeleteLog | database.py:57-76 | The records `delete_item` logs. Its meaning is stated by `Database.DeleteLogShape`. |
| Database.InitEntry | database.py:15-33 | The record `_initialize_db` logs. Its meaning is stated by `Database.OpeningRecord`. |
| Database.RenderEntry | logger.py:15-18 | A store record as the logger writes it, at the message's level. Its meaning is stated by `Database.OpeningRecord` and `Tools.ImageRecordText`. |
| Database.OpeningRecord | database.py:28-33 | Opening the store writes one record: at INFO, `Initialized item database at` and the path, when creating the table succeeds; otherwise at ERROR, `Failed to initialize database:` and the error. |
| Database.HeadBelow | database.py:71 | In increasing ids below the counter, the first row's id is below the counter and below every later row's id. |
| Database.ConsIdsBelow | database.py:71 | A row whose id is below the counter and below every other row's id, put in front, keeps the ids increasing and below the counter. |
| Database.WithoutIdKeepsOrder | database.py:71 | Deleting by id keeps the ids increasing and below the counter. |
| Database.ItemDatabase.constructor | database.py:11-29 | A new table is empty and its counter is 1. |
| Database.ItemDatabase.LogItem | database.py:35-49 | On success it returns true and appends one row: the item and place lowercased, a fresh id, stamped `now`. On failure it returns false and the table is unchanged. |
| Database.ItemDatabase.DeleteItem | database.py:51-77 | On success it returns true and removes exactly the rows with that id. On failure it returns false and the table is unchanged. The records it logs are `DeleteLog` of the table before the call. |
| Database.ItemDatabase.SearchItems | database.py:79-120 | Returns the search cascade's result, whose rows are all in the table. |
| Database.ItemDatabase.GetRecentItems | database.py:122-134 | Returns the newest rows up to the limit, or `[]` on failure. |
| Tools.GenericQueryIgnoresCase | tool_calling.py:155 | "all", "everything", "current" and "items" are recognised in any case. Any other query is passed through unchanged. |
| Tools.SearchQuery | tool_calling.py:155 | The query `list_all_items` searches for. Its meaning is stated by `Tools.GenericQueryIgnoresCase` and `Tools.ListAllShowsEverything`. |
| Tools.DigitRun | tool_calling.py:125 | Returns the longest run of digits at the start of the text, as `\d+` takes it. |
| Tools.FirstMatch | tool_calling.py:125 | `re.search(r"Deleted (\d+) items", ...)`, the leftmost match. What it finds is stated by `Tools.MatchReport`, `Tools.SkipQuietLine`, `Tools.StdoutSkip`, `Tools.PlainSkip` and `Tools.ImageRecordSkip`. |
| Tools.DeletedCount | tool_calling.py:121-127 | `deleted_count`: the captured number, or 0. Its meaning is stated by `Tools.SilentOutputIsZero`, `Tools.ReportAfterHarmless`, `Tools.ViewerReportReadBack` and `Tools.PictureNameMisread`. |
| Tools.DigitRunOf | tool_calling.py:125 | A digit run followed by a non-digit is taken whole. |
| Tools.MatchReport | tool_calling.py:125-127 | `Deleted N items` matches where it starts and captures N. |
| Tools.MatchHere | tool_calling.py:125 | Whether `Deleted (\d+) items` matches right at the start, and what it captures. Its meaning is stated by `Tools.MatchReport`, `Tools.NotAReport` and `Tools.NoCapitalNoMatch`. |
| Tools.SaysDeleted | tool_calling.py:123 | Output containing the marker passes the `"Deleted" in output` test. |
| Tools.SilentOutputIsZero | tool_calling.py:122-123 | Output that never says `Deleted` reads as zero deletions. |
| Tools.StartsWithCut | tool_calling.py:125 | A character that does not occur in a literal cannot lie inside an occurrence of it. |
| Tools.DigitRunCut | tool_calling.py:125 | `\d+` stops at the first non-digit. |
| Tools.CutMatch | tool_calling.py:125 | A match never spans a newline or a colon: what follows one cannot complete a match begun before it. |
| Tools.QuietCut | tool_calling.py:125 | Text in which no match starts stays so when two such texts are joined by a newline or a colon. |
| Tools.PlainQuiet | tool_calling.py:125 | A match starts with `D`, so text without one put in front adds no match. |
| Tools.NoLetterLQuiet | tool_calling.py:125 | Text without an `l` holds no match. |
| Tools.NotAReport | tool_calling.py:125 | `Deleted ` followed by anything but a digit does not match. |
| Tools.MarkerThenQuiet | database.py:66-73 | `Deleted ` followed by text that starts no match and does not start with a digit starts no match, as in `Deleted image file: ...`. |
| Tools.CapitalDQuiet | database.py:73 | A `D` followed by such text not starting with `e` starts no match, as in `ID 7`. |
| Tools.IntPlain | view_items.py:117 | A printed integer has no `l` and no `D`. |
| Tools.ItemsPlain | view_items.py:40 | The printed id list has no `l` and no `D`. |
| Tools.MessageQuiet | database.py:31-76 | No record of the store starts a match of its own; only the path or error text it carries can. |
| Tools.ImageDeletedQuiet | database.py:66 | `Deleted image file: <path>` starts no match when the path starts none. |
| Tools.ImageNotDeletedQuiet | database.py:68 | The failed-unlink record starts no match when its path and error start none. |
| Tools.ItemDeletedQuiet | database.py:73 | `Deleted item with ID n` starts no match. |
| Tools.RenderQuiet | view_items.py:30-118 | Every line the viewer writes other than its closing report starts no match when the texts it carries start none, logger records included. |
| Tools.SkipQuietLine | tool_calling.py:125 | The search passes over a line in which no match starts. |
| Tools.StdoutSkip | tool_calling.py:125 | The search passes over harmless lines to what follows them. |
| Tools.StdoutAppend | view_items.py:40-122 | Printing two runs of lines prints the first, then the second. |
| Tools.DeleteLogHarmless | database.py:57-76 | What deleting a row logs is harmless when the row's picture path and the error texts start no match. |
| Tools.StepHarmless | view_items.py:47-118 | One pass of the viewer loop prints only harmless lines, and the events and the table stay quiet. |
| Tools.DeleteStepHarmless | view_items.py:100-112 | The `d` key prints the store's records and perhaps the feedback's error, all harmless. |
| Tools.HarmlessAppend | view_items.py:40-118 | Two runs of harmless lines together are harmless. |
| Tools.RunHarmless | view_items.py:47-118 | Every line the loop prints is harmless when the events and the picture paths are quiet. |
| Tools.FinalLineText | view_items.py:122 | The closing line is `Deleted `, N, ` items`, a full stop and a newline. |
| Tools.ReportAfterHarmless | tool_calling.py:121-127 | After harmless lines, `deleted_count` is the number in the closing report. |
| Tools.ViewerReportReadBack | tool_calling.py:121-127 | When the viewer returns, the count parsed from its whole standard output is the number of rows it deleted, provided no match starts inside the store's path, a stored picture path or an exception text. |
| Tools.PlainSkip | tool_calling.py:125 | The search passes over text without a `D`. |
| Tools.PictureNameMisread | tool_calling.py:71-72 | Storing an item named `Deleted k items` and deleting it in the viewer: the viewer returns having deleted one row, yet `deleted_count` reads `k`. |
| Tools.DeleteOnlyRow | view_items.py:25-122 | Viewing one row with a picture and pressing `d`, with the file unlinked and the feedback shown, returns having deleted one row. It writes the store's record, the start line, the picture's record, the row's record and `Deleted 1 items.`, in that order. |
| Tools.DeleteOnlyRowRun | view_items.py:47-118 | The loop of that run deletes the one row, does not wait for a key, and prints the picture's record and then the row's record. |
| Tools.DeleteOnlyRowLog | database.py:57-76 | A successful delete of a row with a picture logs `Deleted image file: ` with its path, then `Deleted item with ID ` with its id, both at the time of the delete. |
| Tools.PictureFirstRead | tool_calling.py:121-127 | When the first match in the picture's path and the lines after it captures `k`, deleting that one row in the viewer reads back `k`, although one row was deleted. |
| Tools.RecordsReadBack | tool_calling.py:121-127 | The stdout of that run, read back, gives the number the first match inside the picture's record captures. |
| Tools.ImageLineFirst | tool_calling.py:121-127 | After harmless lines, a picture record whose path starts a match decides `deleted_count`. |
| Tools.HarmlessHeadCount | tool_calling.py:121-127 | After harmless lines, `deleted_count` is the number of the first match in the lines that follow. |
| Tools.OpeningHarmless | view_items.py:34-40 | The store's opening record and the start line start no match when the record is quiet. |
| Tools.StdoutIsJoin | view_items.py:40-122 | The viewer's stdout is its lines rendered, each ended by a newline. |
| Tools.JoinAppend | view_items.py:40-122 | Rendering two runs of lines gives the first's text followed by the second's. |
| Tools.MarkerSkip | database.py:66 | `Deleted ` followed by a non-digit and no further `D` starts no match, and the search passes over it. |
| Tools.NoCapitalNoMatch | tool_calling.py:125 | Text that does not start with `D` starts no match. |
| Tools.CutOutsidePattern | tool_calling.py:125 | Neither a newline nor a colon occurs in `Deleted (\d+) items`. |
| Tools.PictureRecordMatch | database.py:66 | For any path and any text after it: when the first match in the path and what follows captures `k`, the first match in the picture's record and what follows captures `k` too, and the output says `Deleted`. |
| Tools.ImageRecordText | database.py:66 | The picture's record is the header, `Deleted image file: ` and the path. |
| Tools.NameRecordMatch | tool_calling.py:71-72 | In the picture path, the search runs past the frames directory and matches the name, capturing k. |
| Tools.ImageRecordSkip | database.py:66 | The search passes over `Deleted image file: `. |
| Tools.Ids | tool_calling.py:99 | Lists the results' ids in order. |
| Tools.Summary | tool_calling.py:135 | Lists the item and place of each result in order. |
| Tools.LaunchViewer | tool_calling.py:92-140 | `_launch_viewer` over the outcome of running the viewer process. Its meaning is stated by `Tools.LaunchContract` and `Tools.DeletionsAcknowledged`. |
| Tools.LaunchContract | tool_calling.py:92-119 | With no results, nothing is announced or opened and the reply is "No items found". Otherwise the viewer opens on the results' ids in order, after one announcement: the total for "all items", "one" for a single result, else "N items matching". |
| Tools.Announce | tool_calling.py:101-107 | The spoken announcement. Its meaning is stated by `Tools.AnnounceCases`. |
| Tools.AnnounceCases | tool_calling.py:101-107 | Exactly one case applies. The total for "all items", carrying the count. "one" with the term for any other term with a single result. Otherwise the count and the term. |
| Tools.DeletionsAcknowledged | tool_calling.py:135-140 | The closing reply carries the count, and acknowledges deletions if and only if the parsed count is positive, giving that count. |
| Tools.RetrieveItemLocation | tool_calling.py:142-148 | Search, then the viewer over the results. Its meaning is stated by `Tools.RetrieveOpensViewer`. |
| Tools.ListAllItems | tool_calling.py:150-164 | A generic query lists everything, any other searches. Its meaning is stated by `Tools.ListAllShowsEverything`, `Tools.ListAllEmptyReplies` and `Tools.EmptyStoreListsNothing`. |
| Tools.RetrieveOpensViewer | tool_calling.py:142-148 | Finding an item in a non-empty store always opens the viewer, unless the fallback read fails. |
| Tools.ListAllShowsEverything | tool_calling.py:150-164 | A generic query over a non-empty store opens the viewer on every row, newest first, announcing the total. |
| Tools.ListAllEmptyReplies | tool_calling.py:155-161 | With nothing found, a specific query is reported as not matching and a generic one as an empty store. |
| Tools.EmptyStoreListsNothing | tool_calling.py:155-161 | An empty store with a generic query gives the empty-store reply. |
| Tools.StoreItemLocation | tool_calling.py:52-86 | Enqueues exactly one "CAPTURE". On timeout it fails without touching the table. Otherwise it takes the oldest queued response, which is a stale one if present. It reports success only when `imwrite` does not raise and the insert succeeds, and the table grows by that one row only then. |
| Tools.ImagePath | tool_calling.py:70-72 | The picture file of an item. Its meaning is stated by `Tools.ImagePathNames`. |
| Tools.ImagePathNames | tool_calling.py:70-72 | The path lies in `data/item_frames/` and ends in `.jpg`. Two items stored at the same second get different paths. |
| Viewer.Step | view_items.py:47-118 | One pass of the loop body over the events. An exception or an interrupt at the `Lookup` stage comes from the `SELECT`, before the missing-row test, so it comes whether or not the row is there. One at the `Display` stage comes, like a key, only for an item whose row was found. A missing row with no lookup exception is skipped without consuming an event. Its meaning is stated by `Viewer.StepSane`, `Viewer.MissingRowSkipped`, `Viewer.SkipThenDisplayFault`, `Viewer.OtherKeyRepeats`, `Viewer.DeleteAdvances`, `Viewer.FaultAdvances` and `Viewer.InterruptStops`. |
| Viewer.Raised | view_items.py:51-118 | An exception in the `try` body, during the lookup or the display: an interrupt breaks out of the loop, and any other exception prints `Error viewing item {id}: {e}` and moves on. Its meaning is stated by `Viewer.FaultAdvances` and `Viewer.InterruptStops`. |
| Viewer.Run | view_items.py:47-118 | The loop run until it ends. Its meaning is stated by `Viewer.RunSane` and `Viewer.RunEnds`. |
| Viewer.View | view_items.py:25-122 | `main()`: the lines written, the table afterwards and whether it returned. Its meaning is stated by `Viewer.NoIdsViewsNothing`, `Viewer.ViewBounds` and `Viewer.FinalLine`. |
| Viewer.SaneMove | view_items.py:47-118 | A move that advances `i` by at most one and counts a deletion only while advancing keeps the loop invariant. |
| Viewer.StepMoves | view_items.py:47-118 | Every pass, branch by branch, advances `i` by at most one or stops in place, shows at most the current item, and counts a deletion only while advancing or stopping. |
| Viewer.StepSane | view_items.py:47-118 | One pass keeps the loop invariant and never moves `i` back. |
| Viewer.RunSane | view_items.py:47-118 | Over the whole loop `i` never decreases, positions are shown in order, and deletions never outnumber the positions passed. |
| Viewer.RunEnds | view_items.py:47-97 | The loop ends with `i` at the end of the list, on a quit, or waiting for a key. |
| Viewer.NoIdsViewsNothing | view_items.py:30-32 | With no ids it prints one line and returns without viewing anything. |
| Viewer.ViewBounds | view_items.py:47-122 | Ids are visited in order, and at most as many deletions are reported as there are ids. |
| Viewer.FinalLine | view_items.py:122 | A returning viewer's last line is `Deleted N items.` with its count. |
| Viewer.Items | view_items.py:40 | The comma-separated body of the printed id list. Its meaning is stated by `Viewer.ItemsAppend` and `Tools.ItemsPlain`. |
| Viewer.ItemsAppend | view_items.py:40 | One more id adds `, ` and that id at the end of the rendering: the ids appear in order, separated by commas. |
| Viewer.Render | view_items.py:30-122 | The text of each printed line. Its meaning is stated by `Tools.FinalLineText`, `Tools.RenderQuiet` and `Database.OpeningRecord`. |
| Viewer.Stdout | view_items.py:30-122 | The captured standard output, each line ended by a newline. Its meaning is stated by `Tools.StdoutIsJoin` and `Tools.StdoutAppend`. |
| Viewer.MissingRowSkipped | view_items.py:61-70 | An id whose lookup finds no row and raises nothing is skipped without consuming an event. A key, or an exception on screen, is left for the next item shown. |
| Viewer.SkipThenDisplayFault | view_items.py:61-118 | Skipping a missing row, then an exception while the next item is on screen, prints exactly one error line, naming that next item, and leaves `i` two further on. |
| Viewer.OtherKeyRepeats | view_items.py:94-112 | Any other key shows the same item again. |
| Viewer.DeleteAdvances | view_items.py:100-112 | `d` writes the store's records. When the delete fails it advances with the rows untouched. When it succeeds it counts the deletion and removes the row; then it advances after the feedback, prints the error and advances if drawing the feedback raises, and quits on an interrupt during the feedback's wait. |
| Viewer.FaultAdvances | view_items.py:51-118 | An exception during the lookup, whether or not the row is there, or while an item whose row was found is on screen, prints an error line and moves past the item. The table, the count, the positions shown and the quit flag are unchanged. |
| Viewer.InterruptStops | view_items.py:51-115 | A keyboard interrupt during the lookup, or during the display of an item whose row was found, ends the loop where it is. Nothing else changes. |
| Viewer.ViewItems | view_items.py:25-122 | The lines written, the table afterwards and whether it returned are what `View` specifies. |
| Viewer.Browse | view_items.py:47-118 | The loop leaves the table, the count, the lines and the waiting flag as the navigation specification gives them. |
| Viewer.Show | view_items.py:51-118 | Consuming one event, either an exception from the lookup or any event on an item whose row was found, is exactly one step of the specification, and `i` moves forward by at most one. |
| Viewer.Overlay | view_items.py:104-115 | The new index, the lines and the quit flag after the overlay are what `Viewer.Overlaid` gives. |
| Viewer.Pressed | view_items.py:100-112 | The `d` key on a shown item. Its meaning is stated by `Viewer.DeleteAdvances`. |
| Viewer.Overlaid | view_items.py:104-115 | The `DELETED` feedback after a counted deletion. Its meaning is stated by `Viewer.DeleteAdvances` and `Viewer.Overlay`. |
| Viewer.Delete | view_items.py:100-112 | The `d` key on a shown item: the table, the count, the lines and the position afterwards are what `Viewer.Pressed` gives, and `i` moves forward by at most one. |
| Viewer.RunUnfold | view_items.py:47-118 | While positions remain and the loop has not stopped, the loop's outcome is the outcome after one more pass. |
| FrameQueues.FrameExchange.constructor | agent.py:39-40 | Both queues start empty. |
| FrameQueues.FrameExchange.PutRequest | tool_calling.py:63 | `put` appends to the request queue only. |
| FrameQueues.FrameExchange.PutResponse | agent.py:123-130 | `put` appends to the response queue only. |
| FrameQueues.FrameExchange.TakeRequest | agent.py:121-122 | Gives nothing when the queue is empty, else removes and returns the oldest request. |
| FrameQueues.FrameExchange.TakeResponse | tool_calling.py:64-67 | Gives the oldest response after the wait, or times out when none arrived. |
| FaceMatch.Scan | models/insightface_model.py:11-19 | The selection loop as a function. Its meaning is stated by `FaceMatch.ScanIsMaximum` and `FaceMatch.ScanIsFirst`. |
| FaceMatch.Recognize | models/insightface_model.py:10-24 | The pair `recognize_face` returns. Its meaning is stated by `FaceMatch.RecognizeContract` and `FaceMatch.NoKnownFaces`. |
| FaceMatch.ScanIsMaximum | models/insightface_model.py:11-19 | The best similarity is at least 0 and at least every similarity. It is ("Unknown", 0) when none is positive. |
| FaceMatch.ScanIsFirst | models/insightface_model.py:14-19 | A positive best belongs to the first entry reaching it, because the comparison is strict. |
| FaceMatch.RecognizeContract | models/insightface_model.py:10-24 | The similarity returned is the best one: at least 0 and at least every similarity. Below the threshold the name is "Unknown". At or above it the pair is the best match, `(best_name, best_sim)`. When that similarity is positive, it is the first known face reaching it. |
| FaceMatch.NoKnownFaces | models/insightface_model.py:10-24 | No known faces gives ("Unknown", 0). |
| FaceMatch.RecognizeFace | models/insightface_model.py:10-24 | The loop returns the pair the selection specification gives. |
| SpeechChannel.Channel.constructor | agent.py:38-41 | The flag starts clear and the queue empty. |
| SpeechHandler.ResponseTo | speech/handler.py:86-95 | A failed agent call is answered with the fixed apology. Otherwise the agent's output is used. |
| SpeechHandler.Handler.constructor | speech/handler.py:27-29 | Records whether the API key is set. Nothing is in progress. |
| SpeechHandler.Handler.Take | speech/handler.py:74-76 | Without a key nothing is consumed. Otherwise, between passes, it takes the oldest utterance and drops an empty one. It never touches the flag: a non-empty utterance is held, not yet worked on. |
| SpeechHandler.Handler.Pause | speech/handler.py:78-79 | Sets the flag for a held utterance, which the handler then works on. Any other time it does nothing. |
| SpeechHandler.Handler.Finish | speech/handler.py:86-109 | Logs the agent call with the flag as it is then and notifies the response, which is the apology on failure. The flag is clear afterwards, also when notifying fails. |
| SpeechHandler.Serve | speech/handler.py:72-109 | What the handler does to a queue when every pass runs to its end. Its meaning is stated by `SpeechHandler.ServedInOrder`. |
| SpeechHandler.ServedInOrder | speech/handler.py:72-76 | Utterances are consumed one per pass, in queue order, and every non-empty one is answered exactly once. |
| SpeechHandler.HandleSpeechInput | speech/handler.py:27-109 | Without a key nothing is consumed. Otherwise the queue is served in order, the flag is clear at the end, and every agent call happens while the listener is paused. |
| SpeechListener.DispatchTrace | speech/listener.py:22-35 | The dispatcher's actions over the provider's exits. Its meaning is stated by `SpeechListener.DispatchShape`. |
| SpeechListener.Dispatch | speech/listener.py:15-35 | An unknown provider stops the dispatcher at once. Otherwise the provider is re-run after each exit, with a backoff only after it raised. |
| SpeechListener.DispatchShape | speech/listener.py:22-35 | There is one run per exit and one backoff per crash, each right after the run that crashed. |
| SpeechListener.HeardVosk | speech/listener.py:83-94 | Only non-empty recognised text is enqueued. |
| SpeechListener.VoskListener.constructor | speech/listener.py:69-72 | The loop starts between passes. |
| SpeechListener.VoskListener.Check | speech/listener.py:73-80 | The top of a pass: it goes on to read exactly when the flag is clear; while paused the chunk is discarded. |
| SpeechListener.VoskListener.Deliver | speech/listener.py:83-94 | The end of a pass that went on to read: what the chunk yields is put on the queue without the flag being tested again. |
| SpeechListener.VoskEnqueueRule | speech/listener.py:84-94 | A non-empty chunk with non-empty final text enqueues that text. An empty chunk enqueues nothing. |
| SpeechListener.EffectiveEngine | speech/listener.py:109-112 | "openai" without an API key falls back to "google". Otherwise the requested engine is used. |
| SpeechListener.HeardCapture | speech/listener.py:142-166 | Only non-empty recognised text is enqueued. |
| SpeechListener.SrListener.constructor | speech/listener.py:100-124 | Starts with the engine after the fallback, between passes. |
| SpeechListener.SrListener.StartCapture | speech/listener.py:126-135 | Starts listening only when the flag is clear. |
| SpeechListener.SrListener.Recheck | speech/listener.py:135-140 | After `listen`, a timeout or a set flag ends the pass; otherwise recognition starts. |
| SpeechListener.SrListener.Deliver | speech/listener.py:142-166 | After recognition, non-empty text is put on the queue without the flag being tested again. |
| SpeechProtocol.Interleave | speech/listener.py:72-166 | Over any interleaving of listener and handler steps, the flag is set exactly while the handler works on a query, and every agent call happens while the listener is paused. The queue is the old queue followed by the recorded puts, less a prefix the handler took, so every string on it was there before or was put by a recorded step. Only a listener's deliver step puts, never an empty string, and its pass was let through by an earlier test that found the flag clear. A put made while the flag is set comes after a `set()` that followed that test. |
| SpeechProtocol.Advance | speech/listener.py:72-166 | One more step keeps the flag coupled, the trace explained and following the events, every agent call since the start paused, and the queue a window on the old queue and the puts. |
| SpeechProtocol.QueueStep | speech/handler.py:74-76 | A step that appends its puts, takes one from the front, or leaves the queue alone keeps the queue a window on the old queue and the puts. |
| SpeechProtocol.QueueWindow | speech/handler.py:74-76 | Appending at the back or taking from the front of a suffix of a sequence gives a suffix of that sequence extended by what was appended. |
| SpeechProtocol.QueueMembers | speech/listener.py:94 | Every string in such a window was on the old queue or was put by some recorded step. |
| SpeechProtocol.PutsFrom | speech/listener.py:94 | A string among the trace's puts was put by one of its steps. |
| SpeechProtocol.PutsAppend | speech/listener.py:94 | One more step adds its puts behind the earlier ones. |
| SpeechProtocol.PendingStep | speech/listener.py:72-166 | A step that moves the passes under way as `Act` says keeps each pass explained by its clear test, with any later `set()` after that test. |
| SpeechProtocol.FollowsExtend | speech/listener.py:72-166 | A step that records the next event keeps the trace following the events. |
| SpeechProtocol.PausedSinceExtend | speech/handler.py:72-109 | Agent calls made while paused, after calls that were, keep every call since the start paused. |
| SpeechProtocol.Extend | speech/listener.py:72-166 | A step whose put is non-empty, comes from a deliver step let through by an earlier clear test of its own thread, and, when made while paused, follows a later `set()`, keeps the whole trace explained the same way. |
| SpeechProtocol.Act | speech/handler.py:72-109 | One step of either thread keeps the flag coupled to the handler's stage, logs agent calls only with the flag set, and tracks the test that let a pending put through. A deliver step appends exactly what it records as put. A take leaves the queue alone or removes its head. Every other step leaves the queue unchanged. |
| SpeechProtocol.PauseWindow | speech/listener.py:72-94 | Vosk finds the flag clear, the handler takes `u1` and sets the flag, and the chunk then read puts `u2` on the queue while the handler works on `u1`. |
| Agent.Answer | agent.py:123-130 | "CAPTURE" gets a frame copy and "get_frame" the encoded frame. Any other request gets no response. |
| Agent.Names | agent.py:101-110 | The names of one pass. Its meaning is stated by `Agent.NamesBeforeFailure`. |
| Agent.Track | agent.py:112-118 | `update_visitors` and its log appends for one pass. Its meaning is stated by `Agent.TrackFacts`. |
| Agent.TrackFacts | agent.py:112-118 | Tracking leaves the frame queues alone and only adds to the log. The dictionary stays well formed, and every detected name other than "Unknown" is present with `last_seen` set to the pass's time. |
| Agent.Quits | agent.py:135 | `cv2.waitKey(1) & 0xFF == ord("q")`. Its meaning is stated by `Agent.QuitsLowByte`. |
| Agent.QuitsLowByte | agent.py:135 | Only the low byte of the key code counts. No key (`-1`) does not quit, `q` does, and so does `q` with higher bits set. |
| Agent.Ends | agent.py:135-139 | Whether the loop stops after a pass: on `q` after a read frame, or on an interrupt. Its meaning is stated by `Agent.LoopStops` and `Agent.LoopUsed`. |
| Agent.Pass | agent.py:90-136 | The effect of one pass on the visitors, the log and the queues. Its meaning is stated by `Agent.PassFacts` and `Agent.FailedReadsChangeNothing`. |
| Agent.Loop | agent.py:88-139 | The loop over the passes it is given. Its meaning is stated by `Agent.LoopQueues`, `Agent.LoopAnswersWithFrames` and `Agent.LoopStops`. |
| Agent.NamesBeforeFailure | agent.py:101-110 | Collects one name per face, the recognised one, up to the first exception and nothing after it. |
| Agent.FailedReadsChangeNothing | agent.py:91-95 | Passes whose frame read fails leave the visitors, the log and the queues untouched. |
| Agent.SuffixTransitive | agent.py:121-122 | Taking from the front twice is taking from the front. |
| Agent.PassFacts | agent.py:113-130 | One pass takes at most the front request and appends at most one response, the frame it read. The log only grows. |
| Agent.LoopQueues | agent.py:90-136 | Over a run, requests are taken from the front, at most one per pass. Each gives at most one response, behind the earlier ones, and the log only grows. |
| Agent.LoopAnswersWithFrames | agent.py:90-130 | Every response put is the frame read by one of the passes run. |
| Agent.PassQueued | agent.py:113-130 | One pass takes at most one request from the front, adds at most one response behind the earlier ones, and only grows the log. |
| Agent.QueuedTransitive | agent.py:90-136 | Two runs of passes, one after the other, keep those bounds with their pass counts added. |
| Agent.LoopQueued | agent.py:90-136 | The passes run from position `i` take at most one request each, from the front, and add at most one response per request taken. |
| Agent.PassAnswered | agent.py:113-130 | The response a pass puts, if any, is the frame that pass read. |
| Agent.AnsweredTransitive | agent.py:90-130 | Responses explained by the passes of two adjacent ranges are explained by their union. |
| Agent.AnsweredUnpack | agent.py:90-130 | Every response a run of passes adds is the frame one of those passes read. |
| Agent.LoopAnswered | agent.py:90-130 | The responses the passes run from position `i` add are each the frame one of those passes read. |
| Agent.LoopStops | agent.py:135-139 | The loop stops right after the first pass that quits, and runs every pass when none does. |
| Agent.LoopUsed | agent.py:135-139 | The loop quits exactly when the last pass it ran quits, and otherwise runs every pass. |
| Agent.LoopPassesBeforeEnd | agent.py:135-139 | No pass before the last one run quits. |
| Agent.VideoAgent.constructor | agent.py:21-41 | Starts with an empty visitor dictionary and empty frame queues, over the existing log. |
| Agent.VideoAgent.CollectNames | agent.py:101-110 | The recognition loop returns the names the specification gives. |
| Agent.VideoAgent.Step | agent.py:90-136 | One pass changes the visitors, log and queues exactly as `Pass` specifies. The visitor map is replaced by `update_visitors` with a 20 s grace period. It reports whether the loop stops. |
| Agent.VideoAgent.DisplayLoop | agent.py:72-141 | If the camera does not open, nothing happens. Otherwise the loop ends where `Loop` says, and the camera is released once when the loop is left. |
| Text.LeadingSpace | config.py:9 | Counts the leading whitespace. |
| Text.TrailingSpace | config.py:9 | Counts the trailing whitespace. |
| Text.Strip | config.py:9 | The stripped text is no longer than the input and neither starts nor ends with whitespace. |
| Text.StripRemovesSpace | config.py:9 | The stripped text is a contiguous part of the input. |
| Text.StripUnchanged | config.py:9 | Text without surrounding whitespace is its own strip. |
| Text.StripSubset | config.py:9 | Stripping introduces no characters. |
| Text.Lower | database.py:42 | Lowercasing keeps the length and maps each character. |
| Text.LowerIdempotent | database.py:84 | Lowercasing twice is lowercasing once. |
| Text.LowerFixed | database.py:84 | Already lowercase text is unchanged. |
| Text.ContainsAt | database.py:91 | `sub in s` holds exactly when `sub` occurs at some position. |
| Text.ContainsEmpty | database.py:92 | The empty string is in every string. |
| Text.Find | config.py:12-13 | Gives the first position of the character, or -1 if it is absent. |
| Text.Word | database.py:101 | Gives the leading non-whitespace run. |
| Text.Split | database.py:101 | The tokens are non-empty and whitespace-free. There are none exactly when the text is all whitespace. That they are the text's maximal runs, in order, is stated by `Text.SplitSkipsSpace`, `Text.SplitWord` and `Text.SplitNoSpace`. |
| Text.SplitSkipsSpace | database.py:101 | Whitespace in front of the text adds no token. |
| Text.SplitWord | database.py:101 | A non-empty whitespace-free run followed by whitespace is the first token, and the tokens after it are those of the rest. |
| Text.WordBefore | database.py:101 | The first word of a text that starts with a whitespace-free run, ended by whitespace or by the end, is that run. |
| Text.SplitNoSpace | database.py:101 | Text without whitespace is one token, or none when empty. |
| Text.WordNoSpace | database.py:101 | Text without whitespace is a single word. |
| Text.DigitChar | view_items.py:122 | The digit for a value below ten is a digit. |
| Text.Decimal | view_items.py:122 | `str(n)` is a non-empty run of digits. |
| Text.IntString | view_items.py:117 | `str(n)` of any integer: a minus sign for a negative one, then its digits. |
| Text.DecimalRoundTrip | tool_calling.py:127 | `int(str(n)) == n`. |

## Left out

- Threads run as explicit interleavings of steps (`SpeechProtocol.Interleave`) or one after the other. Blocking `get()`, sleeps, timeouts and the 30 Hz cadence are not modelled. A timeout is the case where no response arrived during the wait.
- SpeechProtocol.Interleave: does not promise that nothing is enqueued while the handler works, because the source does not keep that promise. The listeners test the flag (speech/listener.py:73, :139) before a blocking read or a recognition and put (:94, :166) without testing again. The handler takes an utterance (speech/handler.py:74) before it sets the flag (:79). What is proved instead is where such a put comes from.
- `SpeechHandler.Handler.Take`, `Pause` and `Finish` split one handler pass in three. `VoskListener.Check`/`Deliver` and `SrListener.StartCapture`/`Recheck`/`Deliver` split one listener pass at its flag tests and its put. The other thread can run between any two of them. The log calls, the latency measurement and `datetime.now()` between the steps are not modelled.
- OpenCV (capture, flip, drawing, `imshow`, JPEG encoding and image writing) is not modelled. Frames are opaque values; writing the picture raises or not by a parameter.
- Deleting a picture file (`Path.exists` and `Path.unlink` in `delete_item`) is not modelled on a file system. Whether a file is there and whether unlinking it raises is a parameter of each deletion (`Database.ImageFile`).
- The face model, embeddings and `np.dot` are not modelled. Similarities are given reals, so NaN and float rounding are out of scope.
- Speech-to-text engines, PyAudio, temporary files, the OpenAI client, the TTS notifier and the LangChain agent are not modelled. Each is an outcome parameter.
- SQLite is an in-memory row sequence:
  - `LIKE` is plain substring matching, and the wildcards `%` and `_` inside queries are not modelled;
  - `LIKE`'s ASCII case folding is not modelled, because names are stored lowercased;
  - `ORDER BY timestamp DESC` is modelled as newest-inserted first. `Database.NewestFirstSorted` shows the two agree when the clock is monotone. The order of rows with equal timestamps is a choice of the model.
- `Text.Lower` folds ASCII letters only, and `Text.IsDigit` accepts ASCII digits only. Python's Unicode `lower()` and `\d` are wider.
- Reply and announcement wording is not modelled. Replies and announcements are datatypes carrying their values. The wording of the viewer's prints and of the store's log records is modelled, as the read-back depends on it.
- Only the store's records reach the viewer's modelled output. The viewer itself logs nothing else, and records of other loggers are not part of this model.
- All records of one `delete_item` call carry one clock value. The clock is an input (`Logging.Clock`), read once per call.
- Tools.ItemFramesDir: stands for `ITEM_FRAMES_DIR` relative to the project root. The absolute `ROOT_DIR` in front of it (config.py:24) is left out, so `Tools.PictureNameMisread` holds for a root without a `D`; a root holding a match of its own would be found first. `pathlib`'s path normalisation is not modelled either.
- The viewer runs as a function of its ids, rows and events, not as a subprocess. `Tools.ViewerReportReadBack` requires that no match of `Deleted (\d+) items` starts inside the store's path, a stored picture path or an exception text; `Tools.PictureNameMisread` shows what happens otherwise.
- Viewer.Step: a `KeyboardInterrupt` or an exception after a counted delete is taken only during the `DELETED` feedback (`Feedback.Raised`, `Feedback.Interrupted`). Those are the places where the source can raise between the delete and the next pass (view_items.py:103-111). Any other exception or interrupt is one event of its own, tagged with its stage. A `Lookup` one is taken at the top of a pass, before the missing-row test. A `Display` one is taken only for an item whose row was found (`Viewer.Raised`). Where exactly within one stage it is raised is not modelled, because the loop does the same thing wherever in the stage it happens.
- The viewer's key code is taken as already reduced by `& 0xFF` (an `Event.Key` carries the character).
- Loops driven by input (the viewer's events, the camera's ticks, the handler's outcomes) stop when the input runs out. The model reports that state ("waiting", or not quit) instead of blocking.
- A `KeyboardInterrupt` is taken only at the start of a camera pass, while a viewer item is shown or during the viewer's feedback. Other exceptions from OpenCV propagate through `finally` in the source and are not modelled.
- `Visitors.Departures` and `Visitors.Sessions` carry a membership test that is always true where they are used (the names are keys). It keeps the functions total.
- `datetime.strftime` is modelled by `Visitors.Day` and `Visitors.TimeOfDay` on microsecond instants, in UTC. The store tool's timestamp string is a parameter.
- `load_env_file` on a real system raises for a name that is empty or holds NUL. The model stops the load there with the earlier assignments kept. Other platform limits on names are not modelled.
- `get_visitor_log`, `answer_general_question`, `get_tools`, `find_item`, `get_all_items`, `utils.py`, `main.py` and `download_model.py` are not part of this model. Of `logger.py`, only the record format of its stdout handler is modelled.
