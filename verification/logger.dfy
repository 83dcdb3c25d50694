/**
 * The diagnostic log (USGS_Stream_Gage_Logger): a newest-first list of at
 * most 100 entries kept in one WordPress option. Every operation here takes
 * the stored list and returns the new one.
 */
module Logger {
  import opened Base

  const MaxLogs: nat := 100

  const LevelInfo := "info"
  const LevelError := "error"
  const LevelWarning := "warning"
  const LevelDebug := "debug"

  /** Loosely-typed payload values recorded with an entry. */
  datatype LogValue =
    | Text(s: string)
    | Int(i: int)
    | Flag(b: bool)
    | Fields(pairs: seq<(string, LogValue)>)

  /** A log entry. `level` is a free string, as in the source: callers may pass any level. */
  datatype LogEntry = LogEntry(timestamp: int, message: string, data: map<string, LogValue>, level: string)

  type Log = seq<LogEntry>

  // ---------------------------------------------------------------------------
  // log()
  // ---------------------------------------------------------------------------

  /**
   * `r` is `log` with `entry` put in front and cut to `MaxLogs` entries:
   * the new entry first, then the existing entries in their order, the
   * oldest ones dropped only when the bound is exceeded.
   */
  ghost predicate PrependedBounded(r: Log, log: Log, entry: LogEntry) {
    && |r| == (if |log| + 1 <= MaxLogs then |log| + 1 else MaxLogs)
    && r[0] == entry
    && r[1..] == log[..|r| - 1]
  }

  /** Prepend `entry` and keep at most `MaxLogs` entries, dropping the oldest (the tail). */
  function Prepend(log: Log, entry: LogEntry): (r: Log)
    ensures PrependedBounded(r, log, entry)
    ensures 1 <= |r| <= MaxLogs
  {
    var logs := [entry] + log;
    if |logs| > MaxLogs then logs[..MaxLogs] else logs
  }

  /** `log($message, $data, $level)` at time `now`. */
  function Record(log: Log, now: int, message: string, data: map<string, LogValue>, level: string): (r: Log)
    ensures PrependedBounded(r, log, LogEntry(now, message, data, level))
    ensures 1 <= |r| <= MaxLogs
  {
    Prepend(log, LogEntry(now, message, data, level))
  }

  /** Nothing already logged is lost while the log has room. */
  lemma PrependKeepsAllWhileRoom(log: Log, entry: LogEntry)
    requires |log| < MaxLogs
    ensures Prepend(log, entry) == [entry] + log
  {
  }

  /** Once full, logging drops exactly the oldest entry and keeps the size at the bound. */
  lemma {:induction false} PrependWhenFull(log: Log, entry: LogEntry)
    requires |log| == MaxLogs
    ensures |Prepend(log, entry)| == MaxLogs
    ensures Prepend(log, entry) == [entry] + log[..MaxLogs - 1]
  {
    var r := Prepend(log, entry);
    assert r == [r[0]] + r[1..];
  }

  // ---------------------------------------------------------------------------
  // log_request(), log_response(), log_error()
  // ---------------------------------------------------------------------------

  /** `log_request`: a debug-level entry naming the endpoint. */
  function RecordRequest(log: Log, now: int, endpoint: string): (r: Log)
    ensures |r| >= 1 && PrependedBounded(r, log, r[0])
    ensures r[0].level == LevelDebug && r[0].message == "API Request"
  {
    Record(log, now, "API Request", map["endpoint" := Text(endpoint)], LevelDebug)
  }

  /** `log_error`: an error-level entry carrying the transport error message. */
  function RecordError(log: Log, now: int, message: string, error: string): (r: Log)
    ensures |r| >= 1 && PrependedBounded(r, log, r[0])
    ensures r[0].level == LevelError && r[0].message == message
  {
    Record(log, now, message, map["message" := Text(error)], LevelError)
  }

  const PreviewLength: nat := 500

  /** The preview of a body that is not JSON: its first 500 characters, then "..." when it was longer. */
  function Preview(body: string): (r: string)
    ensures |body| <= PreviewLength ==> r == body
    ensures |body| > PreviewLength ==>
              |r| == PreviewLength + 3 && r[..PreviewLength] == body[..PreviewLength] && r[PreviewLength..] == "..."
    ensures |r| <= PreviewLength + 3
  {
    Prefix(body, PreviewLength) + (if |body| > PreviewLength then "..." else "")
  }

  /** The level `log_response` chooses: debug for a 2xx status, error for anything else. */
  function ResponseLevel(status: int): (level: string)
    ensures level == LevelDebug <==> 200 <= status < 300
    ensures level == LevelError <==> !(200 <= status < 300)
  {
    if 200 <= status < 300 then LevelDebug else LevelError
  }

  /**
   * `log_response`. `isJson` says whether the body decoded to a non-empty
   * JSON value; `summary` is the condensed structure recorded in that case.
   */
  function RecordResponse(log: Log, now: int, endpoint: string, status: int, body: string,
                          isJson: bool, summary: seq<(string, LogValue)>): (r: Log)
    ensures |r| >= 1 && PrependedBounded(r, log, r[0])
    ensures r[0].message == "API Response"
    ensures r[0].level == LevelDebug <==> 200 <= status < 300
    ensures "response_preview" in r[0].data <==> !isJson
    ensures !isJson ==> r[0].data["response_preview"] == Text(Preview(body))
  {
    var base := map["endpoint" := Text(endpoint), "status_code" := Int(status)];
    var data := if isJson then base["response_summary" := Fields(summary)]
                else base["response_preview" := Text(Preview(body))];
    Record(log, now, "API Response", data, ResponseLevel(status))
  }

  // ---------------------------------------------------------------------------
  // get_logs(), clear_logs(), get_logs_count()
  // ---------------------------------------------------------------------------

  /** The entries of `log` whose level is exactly `level`, in order. */
  function FilterLevel(log: Log, level: string): (r: Log)
    ensures |r| <= |log|
    ensures forall k :: 0 <= k < |r| ==> r[k].level == level
  {
    if |log| == 0 then []
    else if log[0].level == level then [log[0]] + FilterLevel(log[1..], level)
    else FilterLevel(log[1..], level)
  }

  /** `array_slice($logs, 0, $n)`: a negative length drops that many entries from the end. */
  function SliceFront(log: Log, n: int): (r: Log)
    ensures n >= 0 ==> r == log[..if n <= |log| then n else |log|]
    ensures n < 0 ==> r == log[..if |log| + n >= 0 then |log| + n else 0]
  {
    if n >= 0 then (if n <= |log| then log[..n] else log)
    else (if |log| + n >= 0 then log[..|log| + n] else [])
  }

  /**
   * `get_logs($level, $limit)`. A level that is null or PHP-falsy ("" or "0")
   * does not filter; a limit that is null or 0 does not truncate.
   */
  function GetLogs(log: Log, level: Option<string>, limit: Option<int>): (r: Log)
  {
    var filtered := if level.Some? && !PhpEmpty(level.value) then FilterLevel(log, level.value) else log;
    if limit.Some? && limit.value != 0 && |filtered| > limit.value then SliceFront(filtered, limit.value)
    else filtered
  }

  /** `clear_logs`. */
  function ClearLogs(log: Log): Log {
    []
  }

  /** `get_logs_count`. */
  function LogsCount(log: Log): nat {
    |log|
  }

  /** The count follows the log: one more per entry until the bound, zero after clearing. */
  lemma LogsCountTracksLog(log: Log, now: int, message: string, data: map<string, LogValue>, level: string)
    ensures LogsCount(Record(log, now, message, data, level)) == if |log| < MaxLogs then |log| + 1 else MaxLogs
    ensures LogsCount(ClearLogs(log)) == 0
  {
  }

  /** Number of entries at `level`, counted over a prefix so that a forward scan can use it. */
  function CountLevel(log: Log, level: string): (n: nat)
    ensures n <= |log|
  {
    if |log| == 0 then 0
    else CountLevel(log[..|log| - 1], level) + (if log[|log| - 1].level == level then 1 else 0)
  }

  lemma {:induction false} CountLevelCons(e: LogEntry, log: Log, level: string)
    ensures CountLevel([e] + log, level) == (if e.level == level then 1 else 0) + CountLevel(log, level)
    decreases |log|
  {
    if |log| > 0 {
      var whole := [e] + log;
      assert whole[..|whole| - 1] == [e] + log[..|log| - 1];
      CountLevelCons(e, log[..|log| - 1], level);
    } else {
      assert ([e] + log)[..0] == [];
    }
  }

  /** The level filter keeps exactly the entries of that level: its length is their count. */
  lemma {:induction false} FilterLevelCounts(log: Log, level: string)
    ensures |FilterLevel(log, level)| == CountLevel(log, level)
    decreases |log|
  {
    if |log| > 0 {
      FilterLevelCounts(log[1..], level);
      CountLevelCons(log[0], log[1..], level);
      assert [log[0]] + log[1..] == log;
    }
  }

  /** An entry is in the filtered list iff it is in the log and has that level. */
  lemma {:induction false} FilterLevelMembers(log: Log, level: string, e: LogEntry)
    ensures e in FilterLevel(log, level) <==> e in log && e.level == level
    decreases |log|
  {
    if |log| > 0 {
      FilterLevelMembers(log[1..], level, e);
      assert e in log <==> e == log[0] || e in log[1..] by {
        assert log == [log[0]] + log[1..];
      }
    }
  }

  /** Filtering distributes over concatenation, so relative order is kept. */
  lemma {:induction false} FilterLevelAppend(a: Log, b: Log, level: string)
    ensures FilterLevel(a + b, level) == FilterLevel(a, level) + FilterLevel(b, level)
    decreases |a|
  {
    if |a| > 0 {
      assert (a + b)[1..] == a[1..] + b;
      FilterLevelAppend(a[1..], b, level);
    } else {
      assert a + b == b;
    }
  }

  /** The observable contract of `get_logs`. */
  lemma GetLogsContract(log: Log, level: Option<string>, limit: Option<int>)
    ensures level.None? || PhpEmpty(level.value) ==>
              (limit.None? || limit.value == 0 || limit.value >= |log| ==> GetLogs(log, level, limit) == log)
    ensures level.Some? && !PhpEmpty(level.value) ==>
              forall e :: e in GetLogs(log, level, limit) ==> e in log && e.level == level.value
    ensures level.Some? && !PhpEmpty(level.value) && (limit.None? || limit.value == 0) ==>
              |GetLogs(log, level, limit)| == CountLevel(log, level.value)
    ensures limit.Some? && limit.value > 0 ==> |GetLogs(log, level, limit)| <= limit.value
    ensures limit.Some? && limit.value > 0 && level.None? ==>
              GetLogs(log, level, limit) == log[..if limit.value <= |log| then limit.value else |log|]
    ensures limit.Some? && limit.value > 0 ==>
              var f := if level.Some? && !PhpEmpty(level.value) then FilterLevel(log, level.value) else log;
              GetLogs(log, level, limit) == f[..if limit.value <= |f| then limit.value else |f|]
  {
    if level.Some? && !PhpEmpty(level.value) {
      var f := FilterLevel(log, level.value);
      FilterLevelCounts(log, level.value);
      forall e | e in GetLogs(log, level, limit)
        ensures e in log && e.level == level.value
      {
        assert e in f;
        FilterLevelMembers(log, level.value, e);
      }
    }
  }

  /** Clearing twice is clearing once. */
  lemma ClearIdempotent(log: Log)
    ensures ClearLogs(ClearLogs(log)) == ClearLogs(log)
    ensures GetLogs(ClearLogs(log), None, None) == []
  {
  }

  // ---------------------------------------------------------------------------
  // get_logs_stats()
  // ---------------------------------------------------------------------------

  datatype Stats = Stats(total: nat, info: nat, error: nat, warning: nat, debug: nat)

  /**
   * `get_logs_stats`: `total` starts at the entry count, and every entry whose
   * level names one of the five counters bumps that counter. A level of
   * exactly "total" therefore bumps `total` a second time; any other unknown
   * level is counted only in `total`.
   */
  method GetLogsStats(log: Log) returns (st: Stats)
    ensures st.total == |log| + CountLevel(log, "total")
    ensures st.info == CountLevel(log, LevelInfo)
    ensures st.error == CountLevel(log, LevelError)
    ensures st.warning == CountLevel(log, LevelWarning)
    ensures st.debug == CountLevel(log, LevelDebug)
    ensures st.info + st.error + st.warning + st.debug <= st.total
  {
    st := Stats(|log|, 0, 0, 0, 0);
    var i := 0;
    while i < |log|
      invariant 0 <= i <= |log|
      invariant st.total == |log| + CountLevel(log[..i], "total")
      invariant st.info == CountLevel(log[..i], LevelInfo)
      invariant st.error == CountLevel(log[..i], LevelError)
      invariant st.warning == CountLevel(log[..i], LevelWarning)
      invariant st.debug == CountLevel(log[..i], LevelDebug)
      invariant st.info + st.error + st.warning + st.debug <= i
    {
      assert log[..i + 1][..i] == log[..i];
      var level := log[i].level;
      if level == "total" {
        st := st.(total := st.total + 1);
      } else if level == LevelInfo {
        st := st.(info := st.info + 1);
      } else if level == LevelError {
        st := st.(error := st.error + 1);
      } else if level == LevelWarning {
        st := st.(warning := st.warning + 1);
      } else if level == LevelDebug {
        st := st.(debug := st.debug + 1);
      }
      i := i + 1;
    }
    assert log[..|log|] == log;
  }
}
