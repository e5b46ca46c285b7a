/** The Playwright reporter that records every finished test and, at the end of the run,
    appends one run entry (counts per status and the recorded tests) to the JSON run log. */
module Reporter {
  import opened Wrappers
  import opened Js
  import Text
  import RunLog

  const DefaultFile := "./test-results/aggregate-results.json"

  /** What the reporter reads of a Playwright test case: the result of `test.titlePath()` when
      it is a function, the `title` of each entry of `test.parent` when that is truthy, its
      `title` and its `location`. */
  datatype TestCase = TestCase(titlePath: Option<seq<Json>>, parentTitles: Option<seq<Option<Json>>>,
                               title: Option<Json>, location: Option<Json>)

  /** The record `onTestEnd` pushes; `None` stands for a member that is `undefined`. */
  datatype TestRecord = TestRecord(titlePath: seq<Option<Json>>, title: Option<Json>, file: Option<Json>,
                                   line: Option<Json>, status: Option<Json>, duration: Option<Json>,
                                   errors: seq<Json>, stdout: Json, stderr: Json)

  function Defined(items: seq<Json>): (r: seq<Option<Json>>)
    ensures |r| == |items| && forall i | 0 <= i < |items| :: r[i] == Some(items[i])
  {
    if items == [] then [] else Defined(items[..|items| - 1]) + [Some(items[|items| - 1])]
  }

  /** `test.titlePath()`, else the parent's titles followed by the test's, else the test's. */
  function TitlePath(test: TestCase): (r: seq<Option<Json>>)
    ensures test.titlePath.None? && test.parentTitles.None? ==> r == [test.title]
    ensures test.titlePath.None? && test.parentTitles.Some? ==> r == test.parentTitles.value + [test.title]
    ensures test.titlePath.Some? ==> r == Defined(test.titlePath.value)
  {
    match test.titlePath
    case Some(path) => Defined(path)
    case None => if test.parentTitles.Some? then test.parentTitles.value + [test.title] else [test.title]
  }

  /** `e => e && (e.message || String(e))`. */
  function ErrorText(e: Json): (r: Json)
    ensures !Truthy(Some(e)) ==> r == e
    ensures Truthy(Some(e)) && Truthy(Get(Some(e), "message")) ==> r == Get(Some(e), "message").value
    ensures Truthy(Some(e)) && !Truthy(Get(Some(e), "message")) ==> r == JString(ShowValue(e))
  {
    if !Truthy(Some(e)) then e
    else
      var message := Get(Some(e), "message");
      if Truthy(message) then message.value else JString(ShowValue(e))
  }

  function ErrorTexts(es: seq<Json>): (r: seq<Json>)
    ensures |r| == |es| && forall i | 0 <= i < |es| :: r[i] == ErrorText(es[i])
  {
    if es == [] then [] else ErrorTexts(es[..|es| - 1]) + [ErrorText(es[|es| - 1])]
  }

  /** The errors of a result: `result.errors`, else `[result.error]` when there is one, else
      none; `None` where `.map` throws because `result.errors` is truthy but not an array. */
  function Errors(result: Json): (r: Option<seq<Json>>)
    requires !result.JNull?
    ensures IsArray(Get(Some(result), "errors")) ==> r == Some(ErrorTexts(Get(Some(result), "errors").value.items))
    ensures !Truthy(Get(Some(result), "errors")) && Truthy(Get(Some(result), "error")) ==>
      r == Some([ErrorText(Get(Some(result), "error").value)])
    ensures !Truthy(Get(Some(result), "errors")) && !Truthy(Get(Some(result), "error")) ==> r == Some([])
    ensures r.None? <==> Truthy(Get(Some(result), "errors")) && !IsArray(Get(Some(result), "errors"))
  {
    var errors := Get(Some(result), "errors");
    var error := Get(Some(result), "error");
    if Truthy(errors) then
      if IsArray(errors) then Some(ErrorTexts(errors.value.items)) else None
    else if Truthy(error) then Some([ErrorText(error.value)])
    else Some([])
  }

  /** The record of one finished test; `None` where building it throws (a `null` result, or
      errors that cannot be mapped). */
  function MakeRecord(test: TestCase, result: Json): (r: Option<TestRecord>)
    ensures r.Some? <==> !result.JNull? && Errors(result).Some?
    ensures r.Some? ==> r.value.stdout == Or(Get(Some(result), "stdout"), Some(JArray([]))).value
    ensures r.Some? ==> r.value.stderr == Or(Get(Some(result), "stderr"), Some(JArray([]))).value
    ensures r.Some? ==> r.value.status == Get(Some(result), "status") && r.value.title == test.title
  {
    if result.JNull? then None
    else
      match Errors(result)
      case None => None
      case Some(errors) =>
        var stdout := Or(Get(Some(result), "stdout"), Some(JArray([])));
        var stderr := Or(Get(Some(result), "stderr"), Some(JArray([])));
        Some(TestRecord(TitlePath(test), test.title, GetIfTruthy(test.location, "file"),
                        GetIfTruthy(test.location, "line"), Get(Some(result), "status"),
                        Get(Some(result), "duration"), errors, stdout.value, stderr.value))
  }

  /** The key a record is counted under: `String(t.status || 'unknown')`. */
  function StatusKey(t: TestRecord): string {
    Show(Or(t.status, Str("unknown")))
  }

  /** The `acc` object of the `reduce`, as a map from property name to count. */
  function StatusCounts(records: seq<TestRecord>): (acc: map<string, nat>)
    ensures "total" in acc
  {
    if records == [] then map["total" := 0]
    else Count(StatusCounts(records[..|records| - 1]), records[|records| - 1])
  }

  /** One step of the `reduce`: `acc.total += 1; acc[s] = (acc[s] || 0) + 1`. */
  function Count(acc: map<string, nat>, t: TestRecord): (r: map<string, nat>)
    requires "total" in acc
    ensures "total" in r
  {
    var acc := acc["total" := acc["total"] + 1];
    var s := StatusKey(t);
    acc[s := Lookup0(acc, s) + 1]
  }

  /** `acc[s] || 0`. */
  function Lookup0(acc: map<string, nat>, s: string): nat {
    if s in acc then acc[s] else 0
  }

  /** How many records are counted under `key`. */
  function KeyCount(records: seq<TestRecord>, key: string): nat {
    if records == [] then 0
    else KeyCount(records[..|records| - 1], key) + (if StatusKey(records[|records| - 1]) == key then 1 else 0)
  }

  /** `total` counts every record once, and once more each record whose status is literally
      "total"; every other key counts exactly the records with that status. */
  lemma {:induction false} StatusCountsMeaning(records: seq<TestRecord>, key: string)
    ensures StatusCounts(records)["total"] == |records| + KeyCount(records, "total")
    ensures key != "total" ==> Lookup0(StatusCounts(records), key) == KeyCount(records, key)
  {
    if records != [] {
      StatusCountsMeaning(records[..|records| - 1], key);
    }
  }

  /** No record counts under two keys, so five distinct keys together count at most all. */
  lemma {:induction false} KeyCountsBounded(records: seq<TestRecord>)
    ensures KeyCount(records, "passed") + KeyCount(records, "failed") + KeyCount(records, "skipped")
      + KeyCount(records, "timedOut") + KeyCount(records, "unknown") <= |records|
  {
    if records != [] {
      KeyCountsBounded(records[..|records| - 1]);
    }
  }

  /** The five persisted counters. */
  datatype RunCounts = RunCounts(passed: nat, failed: nat, skipped: nat, timedOut: nat, unknown: nat)

  function RunCountsOf(acc: map<string, nat>): RunCounts {
    RunCounts(Lookup0(acc, "passed"), Lookup0(acc, "failed"), Lookup0(acc, "skipped"),
              Lookup0(acc, "timedOut"), Lookup0(acc, "unknown"))
  }

  /** What the run entry promises about its counters: `total` is the number of recorded
      tests (when none has the status "total"), each counter is at most `total` and together
      they are at most `total`; a status such as "interrupted" counts towards `total` only. */
  lemma RunCountsBounded(records: seq<TestRecord>)
    ensures var acc := StatusCounts(records); var c := RunCountsOf(acc);
      && acc["total"] >= |records|
      && (KeyCount(records, "total") == 0 ==> acc["total"] == |records|)
      && c.passed + c.failed + c.skipped + c.timedOut + c.unknown <= acc["total"]
  {
    StatusCountsMeaning(records, "passed");
    StatusCountsMeaning(records, "failed");
    StatusCountsMeaning(records, "skipped");
    StatusCountsMeaning(records, "timedOut");
    StatusCountsMeaning(records, "unknown");
    KeyCountsBounded(records);
  }

  /** A record as `JSON.stringify` writes it. */
  function RecordJson(t: TestRecord): Json {
    Object([("titlePath", Some(Array(t.titlePath))), ("title", t.title), ("file", t.file),
            ("line", t.line), ("status", t.status), ("duration", t.duration),
            ("errors", Some(JArray(t.errors))), ("stdout", Some(t.stdout)), ("stderr", Some(t.stderr))])
  }

  function RecordsJson(ts: seq<TestRecord>): (r: seq<Json>)
    ensures |r| == |ts| && forall i | 0 <= i < |ts| :: r[i] == RecordJson(ts[i])
  {
    if ts == [] then [] else RecordsJson(ts[..|ts| - 1]) + [RecordJson(ts[|ts| - 1])]
  }

  /** The run entry appended to the log. */
  function RunEntry(runAt: string, endAt: string, durationMs: int, acc: map<string, nat>,
                    tests: seq<TestRecord>): Json
    requires "total" in acc
  {
    var c := RunCountsOf(acc);
    Object([("runAt", Str(runAt)), ("endAt", Str(endAt)), ("durationMs", Num(durationMs)),
            ("total", Num(acc["total"])),
            ("counts", Some(Object([("passed", Num(c.passed)), ("failed", Num(c.failed)),
                                   ("skipped", Num(c.skipped)), ("timedOut", Num(c.timedOut)),
                                   ("unknown", Num(c.unknown))]))),
            ("tests", Some(JArray(RecordsJson(tests))))])
  }

  /** A value that is `undefined` or well keyed. */
  predicate Keyed(v: Option<Json>) {
    v.None? || WellKeyed(v.value)
  }

  /** Every value a record holds is well keyed. */
  predicate RecordWellKeyed(t: TestRecord) {
    && (forall i | 0 <= i < |t.titlePath| :: Keyed(t.titlePath[i]))
    && Keyed(t.title) && Keyed(t.file) && Keyed(t.line) && Keyed(t.status) && Keyed(t.duration)
    && (forall i | 0 <= i < |t.errors| :: WellKeyed(t.errors[i]))
    && WellKeyed(t.stdout) && WellKeyed(t.stderr)
  }

  /** A property read off a well-keyed value is well keyed. */
  lemma GetWellKeyed(v: Option<Json>, k: string)
    requires Keyed(v)
    ensures Keyed(GetIfTruthy(v, k))
    ensures !Nullish(v) ==> Keyed(Get(v, k))
  {
    if !Nullish(v) && v.value.JObject? && Get(v, k).Some? {
      var i :| 0 <= i < |v.value.members| && v.value.members[i].value == Get(v, k).value;
    }
  }

  /** Playwright's test case and result are JavaScript objects, so well keyed; the record built
      from them is too. */
  lemma MakeRecordWellKeyed(test: TestCase, result: Json)
    requires WellKeyed(result)
    requires test.titlePath.Some? ==> forall i | 0 <= i < |test.titlePath.value| :: WellKeyed(test.titlePath.value[i])
    requires test.parentTitles.Some? ==> forall i | 0 <= i < |test.parentTitles.value| :: Keyed(test.parentTitles.value[i])
    requires Keyed(test.title) && Keyed(test.location)
    ensures MakeRecord(test, result).Some? ==> RecordWellKeyed(MakeRecord(test, result).value)
  {
    if MakeRecord(test, result).Some? {
      var t := MakeRecord(test, result).value;
      var r := Some(result);
      GetWellKeyed(r, "errors");
      GetWellKeyed(r, "error");
      GetWellKeyed(r, "stdout");
      GetWellKeyed(r, "stderr");
      GetWellKeyed(r, "status");
      GetWellKeyed(r, "duration");
      GetWellKeyed(test.location, "file");
      GetWellKeyed(test.location, "line");
      forall e | WellKeyed(e)
        ensures WellKeyed(ErrorText(e))
      {
        if Truthy(Some(e)) {
          GetWellKeyed(Some(e), "message");
        }
      }
    }
  }

  lemma RecordJsonWellKeyed(t: TestRecord)
    requires RecordWellKeyed(t)
    ensures WellKeyed(RecordJson(t))
  {
    assert WellKeyed(Array(t.titlePath));
    ObjectWellKeyed([("titlePath", Some(Array(t.titlePath))), ("title", t.title), ("file", t.file),
                     ("line", t.line), ("status", t.status), ("duration", t.duration),
                     ("errors", Some(JArray(t.errors))), ("stdout", Some(t.stdout)), ("stderr", Some(t.stderr))]);
  }

  lemma CountsWellKeyed(c: RunCounts)
    ensures WellKeyed(Object([("passed", Num(c.passed)), ("failed", Num(c.failed)), ("skipped", Num(c.skipped)),
                              ("timedOut", Num(c.timedOut)), ("unknown", Num(c.unknown))]))
  {
    ObjectWellKeyed([("passed", Num(c.passed)), ("failed", Num(c.failed)), ("skipped", Num(c.skipped)),
                     ("timedOut", Num(c.timedOut)), ("unknown", Num(c.unknown))]);
  }

  /** The run entry is well keyed when its records are. */
  lemma RunEntryWellKeyed(runAt: string, endAt: string, durationMs: int, acc: map<string, nat>,
                          tests: seq<TestRecord>)
    requires "total" in acc
    requires forall i | 0 <= i < |tests| :: RecordWellKeyed(tests[i])
    ensures WellKeyed(RunEntry(runAt, endAt, durationMs, acc, tests))
  {
    var c := RunCountsOf(acc);
    CountsWellKeyed(c);
    var records := RecordsJson(tests);
    forall i | 0 <= i < |tests|
      ensures WellKeyed(records[i])
    {
      RecordJsonWellKeyed(tests[i]);
    }
    ObjectWellKeyed([("runAt", Str(runAt)), ("endAt", Str(endAt)), ("durationMs", Num(durationMs)),
                     ("total", Num(acc["total"])),
                     ("counts", Some(Object([("passed", Num(c.passed)), ("failed", Num(c.failed)),
                                            ("skipped", Num(c.skipped)), ("timedOut", Num(c.timedOut)),
                                            ("unknown", Num(c.unknown))]))),
                     ("tests", Some(JArray(records)))]);
  }

  /** `(options && options.file) || './test-results/aggregate-results.json'`. */
  function ConfiguredFile(options: Option<Json>): (f: Json)
    ensures !Truthy(GetIfTruthy(options, "file")) ==> f == JString(DefaultFile)
    ensures Truthy(GetIfTruthy(options, "file")) ==> f == GetIfTruthy(options, "file").value
  {
    Or(GetIfTruthy(options, "file"), Str(DefaultFile)).GetOr(JNull)
  }

  class JsonAppenderReporter {
    var file: Json
    var results: seq<TestRecord>
    var startMs: int
    var start: string

    /** `new JsonAppenderReporter(options)` at clock reading `nowMs`, printed as `nowIso`. */
    constructor (options: Option<Json>, nowMs: int, nowIso: string)
      ensures file == ConfiguredFile(options) && results == [] && startMs == nowMs && start == nowIso
    {
      file := ConfiguredFile(options);
      results := [];
      startMs := nowMs;
      start := nowIso;
    }

    /** `onBegin()`: a new run, started at `nowMs`, with no results yet. */
    method OnBegin(nowMs: int, nowIso: string)
      modifies this
      ensures results == [] && startMs == nowMs && start == nowIso
      ensures file == old(file)
    {
      startMs := nowMs;
      start := nowIso;
      results := [];
    }

    /** `onTestEnd(test, result)`: exactly one record pushed at the end, or `false` and nothing
        pushed where building the record throws. */
    method OnTestEnd(test: TestCase, result: Json) returns (ok: bool)
      modifies this
      ensures ok <==> MakeRecord(test, result).Some?
      ensures ok ==> results == old(results) + [MakeRecord(test, result).value]
      ensures !ok ==> results == old(results)
      ensures file == old(file) && startMs == old(startMs) && start == old(start)
    {
      var item := MakeRecord(test, result);
      if item.None? {
        return false;
      }
      results := results + [item.value];
      return true;
    }

    /** The `reduce` of `onEnd`. */
    method CountStatuses() returns (acc: map<string, nat>)
      ensures acc == StatusCounts(results)
    {
      acc := map["total" := 0];
      var i := 0;
      while i < |results|
        invariant 0 <= i <= |results|
        invariant acc == StatusCounts(results[..i])
      {
        assert results[..i + 1][..i] == results[..i];
        acc := acc["total" := acc["total"] + 1];
        var s := StatusKey(results[i]);
        var seen := if s in acc then acc[s] else 0;
        acc := acc[s := seen + 1];
        i := i + 1;
      }
      assert results[..i] == results;
    }

    /** `onEnd()` at clock reading `endMs`: the run entry, and the log after the write. `log` is
        the file at the configured path, `writeOk` whether writing it succeeds; a failed write
        is caught and leaves the log as it was. `None` where resolving a non-string `file`
        throws before anything is written. */
    method OnEnd(endMs: int, endAt: string, log: RunLog.FileRead, parse: string -> Option<Json>,
                 stringify: Json -> string, writeOk: bool) returns (entry: Option<Json>, after: RunLog.FileRead)
      ensures entry.None? <==> !file.JString?
      ensures entry.Some? ==> entry.value == RunEntry(start, endAt, endMs - startMs, StatusCounts(results), results)
      ensures after == if entry.Some? && writeOk then RunLog.Written(log, entry.value, parse, stringify) else log
    {
      var acc := CountStatuses();
      var runEntry := RunEntry(start, endAt, endMs - startMs, acc, results);
      if !file.JString? {
        return None, log;
      }
      var existing := RunLog.PriorRuns(log, parse);
      existing := existing + [runEntry];
      if writeOk {
        after := RunLog.Content(stringify(JArray(existing)));
      } else {
        after := log;
      }
      entry := Some(runEntry);
    }
  }

  /** Over a whole run the log gains exactly the one entry, after the runs it held, when the
      recorded values are well keyed. */
  lemma RunAppended(log: RunLog.FileRead, runAt: string, endAt: string, durationMs: int,
                    acc: map<string, nat>, tests: seq<TestRecord>,
                    parse: string -> Option<Json>, stringify: Json -> string)
    requires RunLog.ReadsBack(parse, stringify)
    requires "total" in acc
    requires forall i | 0 <= i < |tests| :: RecordWellKeyed(tests[i])
    ensures var entry := RunEntry(runAt, endAt, durationMs, acc, tests);
      RunLog.PriorRuns(RunLog.Written(log, entry, parse, stringify), parse) == RunLog.PriorRuns(log, parse) + [entry]
  {
    RunEntryWellKeyed(runAt, endAt, durationMs, acc, tests);
    RunLog.WrittenReadsBack(log, RunEntry(runAt, endAt, durationMs, acc, tests), parse, stringify);
  }
}
