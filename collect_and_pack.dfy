/** `scripts/collect-and-pack.js`: gathers the failed tests that the JSON files in the artifacts
    directory and in `test-results` report, matches them with the artifacts (screenshots,
    videos, traces, HAR files, HTML pages and logs) by file name, and writes one incident file
    per failure; when no JSON reports a failure, one incident per folder that holds artifacts. */
module CollectAndPack {
  import opened Wrappers
  import opened Js
  import Text
  import Paths
  import opened FileTree

  const DefaultArtifactsDir := "artifacts"
  const TestResultsDir := "test-results"
  /** `path.join('test-results', 'aggregate-results.json')`, the file the reporter appends
      runs to. */
  const AggregateResults := TestResultsDir + "/" + AggregateFile
  const AggregateFile := "aggregate-results.json"

  lemma AggregateResultsJoined()
    ensures AggregateResults == Paths.Join(TestResultsDir, AggregateFile)
  {
    var dir, name := TestResultsDir, AggregateFile;
    assert Paths.IsEntryName(dir) && Paths.IsEntryName(name) by {
      assert forall k | 0 <= k < |dir| :: dir[k] != '/';
      assert forall k | 0 <= k < |name| :: name[k] != '/';
    }
    Paths.JoinEntries(dir, name);
  }

  /** What the option loop ends with when it resumes at `i` holding `dir`: `--artifacts`
      followed by a non-empty argument takes that argument and skips it, any other argument is
      passed over. */
  function Scan(argv: seq<string>, i: nat, dir: string): string
    decreases |argv| - i
  {
    if i >= |argv| then dir
    else if argv[i] == "--artifacts" && i + 1 < |argv| && argv[i + 1] != "" then Scan(argv, i + 2, argv[i + 1])
    else Scan(argv, i + 1, dir)
  }

  /** The loop keeps `dir` or ends with the non-empty value of some `--artifacts` flag; with no
      such flag it keeps `dir`. */
  lemma {:induction false} ScanTakesFlagValue(argv: seq<string>, i: nat, dir: string)
    ensures var r := Scan(argv, i, dir);
      r == dir || (r != "" && exists j | i <= j < |argv| - 1 :: argv[j] == "--artifacts" && argv[j + 1] == r)
    ensures (forall j | i <= j < |argv| - 1 :: argv[j] != "--artifacts" || argv[j + 1] == "") ==>
      Scan(argv, i, dir) == dir
    decreases |argv| - i
  {
    if i < |argv| {
      if argv[i] == "--artifacts" && i + 1 < |argv| && argv[i + 1] != "" {
        ScanTakesFlagValue(argv, i + 2, argv[i + 1]);
      } else {
        ScanTakesFlagValue(argv, i + 1, dir);
      }
    }
  }

  /** The last flag wins: a flag with a value added after arguments that do not end in a bare
      flag decides the directory. */
  lemma {:induction false} LastFlagWins(argv: seq<string>, i: nat, dir: string, v: string)
    requires i <= |argv| && v != ""
    requires argv == [] || argv[|argv| - 1] != "--artifacts"
    ensures Scan(argv + ["--artifacts", v], i, dir) == v
    decreases |argv| - i
  {
    var args := argv + ["--artifacts", v];
    if i < |argv| {
      if argv[i] == "--artifacts" && i + 1 < |argv| && argv[i + 1] != "" {
        assert args[i] == argv[i] && args[i + 1] == argv[i + 1];
        LastFlagWins(argv, i + 2, argv[i + 1], v);
      } else {
        assert args[i] == argv[i] && (i + 1 < |argv| ==> args[i + 1] == argv[i + 1]);
        LastFlagWins(argv, i + 1, dir, v);
      }
    }
  }

  /** A flag without a value takes the next flag as its value, and the flag's own value is then
      an ordinary argument. */
  lemma FlagTakesNextFlag()
    ensures Scan(["--artifacts", "--artifacts", "out"], 0, DefaultArtifactsDir) == "--artifacts"
  {
  }

  /** The `--artifacts <dir>` option, as the loop reads it. */
  method ParseArguments(argv: seq<string>) returns (dir: string)
    ensures dir == Scan(argv, 0, DefaultArtifactsDir)
    ensures dir != ""
    ensures dir == DefaultArtifactsDir
      || exists i | 0 <= i < |argv| - 1 :: argv[i] == "--artifacts" && argv[i + 1] == dir
    ensures (forall i | 0 <= i < |argv| - 1 :: argv[i] != "--artifacts" || argv[i + 1] == "") ==>
      dir == DefaultArtifactsDir
  {
    dir := DefaultArtifactsDir;
    var i := 0;
    while i < |argv|
      invariant 0 <= i <= |argv|
      invariant Scan(argv, i, dir) == Scan(argv, 0, DefaultArtifactsDir)
    {
      if argv[i] == "--artifacts" && i + 1 < |argv| && argv[i + 1] != "" {
        dir := argv[i + 1];
        i := i + 2;
      } else {
        i := i + 1;
      }
    }
    ScanTakesFlagValue(argv, 0, DefaultArtifactsDir);
  }

  // ---------------------------------------------------------------------------------------
  // Loading the JSON reports

  /** A parsed report and the path it was read from. */
  datatype Source = Source(path: string, content: Json)

  /** `tryParseJson(file)`: `None` where reading or parsing throws (the script's `null`). */
  function TryParse(fs: seq<Node>, path: string, parse: string -> Option<Json>): Option<Json> {
    match ReadFile(fs, path)
    case None => None
    case Some(text) => parse(text)
  }

  /** The file at `path` parses to the truthy value `v`. */
  predicate Loads(fs: seq<Node>, path: string, parse: string -> Option<Json>, v: Json) {
    TryParse(fs, path, parse) == Some(v) && Truthy(Some(v))
  }

  /** The reports the files `paths` yield, in their order: every file that parses to a truthy
      value, and nothing else. */
  function Loaded(fs: seq<Node>, paths: seq<string>, parse: string -> Option<Json>): (r: seq<Source>)
    ensures |r| <= |paths|
    ensures forall s :: s in r <==> s.path in paths && Loads(fs, s.path, parse, s.content)
  {
    if paths == [] then []
    else
      var front := Loaded(fs, paths[..|paths| - 1], parse);
      var p := paths[|paths| - 1];
      assert paths == paths[..|paths| - 1] + [p];
      match TryParse(fs, p, parse)
      case Some(v) => if Truthy(Some(v)) then front + [Source(p, v)] else front
      case None => front
  }

  /** The loops over the candidate reports and over the other JSON files. (The candidates'
      `existsSync` guard changes nothing: reading a missing file fails all the same.) */
  method LoadResults(fs: seq<Node>, paths: seq<string>, parse: string -> Option<Json>) returns (objs: seq<Source>)
    ensures objs == Loaded(fs, paths, parse)
  {
    objs := [];
    var i := 0;
    while i < |paths|
      invariant 0 <= i <= |paths|
      invariant objs == Loaded(fs, paths[..i], parse)
    {
      assert paths[..i + 1][..i] == paths[..i];
      var parsed := TryParse(fs, paths[i], parse);
      if Truthy(parsed) {
        objs := objs + [Source(paths[i], parsed.value)];
      }
      i := i + 1;
    }
    assert paths[..i] == paths;
  }

  /** The reporter outputs tried first; the aggregate file is listed twice. */
  function Candidates(artifactsDir: string): seq<string> {
    [ Paths.Join(artifactsDir, "playwright-results.json"),
      AggregateResults,
      AggregateResults ]
  }

  /** A readable aggregate file is loaded twice from the candidate list alone. */
  lemma AggregateLoadedTwice(fs: seq<Node>, artifactsDir: string, parse: string -> Option<Json>, v: Json)
    requires Loads(fs, AggregateResults, parse, v)
    ensures var objs := Loaded(fs, Candidates(artifactsDir), parse);
      |objs| >= 2 && objs[|objs| - 2..] == [Source(AggregateResults, v), Source(AggregateResults, v)]
  {
    LoadedTwice(fs, Paths.Join(artifactsDir, "playwright-results.json"), AggregateResults, parse, v);
  }

  lemma LoadedTwice(fs: seq<Node>, first: string, p: string, parse: string -> Option<Json>, v: Json)
    requires Loads(fs, p, parse, v)
    ensures var objs := Loaded(fs, [first, p, p], parse);
      |objs| >= 2 && objs[|objs| - 2..] == [Source(p, v), Source(p, v)]
  {
    var s := Source(p, v);
    LoadedOneMore(fs, [first], p, parse, v);
    assert [first] + [p] == [first, p];
    LoadedOneMore(fs, [first, p], p, parse, v);
    assert [first, p] + [p] == [first, p, p];
    var l := Loaded(fs, [first], parse);
    assert Loaded(fs, [first, p, p], parse) == (l + [s]) + [s];
  }

  /** One more file that loads adds its report at the end. */
  lemma LoadedOneMore(fs: seq<Node>, paths: seq<string>, p: string, parse: string -> Option<Json>, v: Json)
    requires Loads(fs, p, parse, v)
    ensures Loaded(fs, paths + [p], parse) == Loaded(fs, paths, parse) + [Source(p, v)]
  {
    assert (paths + [p])[..|paths|] == paths;
  }

  /** `files.filter(keep)`. */
  function Filter(files: seq<string>, keep: string -> bool): (r: seq<string>)
    ensures |r| <= |files|
    ensures forall f :: f in r <==> f in files && keep(f)
  {
    if files == [] then []
    else
      var front := Filter(files[..|files| - 1], keep);
      var f := files[|files| - 1];
      assert files == files[..|files| - 1] + [f];
      if keep(f) then front + [f] else front
  }

  /** `findJsonFiles` on the files a walk found: those whose lower-cased path ends in `.json`. */
  function JsonFiles(files: seq<string>): (r: seq<string>)
    ensures forall f :: f in r <==> f in files && Text.EndsWithIgnoringCase(f, ".json")
  {
    Filter(files, f => Text.EndsWithIgnoringCase(f, ".json"))
  }

  /** `.filter(Boolean)` on a list of paths. */
  function NonEmpty(files: seq<string>): (r: seq<string>)
    ensures forall f :: f in r <==> f in files && f != ""
  {
    Filter(files, f => f != "")
  }

  // ---------------------------------------------------------------------------------------
  // Failed tests in the reports

  /** A failed entry and the report it was found in. */
  datatype Failure = Failure(source: string, entry: Json)

  /** `o.status && (o.status === 'failed' || o.status === 'error')`. */
  predicate IsFailure(o: Json) {
    o.JObject? && Lookup(o.members, "status") in {Some(JString("failed")), Some(JString("error"))}
  }

  /** `walk(o)`: the failed entries at and below `o`, the node before what lies below it, array
      elements and object members in order; only arrays and objects are entered. */
  function Walk(o: Json, source: string): seq<Failure>
    decreases o
  {
    if !(o.JArray? || o.JObject?) then []
    else
      (if IsFailure(o) then [Failure(source, o)] else [])
      + (if o.JArray? then ItemsWalk(o.items, source) else MembersWalk(o.members, source))
  }

  function ItemsWalk(items: seq<Json>, source: string): seq<Failure>
    decreases items
  {
    if items == [] then [] else ItemsWalk(items[..|items| - 1], source) + Walk(items[|items| - 1], source)
  }

  function MembersWalk(ms: seq<Member>, source: string): seq<Failure>
    decreases ms
  {
    if ms == [] then [] else MembersWalk(ms[..|ms| - 1], source) + Walk(ms[|ms| - 1].value, source)
  }

  /** `Object.keys(o)`: the members' keys, in order. */
  function KeysOf(ms: seq<Member>): (r: seq<string>)
    ensures |r| == |ms| && forall i | 0 <= i < |ms| :: r[i] == ms[i].key
  {
    if ms == [] then [] else KeysOf(ms[..|ms| - 1]) + [ms[|ms| - 1].key]
  }

  /** `keys.forEach(k => walk(o[k]))` on an object with members `ms`. */
  function KeysWalk(ms: seq<Member>, keys: seq<string>, source: string): seq<Failure>
    decreases |keys|
  {
    if keys == [] then []
    else
      KeysWalk(ms, keys[..|keys| - 1], source)
        + match Lookup(ms, keys[|keys| - 1]) case Some(v) => Walk(v, source) case None => []
  }

  /** A member appended after keys it does not carry changes none of their lookups. */
  lemma {:induction false} KeysWalkSkipsLast(front: seq<Member>, last: Member, keys: seq<string>, source: string)
    requires forall i | 0 <= i < |keys| :: keys[i] != last.key
    ensures KeysWalk(front + [last], keys, source) == KeysWalk(front, keys, source)
    decreases |keys|
  {
    if keys != [] {
      var n := |keys| - 1;
      KeysWalkSkipsLast(front, last, keys[..n], source);
      assert (front + [last])[..|front|] == front;
      assert Lookup(front + [last], keys[n]) == Lookup(front, keys[n]);
    }
  }

  /** On an object whose keys are distinct, walking the members in order is walking
      `Object.keys(o)` and reading each key back: every member is visited once. */
  lemma {:induction false} KeysWalkIsMembersWalk(ms: seq<Member>, source: string)
    requires DistinctKeys(ms)
    ensures KeysWalk(ms, KeysOf(ms), source) == MembersWalk(ms, source)
    decreases |ms|
  {
    if ms != [] {
      var n := |ms| - 1;
      var front, last := ms[..n], ms[n];
      assert ms == front + [last];
      var keys := KeysOf(ms);
      assert keys[..n] == KeysOf(front);
      assert forall i | 0 <= i < n :: KeysOf(front)[i] != last.key by {
        assert forall i | 0 <= i < n :: KeysOf(front)[i] == ms[i].key;
      }
      KeysWalkIsMembersWalk(front, source);
      KeysWalkSkipsLast(front, last, KeysOf(front), source);
      assert Lookup(ms, keys[n]) == Some(last.value);
    }
  }

  /** Where `parse` yields only well-keyed values, as `JSON.parse` does, every report loaded is
      well keyed, so every object the walk enters has distinct keys. */
  lemma ReportsWellKeyed(fs: seq<Node>, paths: seq<string>, parse: string -> Option<Json>)
    requires forall t :: parse(t).Some? ==> WellKeyed(parse(t).value)
    ensures forall s | s in Loaded(fs, paths, parse) :: WellKeyed(s.content)
  {
    forall s | s in Loaded(fs, paths, parse)
      ensures WellKeyed(s.content)
    {
      assert Loads(fs, s.path, parse, s.content);
      assert ReadFile(fs, s.path).Some?;
      assert parse(ReadFile(fs, s.path).value) == Some(s.content);
    }
  }

  /** `sub` is `o` or lies somewhere below it. */
  predicate Within(sub: Json, o: Json)
    decreases o
  {
    || sub == o
    || (o.JArray? && exists i | 0 <= i < |o.items| :: Within(sub, o.items[i]))
    || (o.JObject? && exists i | 0 <= i < |o.members| :: Within(sub, o.members[i].value))
  }

  /** Everything the walk reports is a failed entry found in the report, tagged with it. */
  lemma {:induction false} WalkSound(o: Json, source: string)
    ensures forall f | f in Walk(o, source) :: f.source == source && IsFailure(f.entry) && Within(f.entry, o)
    decreases o
  {
    if o.JArray? {
      ItemsWalkSound(o, o.items, source);
    } else if o.JObject? {
      MembersWalkSound(o, o.members, source);
    }
  }

  lemma {:induction false} ItemsWalkSound(o: Json, items: seq<Json>, source: string)
    requires o.JArray? && items <= o.items
    ensures forall f | f in ItemsWalk(items, source) :: f.source == source && IsFailure(f.entry) && Within(f.entry, o)
    decreases items
  {
    if items != [] {
      var n := |items| - 1;
      ItemsWalkSound(o, items[..n], source);
      WalkSound(items[n], source);
      assert o.items[n] == items[n];
    }
  }

  lemma {:induction false} MembersWalkSound(o: Json, ms: seq<Member>, source: string)
    requires o.JObject? && ms <= o.members
    ensures forall f | f in MembersWalk(ms, source) :: f.source == source && IsFailure(f.entry) && Within(f.entry, o)
    decreases ms
  {
    if ms != [] {
      var n := |ms| - 1;
      MembersWalkSound(o, ms[..n], source);
      WalkSound(ms[n].value, source);
      assert o.members[n] == ms[n];
    }
  }

  /** Every failed entry in a report is reported, also one nested inside another. */
  lemma {:induction false} WalkComplete(o: Json, source: string, sub: Json)
    requires Within(sub, o) && IsFailure(sub)
    ensures Failure(source, sub) in Walk(o, source)
    decreases o
  {
    if sub != o {
      if o.JArray? {
        var i :| 0 <= i < |o.items| && Within(sub, o.items[i]);
        WalkComplete(o.items[i], source, sub);
        ItemsWalkHas(o.items, i, source);
      } else {
        var i :| 0 <= i < |o.members| && Within(sub, o.members[i].value);
        WalkComplete(o.members[i].value, source, sub);
        MembersWalkHas(o.members, i, source);
      }
    }
  }

  lemma {:induction false} ItemsWalkHas(items: seq<Json>, i: nat, source: string)
    requires i < |items|
    ensures forall f | f in Walk(items[i], source) :: f in ItemsWalk(items, source)
    decreases items
  {
    var n := |items| - 1;
    if i < n {
      ItemsWalkHas(items[..n], i, source);
    }
  }

  lemma {:induction false} MembersWalkHas(ms: seq<Member>, i: nat, source: string)
    requires i < |ms|
    ensures forall f | f in Walk(ms[i].value, source) :: f in MembersWalk(ms, source)
    decreases ms
  {
    var n := |ms| - 1;
    if i < n {
      MembersWalkHas(ms[..n], i, source);
    }
  }

  /** The recursive `walk`, pushing onto the failures found so far. */
  method WalkInto(o: Json, source: string, found: seq<Failure>) returns (r: seq<Failure>)
    ensures r == found + Walk(o, source)
    decreases o
  {
    r := found;
    if !(o.JArray? || o.JObject?) {
      return;
    }
    if IsFailure(o) {
      r := r + [Failure(source, o)];
    }
    if o.JArray? {
      r := WalkItems(o.items, source, r);
    } else {
      r := WalkMembers(o.members, source, r);
    }
  }

  /** `o.forEach(walk)` on an array. */
  method WalkItems(items: seq<Json>, source: string, found: seq<Failure>) returns (r: seq<Failure>)
    ensures r == found + ItemsWalk(items, source)
    decreases items
  {
    r := found;
    var i := 0;
    while i < |items|
      invariant 0 <= i <= |items|
      invariant r == found + ItemsWalk(items[..i], source)
    {
      assert items[..i + 1][..i] == items[..i];
      r := WalkInto(items[i], source, r);
      i := i + 1;
    }
    assert items[..i] == items;
  }

  /** `Object.keys(o).forEach(k => walk(o[k]))` on an object. */
  method WalkMembers(ms: seq<Member>, source: string, found: seq<Failure>) returns (r: seq<Failure>)
    ensures r == found + MembersWalk(ms, source)
    decreases ms
  {
    r := found;
    var i := 0;
    while i < |ms|
      invariant 0 <= i <= |ms|
      invariant r == found + MembersWalk(ms[..i], source)
    {
      assert ms[..i + 1][..i] == ms[..i];
      r := WalkInto(ms[i].value, source, r);
      i := i + 1;
    }
    assert ms[..i] == ms;
  }

  /** `extractFailuresFromObject(obj, source)`. */
  method ExtractFailures(obj: Json, source: string) returns (failures: seq<Failure>)
    ensures failures == Walk(obj, source)
  {
    failures := WalkInto(obj, source, []);
  }

  /** The failures of all reports, report by report. */
  function AllFailures(objs: seq<Source>): seq<Failure> {
    if objs == [] then []
    else AllFailures(objs[..|objs| - 1]) + Walk(objs[|objs| - 1].content, objs[|objs| - 1].path)
  }

  /** The loop that concatenates the reports' failures. */
  method CollectFailures(objs: seq<Source>) returns (failures: seq<Failure>)
    ensures failures == AllFailures(objs)
  {
    failures := [];
    var i := 0;
    while i < |objs|
      invariant 0 <= i <= |objs|
      invariant failures == AllFailures(objs[..i])
    {
      assert objs[..i + 1][..i] == objs[..i];
      var f := ExtractFailures(objs[i].content, objs[i].path);
      failures := failures + f;
      i := i + 1;
    }
    assert objs[..i] == objs;
  }

  /** A failure is collected exactly when it is a failed entry of one of the reports. */
  lemma {:induction false} AllFailuresMeaning(objs: seq<Source>, f: Failure)
    ensures f in AllFailures(objs) <==>
      exists i | 0 <= i < |objs| :: objs[i].path == f.source && IsFailure(f.entry) && Within(f.entry, objs[i].content)
  {
    if objs != [] {
      var n := |objs| - 1;
      var front, last := objs[..n], objs[n];
      AllFailuresMeaning(front, f);
      assert AllFailures(objs) == AllFailures(front) + Walk(last.content, last.path);
      assert f in Walk(last.content, last.path) <==>
        last.path == f.source && IsFailure(f.entry) && Within(f.entry, last.content)
      by {
        WalkSound(last.content, last.path);
        if IsFailure(f.entry) && Within(f.entry, last.content) && last.path == f.source {
          WalkComplete(last.content, last.path, f.entry);
        }
      }
      assert forall i | 0 <= i < n :: front[i] == objs[i];
    }
  }

  // ---------------------------------------------------------------------------------------
  // Artifacts

  datatype Kind = Screenshot | Video | Trace | Har | Html | Log

  /** `/trace.*\.zip$/i`: "trace", then characters other than line terminators, then a final
      ".zip". */
  predicate TraceArchive(f: string) {
    exists i | 0 <= i <= |f| ::
      && Text.OccursAtIgnoringCase(f, "trace", i)
      && i + 5 <= |f| - 4
      && Text.EndsWithIgnoringCase(f, ".zip")
      && forall k | i + 5 <= k < |f| - 4 :: !Text.IsLineTerminator(f[k])
  }

  /** The regular expressions that sort a path into each kind of artifact. */
  predicate IsKind(kind: Kind, f: string) {
    match kind
    case Screenshot => Text.EndsWithIgnoringCase(f, ".png")
    case Video =>
      Text.EndsWithIgnoringCase(f, ".webm") || Text.EndsWithIgnoringCase(f, ".mp4")
      || Text.EndsWithIgnoringCase(f, ".mov")
    case Trace => TraceArchive(f) || Text.EndsWithIgnoringCase(f, ".zip")
    case Har => Text.EndsWithIgnoringCase(f, ".har")
    case Html => Text.EndsWithIgnoringCase(f, ".html")
    case Log =>
      Text.EndsWithIgnoringCase(f, ".log") || Text.ContainsIgnoringCase(f, "console")
      || Text.ContainsIgnoringCase(f, "stderr") || Text.ContainsIgnoringCase(f, "stdout")
  }

  /** The "trace" alternative adds nothing: every `.zip` file counts as a trace. */
  lemma TraceMeansZip(f: string)
    ensures IsKind(Trace, f) <==> Text.EndsWithIgnoringCase(f, ".zip")
  {
  }

  /** The artifacts of each kind, as lists of paths. */
  datatype Artifacts = Artifacts(screenshots: seq<string>, videos: seq<string>, traces: seq<string>,
                                 hars: seq<string>, htmls: seq<string>, logs: seq<string>)

  function OfKind(files: seq<string>, kind: Kind): (r: seq<string>)
    ensures forall f :: f in r <==> f in files && IsKind(kind, f)
  {
    Filter(files, f => IsKind(kind, f))
  }

  /** The six filters over a list of files. */
  function Classify(files: seq<string>): (r: Artifacts)
    ensures forall f :: f in r.screenshots <==> f in files && IsKind(Screenshot, f)
    ensures forall f :: f in r.videos <==> f in files && IsKind(Video, f)
    ensures forall f :: f in r.traces <==> f in files && IsKind(Trace, f)
    ensures forall f :: f in r.hars <==> f in files && IsKind(Har, f)
    ensures forall f :: f in r.htmls <==> f in files && IsKind(Html, f)
    ensures forall f :: f in r.logs <==> f in files && IsKind(Log, f)
  {
    Artifacts(OfKind(files, Screenshot), OfKind(files, Video), OfKind(files, Trace),
              OfKind(files, Har), OfKind(files, Html), OfKind(files, Log))
  }

  /** A file can be of two kinds at once: a screenshot whose name says "console" is a log too. */
  lemma KindsOverlap()
    ensures IsKind(Screenshot, "console.png") && IsKind(Log, "console.png")
  {
    var f := "console.png";
    assert Text.Lower(f) == f;
    assert Text.Lower(".png") == ".png" && Text.Lower("console") == "console";
    assert Text.Lower(f)[|f| - 4..] == ".png";
    assert Text.OccursAt(Text.Lower(f), "console", 0);
  }

  // ---------------------------------------------------------------------------------------
  // Incidents

  /** The index of the last `.` in `s`. */
  function LastDot(s: string): (r: Option<nat>)
    ensures r.Some? ==> r.value < |s| && s[r.value] == '.' && '.' !in s[r.value + 1..]
    ensures r.None? ==> '.' !in s
  {
    if s == [] then None
    else if s[|s| - 1] == '.' then Some(|s| - 1)
    else
      match LastDot(s[..|s| - 1])
      case None => None
      case Some(k) =>
        assert s[k + 1..] == s[..|s| - 1][k + 1..] + [s[|s| - 1]];
        Some(k)
  }

  /** `b.replace(/\.[^.]+$/, '')`: the last extension removed, a dot with at least one
      character after it; the leftmost match of the expression is at the last dot. */
  function StripExtension(b: string): (r: string)
    ensures r == b || (|r| + 1 < |b| && r == b[..|r|] && b[|r|] == '.' && '.' !in b[|r| + 1..])
    ensures r == b ==> forall k | 0 <= k < |b| - 1 :: b[k] == '.' ==> '.' in b[k + 1..]
  {
    match LastDot(b)
    case None => b
    case Some(k) =>
      if k + 1 < |b| then b[..k]
      else
        assert forall j | 0 <= j < |b| - 1 :: b[j] == '.' ==> b[|b| - 1] in b[j + 1..];
        b
  }

  /** The key artifacts are matched by: the test file's name without its extension. */
  function MatchKey(file: string): string {
    StripExtension(Paths.Basename(file))
  }

  /** What an incident file holds. */
  datatype Incident = Incident(testId: string, title: Json, file: Json, error: string,
                               artifacts: Artifacts, metadata: Json)

  /** The environment: `BASE_URL`, and the artifacts directory as an absolute path. */
  datatype Env = Env(baseUrl: Option<string>, resolvedDir: string)

  /** `process.env.BASE_URL || null`. */
  function BaseUrl(env: Env): Json {
    if env.baseUrl.Some? && env.baseUrl.value != "" then JString(env.baseUrl.value) else JNull
  }

  function Strings(paths: seq<string>): (r: Json)
    ensures r.JArray? && |r.items| == |paths| && forall i | 0 <= i < |paths| :: r.items[i] == JString(paths[i])
  {
    JArray(seq(|paths|, i requires 0 <= i < |paths| => JString(paths[i])))
  }

  /** The incident as the object literal that is written. */
  function IncidentJson(inc: Incident): (r: Json)
    ensures r.JObject? && |r.members| == 11
  {
    var a := inc.artifacts;
    JObject([ Member("testId", JString(inc.testId)), Member("title", inc.title),
              Member("file", inc.file), Member("error", JString(inc.error)),
              Member("screenshots", Strings(a.screenshots)), Member("videos", Strings(a.videos)),
              Member("traces", Strings(a.traces)), Member("hars", Strings(a.hars)),
              Member("html", Strings(a.htmls)), Member("logs", Strings(a.logs)),
              Member("metadata", inc.metadata) ])
  }

  /** `e[key] || (e[inner] && e[inner][key]) || fallback`: the entry's own field, else the
      field of its inner object, else the fallback; always truthy. */
  function FieldOr(e: Json, key: string, inner: string, fallback: string): (r: Json)
    requires !e.JNull? && fallback != ""
    ensures Truthy(Some(r))
    ensures Truthy(Get(Some(e), key)) ==> r == Get(Some(e), key).value
    ensures !Truthy(Get(Some(e), key)) && Truthy(GetIfTruthy(Get(Some(e), inner), key)) ==>
      r == GetIfTruthy(Get(Some(e), inner), key).value
    ensures !Truthy(Get(Some(e), key)) && !Truthy(GetIfTruthy(Get(Some(e), inner), key)) ==>
      r == JString(fallback)
  {
    Or(Or(Get(Some(e), key), GetIfTruthy(Get(Some(e), inner), key)), Str(fallback)).value
  }

  /** `e.title || (e.test && e.test.title) || 'unknown test'`. */
  function TitleOf(e: Json): Json
    requires !e.JNull?
  {
    FieldOr(e, "title", "test", "unknown test")
  }

  /** `e.file || (e.location && e.location.file) || 'unknown file'`. */
  function FileOf(e: Json): Json
    requires !e.JNull?
  {
    FieldOr(e, "file", "location", "unknown file")
  }

  /** The error as text: a string as it is, another truthy value as JSON, and otherwise "". */
  function ErrorText(e: Json, stringify: Json -> string): (r: string)
    requires !e.JNull?
  {
    var err := Or(Or(Or(Get(Some(e), "error"), Get(Some(e), "err")), Get(Some(e), "errors")), Some(JNull));
    if !Truthy(err) then "" else if err.value.JString? then err.value.s else stringify(err.value)
  }

  /** Error text is empty exactly when the entry carries no truthy error field. */
  lemma ErrorTextEmpty(e: Json, stringify: Json -> string)
    requires !e.JNull?
    requires forall j :: stringify(j) != ""
    ensures ErrorText(e, stringify) == "" <==>
      !Truthy(Get(Some(e), "error")) && !Truthy(Get(Some(e), "err")) && !Truthy(Get(Some(e), "errors"))
  {
  }

  /** The screenshots related to a failure: those whose path contains the key, or else the
      base name of the title, ignoring case. `path.basename` throws on a title that is not a
      string, and is only reached for a screenshot the key does not match. */
  function RelatedScreens(screens: seq<string>, key: string, title: Json): (r: Option<seq<string>>)
    ensures r.None? <==> !title.JString? && exists s | s in screens :: !Text.ContainsIgnoringCase(s, key)
    ensures r.Some? ==> forall s :: s in r.value <==> (s in screens
      && (Text.ContainsIgnoringCase(s, key) || (title.JString? && Text.ContainsIgnoringCase(s, Paths.Basename(title.s)))))
  {
    if screens == [] then Some([])
    else
      var s := screens[|screens| - 1];
      assert screens == screens[..|screens| - 1] + [s];
      match RelatedScreens(screens[..|screens| - 1], key, title)
      case None => None
      case Some(front) =>
        if Text.ContainsIgnoringCase(s, key) then Some(front + [s])
        else if !title.JString? then None
        else if Text.ContainsIgnoringCase(s, Paths.Basename(title.s)) then Some(front + [s])
        else Some(front)
  }

  /** The artifacts whose path contains the key, ignoring case. */
  function Related(files: seq<string>, key: string): (r: seq<string>)
    ensures forall f :: f in r <==> f in files && Text.ContainsIgnoringCase(f, key)
  {
    Filter(files, f => Text.ContainsIgnoringCase(f, key))
  }

  /** The incident for one failure; `None` where building it throws: on an entry that is
      `null` (which the walk never reports, as `WalkSound` shows: it only reports objects), or
      because `path.basename` is given a file or a title that is not a string. */
  function FailureIncident(f: Failure, arts: Artifacts, env: Env, stringify: Json -> string): (r: Option<Incident>)
  {
    var e := f.entry;
    if e.JNull? then None
    else
    var title := TitleOf(e);
    var file := FileOf(e);
    if !file.JString? then None
    else
      var key := MatchKey(file.s);
      match RelatedScreens(arts.screenshots, key, title)
      case None => None
      case Some(screens) =>
        Some(Incident(
          file.s + ":" + ShowValue(title), title, file, ErrorText(e, stringify),
          Artifacts(screens, Related(arts.videos, key), Related(arts.traces, key),
                    Related(arts.hars, key), Related(arts.htmls, key), Related(arts.logs, key)),
          JObject([ Member("baseURL", BaseUrl(env)), Member("artifactsDir", JString(env.resolvedDir)),
                    Member("sourceJson", JString(f.source)) ])))
  }

  /** Building a failure's incident throws exactly when the entry's file is not a string, or
      when its title is not one and some screenshot misses the key (so that `path.basename`
      gets to see the title). */
  lemma FailureIncidentMeaning(f: Failure, arts: Artifacts, env: Env, stringify: Json -> string)
    requires !f.entry.JNull?
    ensures FailureIncident(f, arts, env, stringify).None? <==>
      !FileOf(f.entry).JString?
      || (!TitleOf(f.entry).JString? && exists s | s in arts.screenshots :: !Text.ContainsIgnoringCase(s, MatchKey(FileOf(f.entry).s)))
  {
  }

  /** What a failure's incident holds: the identifier `file:title`, and the entry's title, file
      and error text. */
  lemma FailureIncidentContent(f: Failure, arts: Artifacts, env: Env, stringify: Json -> string)
    requires FailureIncident(f, arts, env, stringify).Some?
    ensures var inc := FailureIncident(f, arts, env, stringify).value;
      var title, file := TitleOf(f.entry), FileOf(f.entry);
      && inc.testId == file.s + ":" + ShowValue(title)
      && (title.JString? ==> inc.testId == file.s + ":" + title.s)
      && inc.title == title && inc.file == file && inc.error == ErrorText(f.entry, stringify)
  {
  }

  /** A failure's incident's metadata names the base URL, the artifacts directory and the
      report the failure came from. */
  lemma FailureIncidentMetadata(f: Failure, arts: Artifacts, env: Env, stringify: Json -> string)
    requires FailureIncident(f, arts, env, stringify).Some?
    ensures var ms := FailureIncident(f, arts, env, stringify).value.metadata.members;
      && Lookup(ms, "baseURL") == Some(BaseUrl(env))
      && Lookup(ms, "artifactsDir") == Some(JString(env.resolvedDir))
      && Lookup(ms, "sourceJson") == Some(JString(f.source))
  {
    SourceMetadata(BaseUrl(env), JString(env.resolvedDir), JString(f.source));
  }

  /** Each of the three members of a failure incident's metadata can be looked up. */
  lemma SourceMetadata(base: Json, dir: Json, source: Json)
    ensures var ms := [Member("baseURL", base), Member("artifactsDir", dir), Member("sourceJson", source)];
      Lookup(ms, "baseURL") == Some(base) && Lookup(ms, "artifactsDir") == Some(dir)
      && Lookup(ms, "sourceJson") == Some(source)
  {
    var ms := [Member("baseURL", base), Member("artifactsDir", dir), Member("sourceJson", source)];
    assert ms[..2][..1] == [ms[0]] && ms[..2] == [ms[0], ms[1]];
    assert "sourceJson"[0] == 's' && "artifactsDir"[0] == 'a' && "baseURL"[0] == 'b';
  }

  /** A failure's incident lists, of each kind, exactly the artifacts whose path contains the
      key (and, for screenshots, also those containing the base name of a string title). */
  lemma FailureIncidentArtifacts(f: Failure, arts: Artifacts, env: Env, stringify: Json -> string)
    requires FailureIncident(f, arts, env, stringify).Some?
    ensures var a := FailureIncident(f, arts, env, stringify).value.artifacts;
      var key, title := MatchKey(FileOf(f.entry).s), TitleOf(f.entry);
      && (forall s :: s in a.screenshots <==> (s in arts.screenshots && (Text.ContainsIgnoringCase(s, key)
            || (title.JString? && Text.ContainsIgnoringCase(s, Paths.Basename(title.s))))))
      && (forall s :: s in a.videos <==> s in arts.videos && Text.ContainsIgnoringCase(s, key))
      && (forall s :: s in a.traces <==> s in arts.traces && Text.ContainsIgnoringCase(s, key))
      && (forall s :: s in a.hars <==> s in arts.hars && Text.ContainsIgnoringCase(s, key))
      && (forall s :: s in a.htmls <==> s in arts.htmls && Text.ContainsIgnoringCase(s, key))
      && (forall s :: s in a.logs <==> s in arts.logs && Text.ContainsIgnoringCase(s, key))
  {
  }

  // ---------------------------------------------------------------------------------------
  // The fallback scan

  /** The paths whose folders become incidents: every artifact except the logs. */
  function FolderSources(arts: Artifacts): seq<string> {
    arts.screenshots + arts.videos + arts.traces + arts.hars + arts.htmls
  }

  /** The `Set` of the paths' folders, in the order they were first added. */
  function Folders(paths: seq<string>): (r: seq<string>)
    ensures forall i, j | 0 <= i < j < |r| :: r[i] != r[j]
    ensures forall d :: d in r <==> exists p | p in paths :: Paths.Dirname(p) == d
  {
    if paths == [] then []
    else
      var front := Folders(paths[..|paths| - 1]);
      var p := paths[|paths| - 1];
      assert paths == paths[..|paths| - 1] + [p];
      var d := Paths.Dirname(p);
      if d in front then front else front + [d]
  }

  /** The loop that adds each path's folder to `candidateFolders`. */
  method CandidateFolders(paths: seq<string>) returns (folders: seq<string>)
    ensures folders == Folders(paths)
  {
    folders := [];
    var i := 0;
    while i < |paths|
      invariant 0 <= i <= |paths|
      invariant folders == Folders(paths[..i])
    {
      assert paths[..i + 1][..i] == paths[..i];
      var d := Paths.Dirname(paths[i]);
      if d !in folders {
        folders := folders + [d];
      }
      i := i + 1;
    }
    assert paths[..i] == paths;
  }

  /** The incident for a folder of artifacts, given the files below it. */
  function FallbackIncident(folder: string, files: seq<string>, env: Env): Incident {
    var name := Paths.Basename(folder);
    Incident("auto:" + name, JString("Artifacts from " + name), JString(folder), "", Classify(files),
      JObject([ Member("baseURL", BaseUrl(env)), Member("artifactsDir", JString(env.resolvedDir)),
                Member("generatedFrom", JString("fallback-scan")) ]))
  }

  // ---------------------------------------------------------------------------------------
  // Writing incidents

  /** `incident-<time>-<count>.json`. */
  function IncidentName(nowMs: nat, count: nat): string {
    "incident-" + Text.NatToString(nowMs) + "-" + Text.NatToString(count) + ".json"
  }

  /** The path an incident is written to, spelled as `path.join(dir, name)` spells it for an
      entry name (see `IncidentPathIsJoin`). */
  function IncidentPath(dir: string, nowMs: nat, count: nat): string {
    Paths.Front(dir) + IncidentName(nowMs, count)
  }

  lemma IncidentPathIsJoin(dir: string, nowMs: nat, count: nat)
    ensures IncidentPath(dir, nowMs, count) == Paths.Join(dir, IncidentName(nowMs, count))
    ensures Paths.Basename(IncidentPath(dir, nowMs, count)) == IncidentName(nowMs, count)
    ensures Paths.Segments(IncidentPath(dir, nowMs, count)) == Paths.Segments(dir) + [IncidentName(nowMs, count)]
  {
    IncidentNameIsEntry(nowMs, count);
    Paths.JoinShape(dir, IncidentName(nowMs, count));
    Paths.BasenameOfJoin(dir, IncidentName(nowMs, count));
    Paths.SegmentsOfJoin(dir, IncidentName(nowMs, count));
  }

  /** Splitting at the first `-` recovers two numerals joined by it. */
  lemma SplitAtDash(a: string, b: string, c: string, d: string)
    requires Text.AllDigits(a) && Text.AllDigits(c)
    requires a + "-" + b == c + "-" + d
    ensures a == c && b == d
  {
    var x := a + "-" + b;
    assert x[..|a|] == a && x[|a|] == '-';
    assert x[..|c|] == c && x[|c|] == '-';
    assert '-' !in a by {
      assert forall k | 0 <= k < |a| :: Text.IsDigit(a[k]);
    }
    assert '-' !in c by {
      assert forall k | 0 <= k < |c| :: Text.IsDigit(c[k]);
    }
    Text.IndexOfFirst(x, '-', |a|);
    Text.IndexOfFirst(x, '-', |c|);
    assert x[|a| + 1..] == b && x[|c| + 1..] == d;
  }

  /** An incident's path determines the time and the count it was written with, so the
      counter alone keeps the files of one run apart. */
  lemma IncidentPathInjective(dir: string, m1: nat, n1: nat, m2: nat, n2: nat)
    ensures IncidentPath(dir, m1, n1) == IncidentPath(dir, m2, n2) ==> m1 == m2 && n1 == n2
  {
    var f, x, y := Paths.Front(dir), IncidentName(m1, n1), IncidentName(m2, n2);
    if f + x == f + y {
      assert x == (f + x)[|f|..] && y == (f + y)[|f|..];
      IncidentNameInjective(m1, n1, m2, n2);
    }
  }

  /** An incident's name is one entry of the incidents directory. */
  lemma IncidentNameIsEntry(nowMs: nat, count: nat)
    ensures Paths.IsEntryName(IncidentName(nowMs, count))
  {
    var a, b := Text.NatToString(nowMs), Text.NatToString(count);
    var n := IncidentName(nowMs, count);
    assert n == "incident-" + a + "-" + b + ".json";
    assert forall k | 0 <= k < |a| :: a[k] != '/';
    assert forall k | 0 <= k < |b| :: b[k] != '/';
    assert n[0] == 'i' && |n| > 2;
  }

  lemma IncidentNameInjective(m1: nat, n1: nat, m2: nat, n2: nat)
    ensures IncidentName(m1, n1) == IncidentName(m2, n2) ==> m1 == m2 && n1 == n2
  {
    var x, y := IncidentName(m1, n1), IncidentName(m2, n2);
    if x == y {
      var a, b := Text.NatToString(m1), Text.NatToString(n1);
      var c, d := Text.NatToString(m2), Text.NatToString(n2);
      assert x == "incident-" + (a + "-" + b) + ".json";
      assert y == "incident-" + (c + "-" + d) + ".json";
      assert x[9..|x| - 5] == a + "-" + b;
      assert y[9..|y| - 5] == c + "-" + d;
      SplitAtDash(a, b, c, d);
    }
  }

  /** `writeIncident` and the counter it increments. */
  class IncidentWriter {
    const dir: string
    var count: nat
    /** The files written so far: their paths and the incidents they hold. */
    var written: seq<(string, Json)>
    /** The clock readings the files were named with. */
    ghost var stamps: seq<nat>

    /** One file per increment, each named after the count it was written at. */
    ghost predicate Valid()
      reads this
    {
      && count == |written| == |stamps|
      && forall k | 0 <= k < |written| :: written[k].0 == IncidentPath(dir, stamps[k], k + 1)
    }

    constructor(dir: string)
      ensures this.dir == dir && count == 0 && written == [] && Valid()
    {
      this.dir := dir;
      count := 0;
      written := [];
      stamps := [];
    }

    /** `writeIncident(incident)` at time `nowMs`: the count goes up, then the file is written
        to a path no earlier write used, or, where `writable` says that writing that path
        throws, nothing is written and `false` is returned. */
    method Write(incident: Json, nowMs: nat, writable: string -> bool) returns (ok: bool)
      requires Valid()
      modifies this
      ensures count == old(count) + 1
      ensures ok == writable(IncidentPath(dir, nowMs, count))
      ensures ok ==> Valid() && written == old(written) + [(IncidentPath(dir, nowMs, count), incident)]
      ensures ok ==> forall k | 0 <= k < |old(written)| :: written[k].0 != IncidentPath(dir, nowMs, count)
      ensures !ok ==> written == old(written)
    {
      count := count + 1;
      var path := IncidentPath(dir, nowMs, count);
      if !writable(path) {
        return false;
      }
      FreshPath(dir, written, stamps, nowMs, count);
      written := written + [(path, incident)];
      stamps := stamps + [nowMs];
      ok := true;
    }
  }

  /** A path named after a new count differs from every path named after an earlier one. */
  lemma FreshPath(dir: string, written: seq<(string, Json)>, stamps: seq<nat>, nowMs: nat, count: nat)
    requires |stamps| == |written| && count == |written| + 1
    requires forall k | 0 <= k < |written| :: written[k].0 == IncidentPath(dir, stamps[k], k + 1)
    ensures forall k | 0 <= k < |written| :: written[k].0 != IncidentPath(dir, nowMs, count)
  {
    forall k | 0 <= k < |written|
      ensures written[k].0 != IncidentPath(dir, nowMs, count)
    {
      IncidentPathInjective(dir, stamps[k], k + 1, nowMs, count);
    }
  }

  /** The files the writer produces for `incidents`, the first with count `start + 1`, at the
      times `clock` gives each count. */
  function Writes(dir: string, start: nat, incidents: seq<Incident>, clock: nat -> nat): (r: seq<(string, Json)>)
    ensures |r| == |incidents|
  {
    seq(|incidents|, k requires 0 <= k < |incidents| =>
      (IncidentPath(dir, clock(start + k + 1), start + k + 1), IncidentJson(incidents[k])))
  }

  lemma WritesSnoc(dir: string, start: nat, incidents: seq<Incident>, inc: Incident, clock: nat -> nat)
    ensures Writes(dir, start, incidents + [inc], clock) == Writes(dir, start, incidents, clock)
      + [(IncidentPath(dir, clock(start + |incidents| + 1), start + |incidents| + 1), IncidentJson(inc))]
  {
    var a, b := Writes(dir, start, incidents + [inc], clock), Writes(dir, start, incidents, clock);
    assert forall k | 0 <= k < |incidents| :: a[k] == b[k] by {
      forall k | 0 <= k < |incidents|
        ensures a[k] == b[k]
      {
        assert (incidents + [inc])[k] == incidents[k];
      }
    }
    Snoc(a, b);
  }

  /** A sequence that starts with `b` and is one longer is `b` and its last element. */
  lemma Snoc<T>(a: seq<T>, b: seq<T>)
    requires |a| == |b| + 1 && forall k | 0 <= k < |b| :: a[k] == b[k]
    ensures a == b + [a[|b|]]
  {
  }

  /** No two writes of a run share a path. */
  lemma WritesDistinct(dir: string, start: nat, incidents: seq<Incident>, clock: nat -> nat)
    ensures var w := Writes(dir, start, incidents, clock);
      forall i, j | 0 <= i < j < |w| :: w[i].0 != w[j].0
  {
    forall i, j | 0 <= i < j < |incidents|
      ensures Writes(dir, start, incidents, clock)[i].0 != Writes(dir, start, incidents, clock)[j].0
    {
      WritePathsDiffer(dir, start, incidents, clock, i, j);
    }
  }

  lemma WritePathsDiffer(dir: string, start: nat, incidents: seq<Incident>, clock: nat -> nat, i: nat, j: nat)
    requires i < j < |incidents|
    ensures Writes(dir, start, incidents, clock)[i].0 != Writes(dir, start, incidents, clock)[j].0
  {
    WritePath(dir, start, incidents, clock, i);
    WritePath(dir, start, incidents, clock, j);
    IncidentPathsDiffer(dir, clock(start + i + 1), start + i + 1, clock(start + j + 1), start + j + 1);
  }

  lemma WritePath(dir: string, start: nat, incidents: seq<Incident>, clock: nat -> nat, k: nat)
    requires k < |incidents|
    ensures Writes(dir, start, incidents, clock)[k].0 == IncidentPath(dir, clock(start + k + 1), start + k + 1)
  {
  }

  /** Incidents written with different counts get different paths. */
  lemma IncidentPathsDiffer(dir: string, m1: nat, n1: nat, m2: nat, n2: nat)
    requires n1 != n2
    ensures IncidentPath(dir, m1, n1) != IncidentPath(dir, m2, n2)
  {
    IncidentPathInjective(dir, m1, n1, m2, n2);
  }

  /** The index of the first write that throws, or the number of writes when none does. */
  function FirstUnwritable(ws: seq<(string, Json)>, writable: string -> bool): (j: nat)
    ensures j <= |ws|
    ensures forall k | 0 <= k < j :: writable(ws[k].0)
    ensures j < |ws| ==> !writable(ws[j].0)
  {
    if ws == [] || !writable(ws[0].0) then 0
    else
      var j := 1 + FirstUnwritable(ws[1..], writable);
      assert forall k | 1 <= k < j :: ws[k] == ws[1..][k - 1];
      j
  }

  /** The writes before the `n`-th are the writes of the first `n` incidents. */
  lemma WritesPrefix(dir: string, incidents: seq<Incident>, n: nat, clock: nat -> nat)
    requires n <= |incidents|
    ensures Writes(dir, 0, incidents, clock)[..n] == Writes(dir, 0, incidents[..n], clock)
  {
    var a, b := Writes(dir, 0, incidents, clock)[..n], Writes(dir, 0, incidents[..n], clock);
    forall k | 0 <= k < n
      ensures a[k] == b[k]
    {
      assert incidents[..n][k] == incidents[k];
    }
  }

  // ---------------------------------------------------------------------------------------
  // The run

  /** The incidents written before the loop ends or throws, and whether it threw. */
  datatype Batch = Batch(incidents: seq<Incident>, crashed: bool)

  /** A loop over `items` that builds each one's incident with `build`, which gives `None`
      where building throws: the incidents built before the first that throws. */
  function BuildEach<T>(items: seq<T>, build: T -> Option<Incident>): (r: Batch)
    ensures |r.incidents| <= |items|
    ensures forall k | 0 <= k < |r.incidents| :: build(items[k]) == Some(r.incidents[k])
    ensures r.crashed <==> |r.incidents| < |items|
    ensures r.crashed ==> build(items[|r.incidents|]).None?
    decreases |items|
  {
    if items == [] then Batch([], false)
    else
      match build(items[0])
      case None => Batch([], true)
      case Some(inc) =>
        var rest := BuildEach(items[1..], build);
        assert forall k | 1 <= k < |items| :: items[k] == items[1..][k - 1];
        Batch([inc] + rest.incidents, rest.crashed)
  }

  /** The loop over the failures. */
  function FailureBatch(failures: seq<Failure>, build: Failure -> Option<Incident>): Batch {
    BuildEach(failures, build)
  }

  /** The incident of one fallback folder: `None` where listing it throws. */
  function FolderIncident(fs: seq<Node>, folder: string, env: Env): Option<Incident> {
    match Listing(fs, folder)
    case None => None
    case Some(cs) => Some(FallbackIncident(folder, Files(folder, cs), env))
  }

  /** The loop over the candidate folders. */
  function FallbackBatch(fs: seq<Node>, folders: seq<string>, env: Env): Batch {
    BuildEach(folders, f => FolderIncident(fs, f, env))
  }

  /** The fallback loop stops early exactly when it reaches a folder that cannot be listed. */
  lemma FallbackBatchStops(fs: seq<Node>, folders: seq<string>, env: Env)
    ensures var r := FallbackBatch(fs, folders, env);
      && (r.crashed <==> |r.incidents| < |folders|)
      && (r.crashed ==> Listing(fs, folders[|r.incidents|]).None?)
  {
    var r := FallbackBatch(fs, folders, env);
    if r.crashed {
      assert FolderIncident(fs, folders[|r.incidents|], env).None?;
    }
  }

  /** The `k`-th incident of the fallback loop is the one for the `k`-th folder. */
  lemma FallbackBatchIncidents(fs: seq<Node>, folders: seq<string>, env: Env)
    ensures var r := FallbackBatch(fs, folders, env);
      forall k | 0 <= k < |r.incidents| :: (Listing(fs, folders[k]).Some?
        && r.incidents[k] == FallbackIncident(folders[k], Files(folders[k], Listing(fs, folders[k]).value), env))
  {
    var r := FallbackBatch(fs, folders, env);
    forall k | 0 <= k < |r.incidents|
      ensures Listing(fs, folders[k]).Some?
      ensures r.incidents[k] == FallbackIncident(folders[k], Files(folders[k], Listing(fs, folders[k]).value), env)
    {
      assert FolderIncident(fs, folders[k], env) == Some(r.incidents[k]);
    }
  }

  /** The exit code and the incidents written. */
  datatype Outcome = Outcome(code: int, incidents: seq<Incident>)

  function Finish(b: Batch): Outcome {
    Outcome(if b.crashed then 1 else 0, b.incidents)
  }

  /** Both walked directories can be listed: the artifacts directory and `test-results`. */
  predicate Walkable(fs: seq<Node>, artifactsDir: string) {
    Listing(fs, artifactsDir).Some? && Listing(fs, TestResultsDir).Some?
  }

  /** `walkDirSync(dir)` on a directory that can be listed. */
  function WalkOf(fs: seq<Node>, dir: string): seq<string>
    requires Listing(fs, dir).Some?
  {
    Files(dir, Listing(fs, dir).value)
  }

  /** Every report found: the candidates, then the JSON files below the artifacts directory and
      below `test-results`. */
  function Reports(fs: seq<Node>, artifactsDir: string, parse: string -> Option<Json>): seq<Source>
    requires Walkable(fs, artifactsDir)
  {
    Loaded(fs, Candidates(artifactsDir), parse)
      + Loaded(fs, NonEmpty(JsonFiles(WalkOf(fs, artifactsDir)) + JsonFiles(WalkOf(fs, TestResultsDir))), parse)
  }

  /** The failures all reports hold. */
  function FailuresFound(fs: seq<Node>, artifactsDir: string, parse: string -> Option<Json>): seq<Failure>
    requires Walkable(fs, artifactsDir)
  {
    AllFailures(Reports(fs, artifactsDir, parse))
  }

  /** The artifacts below the artifacts directory. */
  function ArtifactsFound(fs: seq<Node>, artifactsDir: string): Artifacts
    requires Listing(fs, artifactsDir).Some?
  {
    Classify(WalkOf(fs, artifactsDir))
  }

  /** The builder of a failure's incident. */
  function Builder(arts: Artifacts, env: Env, stringify: Json -> string): Failure -> Option<Incident> {
    f => FailureIncident(f, arts, env, stringify)
  }

  /** What happens once both directories have been walked. */
  function AfterWalks(fs: seq<Node>, failures: seq<Failure>, arts: Artifacts, env: Env,
                      stringify: Json -> string): Outcome
  {
    if failures != [] then Finish(FailureBatch(failures, Builder(arts, env, stringify)))
    else
      var folders := Folders(FolderSources(arts));
      if folders == [] then Outcome(0, []) else Finish(FallbackBatch(fs, folders, env))
  }

  /** The whole script on the working directory `fs`: a missing artifacts directory, and a
      walk of a path that is not a directory, end it with exit code 1 before anything is
      written. */
  function PackOutcome(artifactsDir: string, fs: seq<Node>, parse: string -> Option<Json>,
                       stringify: Json -> string, env: Env): Outcome
  {
    if Resolve(fs, artifactsDir).None? || !Walkable(fs, artifactsDir) then Outcome(1, [])
    else
      AfterWalks(fs, FailuresFound(fs, artifactsDir, parse), ArtifactsFound(fs, artifactsDir), env, stringify)
  }

  /** The incident files written for the outcome `o` into `dir`, and the exit code: the writes
      run in order up to the first that throws, which ends the script with exit code 1. */
  function Persist(o: Outcome, dir: string, clock: nat -> nat, writable: string -> bool): (int, seq<(string, Json)>) {
    var ws := Writes(dir, 0, o.incidents, clock);
    var j := FirstUnwritable(ws, writable);
    if j < |ws| then (1, ws[..j]) else (o.code, ws)
  }

  /** The whole script with its writes: `mkdirOk` says whether creating a missing incidents
      directory succeeds and `writable` whether writing a file succeeds; a failure of either
      throws, ending the script with exit code 1. */
  function PackResult(artifactsDir: string, fs: seq<Node>, parse: string -> Option<Json>,
                      stringify: Json -> string, env: Env, clock: nat -> nat,
                      mkdirOk: bool, writable: string -> bool): (int, seq<(string, Json)>)
  {
    var incidentsDir := Paths.Join(artifactsDir, "incidents");
    if Resolve(fs, artifactsDir).None? || !Walkable(fs, artifactsDir) then (1, [])
    else if Resolve(fs, incidentsDir).None? && !mkdirOk then (1, [])
    else Persist(PackOutcome(artifactsDir, fs, parse, stringify, env), incidentsDir, clock, writable)
  }

  /** One more `writeIncident` call, for the next incident of a run; `false` where writing
      its file throws. */
  method Emit(w: IncidentWriter, ghost built: seq<Incident>, inc: Incident, clock: nat -> nat,
              writable: string -> bool) returns (ok: bool)
    requires w.Valid() && w.written == Writes(w.dir, 0, built, clock)
    modifies w
    ensures ok == writable(IncidentPath(w.dir, clock(|built| + 1), |built| + 1))
    ensures ok ==> w.Valid() && w.written == Writes(w.dir, 0, built + [inc], clock)
    ensures ok ==> w.written == old(w.written) + [(IncidentPath(w.dir, clock(|built| + 1), |built| + 1), IncidentJson(inc))]
    ensures !ok ==> w.written == old(w.written)
    ensures ok && (forall k | 0 <= k < |old(w.written)| :: writable(old(w.written)[k].0)) ==>
      forall k | 0 <= k < |w.written| :: writable(w.written[k].0)
  {
    ghost var n := |built| + 1;
    assert w.count + 1 == n;
    ok := w.Write(IncidentJson(inc), clock(w.count + 1), writable);
    if ok {
      WritesSnoc(w.dir, 0, built, inc, clock);
      assert 0 + |built| + 1 == n;
    }
  }

  /** What a loop that stopped after writing the incidents `built` leaves behind, for the
      incidents `planned` the loop would write were every write to succeed: `built` starts
      `planned`, and the loop stopped at its end or at a write that throws. */
  lemma StoppedAt(dir: string, planned: seq<Incident>, built: seq<Incident>, clock: nat -> nat,
                  writable: string -> bool)
    requires |built| <= |planned| && planned[..|built|] == built
    requires forall k | 0 <= k < |built| :: writable(Writes(dir, 0, built, clock)[k].0)
    requires |built| == |planned| || !writable(IncidentPath(dir, clock(|built| + 1), |built| + 1))
    ensures var ws := Writes(dir, 0, planned, clock);
      FirstUnwritable(ws, writable) == |built| && ws[..|built|] == Writes(dir, 0, built, clock)
  {
    var ws, n := Writes(dir, 0, planned, clock), |built|;
    WritesPrefix(dir, planned, n, clock);
    assert forall k | 0 <= k < n :: ws[k] == ws[..n][k];
    if n < |planned| {
      assert ws[n].0 == IncidentPath(dir, clock(0 + n + 1), 0 + n + 1);
    }
    FirstUnwritableIs(ws, writable, n);
  }

  /** The first write that throws is the one after a run of writes that succeed. */
  lemma FirstUnwritableIs(ws: seq<(string, Json)>, writable: string -> bool, n: nat)
    requires n <= |ws| && forall k | 0 <= k < n :: writable(ws[k].0)
    requires n == |ws| || !writable(ws[n].0)
    ensures FirstUnwritable(ws, writable) == n
  {
  }

  /** The loop over the failures, writing each incident; it stops at the first failure whose
      incident cannot be built and at the first write that throws. */
  method WriteFailureIncidents(w: IncidentWriter, failures: seq<Failure>, arts: Artifacts, env: Env,
                               stringify: Json -> string, clock: nat -> nat, writable: string -> bool)
    returns (crashed: bool)
    requires w.Valid() && w.written == []
    modifies w
    ensures var b := FailureBatch(failures, Builder(arts, env, stringify));
      var ws := Writes(w.dir, 0, b.incidents, clock);
      var j := FirstUnwritable(ws, writable);
      crashed == (b.crashed || j < |ws|) && w.written == ws[..j]
  {
    ghost var built;
    var build := Builder(arts, env, stringify);
    crashed, built := WriteEachFailure(w, failures, build, clock, writable);
    var b := FailureBatch(failures, build);
    BatchStarts(failures, build, built);
    StoppedAt(w.dir, b.incidents, built, clock, writable);
  }

  /** The incidents built in order before a loop stopped start its batch; where the loop
      stopped at an item whose incident could be built, the batch goes on past it, and
      otherwise the batch ends there. */
  lemma BatchStarts<T>(items: seq<T>, build: T -> Option<Incident>, built: seq<Incident>)
    requires |built| <= |items|
    requires forall k | 0 <= k < |built| :: build(items[k]) == Some(built[k])
    ensures var b := BuildEach(items, build);
      |built| <= |b.incidents| && b.incidents[..|built|] == built
      && (|built| < |items| && build(items[|built|]).Some? ==> |built| < |b.incidents|)
      && (|built| == |items| || build(items[|built|]).None? ==> |b.incidents| == |built|)
  {
    var b := BuildEach(items, build);
    var m := |b.incidents|;
    assert forall k | 0 <= k < |built| :: build(items[k]).Some?;
    assert forall k | 0 <= k < |built| :: b.incidents[k] == built[k];
  }

  method WriteEachFailure(w: IncidentWriter, failures: seq<Failure>, build: Failure -> Option<Incident>,
                          clock: nat -> nat, writable: string -> bool) returns (crashed: bool, ghost built: seq<Incident>)
    requires w.Valid() && w.written == []
    modifies w
    ensures w.written == Writes(w.dir, 0, built, clock)
    ensures forall k | 0 <= k < |w.written| :: writable(w.written[k].0)
    ensures |built| <= |failures| && crashed == (|built| < |failures|)
    ensures forall k | 0 <= k < |built| :: build(failures[k]) == Some(built[k])
    ensures crashed ==> (build(failures[|built|]).None?
      || !writable(IncidentPath(w.dir, clock(|built| + 1), |built| + 1)))
  {
    crashed := false;
    built := [];
    var i := 0;
    while i < |failures|
      invariant 0 <= i <= |failures| && |built| == i
      invariant w.Valid()
      invariant forall k | 0 <= k < i :: build(failures[k]) == Some(built[k])
      invariant w.written == Writes(w.dir, 0, built, clock)
      invariant forall k | 0 <= k < |w.written| :: writable(w.written[k].0)
    {
      var inc := build(failures[i]);
      if inc.None? {
        crashed := true;
        return;
      }
      var ok := Emit(w, built, inc.value, clock, writable);
      if !ok {
        crashed := true;
        return;
      }
      built := built + [inc.value];
      i := i + 1;
    }
  }

  /** The loop over the candidate folders, walking each and writing its incident; it stops at
      the first folder that cannot be listed and at the first write that throws. */
  method WriteFallbackIncidents(w: IncidentWriter, fs: seq<Node>, folders: seq<string>, env: Env,
                                clock: nat -> nat, writable: string -> bool) returns (crashed: bool)
    requires w.Valid() && w.written == []
    modifies w
    ensures var b := FallbackBatch(fs, folders, env);
      var ws := Writes(w.dir, 0, b.incidents, clock);
      var j := FirstUnwritable(ws, writable);
      crashed == (b.crashed || j < |ws|) && w.written == ws[..j]
  {
    ghost var built;
    crashed, built := WriteEachFolder(w, fs, folders, env, clock, writable);
    BatchStarts(folders, f => FolderIncident(fs, f, env), built);
    StoppedAt(w.dir, FallbackBatch(fs, folders, env).incidents, built, clock, writable);
  }

  /** One more incident built in order. */
  lemma BuiltOneMore<T>(items: seq<T>, build: T -> Option<Incident>, built: seq<Incident>, inc: Incident)
    requires |built| < |items| && build(items[|built|]) == Some(inc)
    requires forall k | 0 <= k < |built| :: build(items[k]) == Some(built[k])
    ensures forall k | 0 <= k < |built| + 1 :: build(items[k]) == Some((built + [inc])[k])
  {
    forall k | 0 <= k < |built| + 1
      ensures build(items[k]) == Some((built + [inc])[k])
    {
      if k < |built| {
        assert (built + [inc])[k] == built[k];
      }
    }
  }

  /** One turn of the fallback loop: walk `folder` and write its incident; `false` where the
      folder cannot be listed or the file cannot be written. */
  method WriteFolder(w: IncidentWriter, ghost built: seq<Incident>, fs: seq<Node>, folder: string, env: Env,
                     clock: nat -> nat, writable: string -> bool) returns (ok: bool, inc: Option<Incident>)
    requires w.Valid() && w.written == Writes(w.dir, 0, built, clock)
    modifies w
    ensures inc == FolderIncident(fs, folder, env)
    ensures ok ==> (inc.Some? && w.Valid() && writable(IncidentPath(w.dir, clock(|built| + 1), |built| + 1))
      && w.written == old(w.written) + [(IncidentPath(w.dir, clock(|built| + 1), |built| + 1), IncidentJson(inc.value))]
      && w.written == Writes(w.dir, 0, built + [inc.value], clock))
    ensures !ok ==> w.written == old(w.written)
    ensures !ok ==> inc.None? || !writable(IncidentPath(w.dir, clock(|built| + 1), |built| + 1))
  {
    var listing := Listing(fs, folder);
    if listing.None? {
      return false, None;
    }
    var files := WalkDir(folder, listing.value);
    inc := Some(FallbackIncident(folder, files, env));
    ok := Emit(w, built, inc.value, clock, writable);
  }

  method WriteEachFolder(w: IncidentWriter, fs: seq<Node>, folders: seq<string>, env: Env,
                         clock: nat -> nat, writable: string -> bool) returns (crashed: bool, ghost built: seq<Incident>)
    requires w.Valid() && w.written == []
    modifies w
    ensures w.written == Writes(w.dir, 0, built, clock)
    ensures forall k | 0 <= k < |w.written| :: writable(w.written[k].0)
    ensures |built| <= |folders| && crashed == (|built| < |folders|)
    ensures forall k | 0 <= k < |built| :: FolderIncident(fs, folders[k], env) == Some(built[k])
    ensures crashed ==> (FolderIncident(fs, folders[|built|], env).None?
      || !writable(IncidentPath(w.dir, clock(|built| + 1), |built| + 1)))
  {
    crashed := false;
    built := [];
    ghost var build: string -> Option<Incident> := f => FolderIncident(fs, f, env);
    var i := 0;
    while i < |folders|
      invariant 0 <= i <= |folders| && |built| == i
      invariant w.Valid()
      invariant forall k | 0 <= k < i :: build(folders[k]) == Some(built[k])
      invariant w.written == Writes(w.dir, 0, built, clock)
      invariant forall k | 0 <= k < |w.written| :: writable(w.written[k].0)
    {
      var ok, inc := WriteFolder(w, built, fs, folders[i], env, clock, writable);
      if !ok {
        crashed := true;
        return;
      }
      BuiltOneMore(folders, build, built, inc.value);
      built := built + [inc.value];
      i := i + 1;
    }
  }

  /** The script up to the incidents directory: load the reports, collect their failures and
      classify the artifacts; `false` where the artifacts directory is missing or a walk
      throws. */
  method Survey(artifactsDir: string, fs: seq<Node>, parse: string -> Option<Json>)
    returns (ok: bool, failures: seq<Failure>, arts: Artifacts)
    ensures ok == (Resolve(fs, artifactsDir).Some? && Walkable(fs, artifactsDir))
    ensures ok ==> failures == FailuresFound(fs, artifactsDir, parse) && arts == ArtifactsFound(fs, artifactsDir)
  {
    if Resolve(fs, artifactsDir).None? {
      return false, [], Classify([]);
    }
    var candidates := LoadResults(fs, Candidates(artifactsDir), parse);
    var listing := Listing(fs, artifactsDir);
    if listing.None? {
      return false, [], Classify([]);
    }
    var inArtifacts := WalkDir(artifactsDir, listing.value);
    var testResults := Listing(fs, TestResultsDir);
    if testResults.None? {
      return false, [], Classify([]);
    }
    var inTestResults := WalkDir(TestResultsDir, testResults.value);
    var more := LoadResults(fs, NonEmpty(JsonFiles(inArtifacts) + JsonFiles(inTestResults)), parse);
    failures := CollectFailures(candidates + more);
    var all := WalkDir(artifactsDir, listing.value);
    arts := Classify(all);
    ok := true;
  }

  /** The script: its exit code and the incident files it writes, in order. */
  method Pack(artifactsDir: string, fs: seq<Node>, parse: string -> Option<Json>, stringify: Json -> string,
              env: Env, clock: nat -> nat, mkdirOk: bool, writable: string -> bool)
    returns (code: int, written: seq<(string, Json)>)
    ensures (code, written) == PackResult(artifactsDir, fs, parse, stringify, env, clock, mkdirOk, writable)
  {
    var ok, failures, arts := Survey(artifactsDir, fs, parse);
    if !ok {
      return 1, [];
    }
    var incidentsDir := Paths.Join(artifactsDir, "incidents");
    if Resolve(fs, incidentsDir).None? && !mkdirOk {
      return 1, [];
    }
    var w := new IncidentWriter(incidentsDir);
    var crashed;
    ghost var b;
    if failures != [] {
      crashed := WriteFailureIncidents(w, failures, arts, env, stringify, clock, writable);
      b := FailureBatch(failures, Builder(arts, env, stringify));
    } else {
      var folders := CandidateFolders(FolderSources(arts));
      if folders == [] {
        return 0, [];
      }
      crashed := WriteFallbackIncidents(w, fs, folders, env, clock, writable);
      b := FallbackBatch(fs, folders, env);
    }
    assert PackOutcome(artifactsDir, fs, parse, stringify, env) == Finish(b);
    code := if crashed then 1 else 0;
    written := w.written;
    PersistFinish(b, incidentsDir, clock, writable, crashed, written);
  }

  /** A loop that stopped as its batch and the first write that throws say leaves the exit
      code and the files `Persist` gives. */
  lemma PersistFinish(b: Batch, dir: string, clock: nat -> nat, writable: string -> bool,
                      crashed: bool, written: seq<(string, Json)>)
    requires var ws := Writes(dir, 0, b.incidents, clock);
      var j := FirstUnwritable(ws, writable);
      crashed == (b.crashed || j < |ws|) && written == ws[..j]
    ensures ((if crashed then 1 else 0), written) == Persist(Finish(b), dir, clock, writable)
  {
    var ws := Writes(dir, 0, b.incidents, clock);
    assert ws[..|ws|] == ws;
  }

  /** The files written start the files planned for the outcome; with the incidents directory
      in place and every planned file writable they are all written and the exit code is the
      outcome's, and otherwise the script stops with exit code 1 right before the first write
      that throws. */
  lemma PackWrites(artifactsDir: string, fs: seq<Node>, parse: string -> Option<Json>,
                   stringify: Json -> string, env: Env, clock: nat -> nat,
                   mkdirOk: bool, writable: string -> bool)
    ensures var r := PackResult(artifactsDir, fs, parse, stringify, env, clock, mkdirOk, writable);
      var o := PackOutcome(artifactsDir, fs, parse, stringify, env);
      var ws := Writes(Paths.Join(artifactsDir, "incidents"), 0, o.incidents, clock);
      && |r.1| <= |ws| && r.1 == ws[..|r.1|]
      && (r.0 == 0 ==> r.1 == ws)
      && (((mkdirOk || Resolve(fs, Paths.Join(artifactsDir, "incidents")).Some?)
           && forall k | 0 <= k < |ws| :: writable(ws[k].0)) ==> r == (o.code, ws))
      && (forall k | 0 <= k < |ws| && !writable(ws[k].0) :: r.0 == 1 && |r.1| <= k)
  {
    var dir := Paths.Join(artifactsDir, "incidents");
    var o := PackOutcome(artifactsDir, fs, parse, stringify, env);
    if Resolve(fs, artifactsDir).None? || !Walkable(fs, artifactsDir) {
      assert o == Outcome(1, []);
    } else if Resolve(fs, dir).None? && !mkdirOk {
      assert PackResult(artifactsDir, fs, parse, stringify, env, clock, mkdirOk, writable) == (1, []);
    } else {
      assert PackResult(artifactsDir, fs, parse, stringify, env, clock, mkdirOk, writable) == Persist(o, dir, clock, writable);
      PersistWrites(o, dir, clock, writable);
    }
  }

  /** Persisting writes a prefix of the planned files: all of them with the outcome's exit
      code when none throws, and otherwise exactly those before the first that throws, with
      exit code 1. */
  lemma PersistWrites(o: Outcome, dir: string, clock: nat -> nat, writable: string -> bool)
    requires o.code == 0 || o.code == 1
    ensures var r := Persist(o, dir, clock, writable);
      var ws := Writes(dir, 0, o.incidents, clock);
      && |r.1| <= |ws| && r.1 == ws[..|r.1|]
      && (r.0 == 0 ==> r.1 == ws)
      && ((forall k | 0 <= k < |ws| :: writable(ws[k].0)) ==> r == (o.code, ws))
      && (forall k | 0 <= k < |ws| && !writable(ws[k].0) :: r.0 == 1 && |r.1| <= k)
      && (forall k | 0 <= k < |r.1| :: writable(r.1[k].0))
  {
    var ws := Writes(dir, 0, o.incidents, clock);
    assert ws[..|ws|] == ws;
  }

  /** With failures reported, the script writes one incident per failure, in order, and exits
      with 0; it stops with exit code 1 at the first failure whose incident cannot be built. */
  lemma PackWithFailures(artifactsDir: string, fs: seq<Node>, parse: string -> Option<Json>,
                         stringify: Json -> string, env: Env)
    requires Resolve(fs, artifactsDir).Some? && Walkable(fs, artifactsDir)
    requires FailuresFound(fs, artifactsDir, parse) != []
    ensures var o := PackOutcome(artifactsDir, fs, parse, stringify, env);
      var failures := FailuresFound(fs, artifactsDir, parse);
      var arts := ArtifactsFound(fs, artifactsDir);
      && (o.code == 0 || o.code == 1)
      && |o.incidents| <= |failures|
      && (forall k | 0 <= k < |o.incidents| :: FailureIncident(failures[k], arts, env, stringify) == Some(o.incidents[k]))
      && (o.code == 0 <==> forall k | 0 <= k < |failures| :: FailureIncident(failures[k], arts, env, stringify).Some?)
      && (o.code == 0 ==> |o.incidents| == |failures|)
      && (o.code == 1 ==> FailureIncident(failures[|o.incidents|], arts, env, stringify).None?)
  {
    var failures := FailuresFound(fs, artifactsDir, parse);
    var arts := ArtifactsFound(fs, artifactsDir);
    var build := Builder(arts, env, stringify);
    assert forall f :: build(f) == FailureIncident(f, arts, env, stringify);
    var b := FailureBatch(failures, build);
    assert PackOutcome(artifactsDir, fs, parse, stringify, env) == Finish(b);
  }

  /** With no failure reported, every folder that holds an artifact other than a log gets one
      incident, each folder once, listing the artifacts found below it; on a well-formed tree
      every such folder can be walked, so the script exits with 0. With no such artifact it
      writes nothing and exits with 0. */
  lemma PackFallback(artifactsDir: string, fs: seq<Node>, parse: string -> Option<Json>,
                     stringify: Json -> string, env: Env)
    requires WellFormed(fs)
    requires Resolve(fs, artifactsDir).Some? && Walkable(fs, artifactsDir)
    requires FailuresFound(fs, artifactsDir, parse) == []
    ensures var o := PackOutcome(artifactsDir, fs, parse, stringify, env);
      var folders := Folders(FolderSources(ArtifactsFound(fs, artifactsDir)));
      && o.code == 0
      && |o.incidents| == |folders|
      && (forall k | 0 <= k < |folders| :: Listing(fs, folders[k]).Some?
            && o.incidents[k] == FallbackIncident(folders[k], WalkOf(fs, folders[k]), env))
  {
    FoldersListable(fs, artifactsDir);
    var folders := Folders(FolderSources(ArtifactsFound(fs, artifactsDir)));
    if folders != [] {
      FallbackCompletes(fs, folders, env);
      FallbackBatchStops(fs, folders, env);
      FallbackBatchIncidents(fs, folders, env);
    }
  }

  /** On a well-formed tree the folder of every artifact found can be listed. */
  lemma FoldersListable(fs: seq<Node>, artifactsDir: string)
    requires WellFormed(fs) && Listing(fs, artifactsDir).Some?
    ensures forall d | d in Folders(FolderSources(ArtifactsFound(fs, artifactsDir))) :: Listing(fs, d).Some?
  {
    var sources := FolderSources(ArtifactsFound(fs, artifactsDir));
    FileTree.ParentsListable(fs, artifactsDir);
    forall d | d in Folders(sources)
      ensures Listing(fs, d).Some?
    {
      var p :| p in sources && Paths.Dirname(p) == d;
      assert p in WalkOf(fs, artifactsDir);
    }
  }

  /** The fallback loop runs to its end when every folder can be listed. */
  lemma FallbackCompletes(fs: seq<Node>, folders: seq<string>, env: Env)
    requires forall d | d in folders :: Listing(fs, d).Some?
    ensures !FallbackBatch(fs, folders, env).crashed
  {
    FallbackBatchStops(fs, folders, env);
  }
}
