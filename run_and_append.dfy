/** `scripts/run-and-append.js`: the wrapper that runs the test suite as a child process,
    echoes and captures its output, reads the counts off the list reporter's summary lines,
    appends one run entry to `test-results/aggregate-results.json` and exits with the child's
    exit code. The child process, its streams and the clock are outside the model: the output
    arrives as chunks through the stream handlers and the clock reading is a parameter. */
module RunAndAppend {
  import opened Wrappers
  import opened Js
  import Text
  import SoftwareVersion
  import RunLog
  import CiReport

  /** The version read once at start-up from the `VERSION` file: `'unknown'` when the file is
      missing or cannot be read, else its declared version — which, unlike the CI report's,
      stays empty for a blank file. */
  function ReadVersion(file: RunLog.FileRead): (v: string)
    ensures !file.Content? ==> v == "unknown"
    ensures v != "" ==> v == CiReport.ExtractVersion(file)
    ensures v == "" ==> file.Content? && CiReport.ExtractVersion(file) == "unknown"
  {
    match file
    case Content(raw) => SoftwareVersion.Declared(raw)
    case _ => "unknown"
  }

  /** A blank version file is recorded as the empty version, where the CI report says
      `'unknown'`. */
  lemma BlankVersionFile(raw: string)
    requires Text.AllSpace(raw)
    ensures ReadVersion(RunLog.Content(raw)) == ""
    ensures CiReport.ExtractVersion(RunLog.Content(raw)) == "unknown"
  {
    SoftwareVersion.BlankDeclaresNothing(raw);
    CiReport.BlankVersionFile(raw);
  }

  /** The regular expressions the close handler runs over the captured output. */
  datatype Pattern =
    | Count(word: string)  // `/(\d+) word/`
    | Running              // `/Running\s+(\d+) tests/`

  /** The end of the run of digits that starts at `i`: how far a greedy `\d+` reaches. */
  function DigitRunEnd(s: string, i: nat): (e: nat)
    requires i <= |s|
    ensures i <= e <= |s|
    ensures forall k | i <= k < e :: Text.IsDigit(s[k])
    ensures e == |s| || !Text.IsDigit(s[e])
    decreases |s| - i
  {
    if i < |s| && Text.IsDigit(s[i]) then DigitRunEnd(s, i + 1) else i
  }

  /** A match of `p` starts at index `i` of `s`. Giving back digits of `\d+` (or blanks of
      `\s+`) never helps, because what must follow is a blank (or a digit), so only the
      greedy choice can succeed. */
  predicate MatchesAt(p: Pattern, s: string, i: nat) {
    match p
    case Count(word) =>
      i < |s| && Text.IsDigit(s[i]) && Text.OccursAt(s, " " + word, DigitRunEnd(s, i))
    case Running =>
      Text.OccursAt(s, "Running", i) &&
      var k := SoftwareVersion.SpaceRunEnd(s, i + 7);
      i + 7 < k < |s| && Text.IsDigit(s[k]) && Text.OccursAt(s, " tests", DigitRunEnd(s, k))
  }

  /** Where the group `(\d+)` of the match at `i` starts. */
  function GroupStart(p: Pattern, s: string, i: nat): (k: nat)
    requires MatchesAt(p, s, i)
    ensures i <= k < |s| && Text.IsDigit(s[k])
  {
    match p
    case Count(_) => i
    case Running => SoftwareVersion.SpaceRunEnd(s, i + 7)
  }

  /** The text of the group `(\d+)` of the match at `i`. */
  function Group(p: Pattern, s: string, i: nat): (g: string)
    requires MatchesAt(p, s, i)
    ensures g != "" && Text.AllDigits(g)
  {
    var k := GroupStart(p, s, i);
    var e := DigitRunEnd(s, k);
    assert forall j | 0 <= j < e - k :: s[k..e][j] == s[k + j];
    s[k..e]
  }

  /** Where the leftmost match at `i` or later starts. */
  function Leftmost(p: Pattern, s: string, i: nat): (r: Option<nat>)
    requires i <= |s|
    ensures r.Some? ==> i <= r.value < |s| && MatchesAt(p, s, r.value)
    ensures forall j | i <= j && (r.None? || j < r.value) :: !MatchesAt(p, s, j)
    decreases |s| - i
  {
    if i == |s| then None
    else if MatchesAt(p, s, i) then Some(i)
    else Leftmost(p, s, i + 1)
  }

  /** `Leftmost` finds the first match at or after `i`. */
  lemma {:induction false} LeftmostIs(p: Pattern, s: string, i: nat, m: nat)
    requires i <= m < |s| && MatchesAt(p, s, m)
    requires forall j | i <= j < m :: !MatchesAt(p, s, j)
    ensures Leftmost(p, s, i) == Some(m)
    decreases m - i
  {
    if i < m {
      LeftmostIs(p, s, i + 1, m);
    }
  }

  /** `Number(s.match(p)[1])`, and `None` where `s.match(p)` is `null`. */
  function Matched(p: Pattern, s: string): (n: Option<nat>)
    ensures n.None? <==> forall i :: !MatchesAt(p, s, i)
    ensures n.Some? ==> exists i: nat :: (MatchesAt(p, s, i) && n.value == Text.DigitsValue(Group(p, s, i)) &&
      forall j: nat | j < i :: !MatchesAt(p, s, j))
  {
    match Leftmost(p, s, 0)
    case None => None
    case Some(i) => Some(Text.DigitsValue(Group(p, s, i)))
  }

  /** `m ? Number(m[1]) : 0` for `/(\d+) word/`. */
  function CountOf(stdout: string, word: string): nat {
    Matched(Count(word), stdout).GetOr(0)
  }

  datatype Counts = Counts(passed: nat, failed: nat, skipped: nat, timedOut: nat) {
    function Sum(): nat {
      passed + failed + skipped + timedOut
    }
  }

  /** The four counts read off the captured standard output. */
  function CountsOf(stdout: string): Counts {
    Counts(CountOf(stdout, "passed"), CountOf(stdout, "failed"), CountOf(stdout, "skipped"),
           CountOf(stdout, "timedOut"))
  }

  /** The total from the `Running N tests` banner, or the sum of the four counts without one. */
  function Total(stdout: string): nat {
    Matched(Running, stdout).GetOr(CountsOf(stdout).Sum())
  }

  /** A text that contains no " word" has no count for `word`. */
  lemma AbsentCount(stdout: string, word: string)
    requires !Text.Contains(stdout, " " + word)
    ensures CountOf(stdout, word) == 0
  {
    forall i: nat | MatchesAt(Count(word), stdout, i)
      ensures false
    {
      Text.ContainsAt(stdout, " " + word, DigitRunEnd(stdout, i));
    }
  }

  /** Output without a `Running` banner totals the four counts. */
  lemma TotalWithoutBanner(stdout: string)
    requires forall i: nat :: !MatchesAt(Running, stdout, i)
    ensures Total(stdout) == CountsOf(stdout).Sum()
  {
  }

  /** Output that never says "Running" has no banner. */
  lemma NoRunningNoBanner(stdout: string)
    requires !Text.Contains(stdout, "Running")
    ensures forall i: nat :: !MatchesAt(Running, stdout, i)
  {
    forall i: nat | MatchesAt(Running, stdout, i)
      ensures false
    {
      Text.ContainsAt(stdout, "Running", i);
    }
  }

  /** `DigitRunEnd` stops at the first character after `i` that is not a digit. */
  lemma {:induction false} DigitRunEndIs(s: string, i: nat, e: nat)
    requires i <= e <= |s|
    requires forall k | i <= k < e :: Text.IsDigit(s[k])
    requires e == |s| || !Text.IsDigit(s[e])
    ensures DigitRunEnd(s, i) == e
    decreases e - i
  {
    if i < e {
      DigitRunEndIs(s, i + 1, e);
    }
  }

  /** An occurrence that starts before index `b` ends by `b` when no character of it but the
      first is the one at `b`. */
  lemma OccursBefore(s: string, sub: string, i: nat, b: nat)
    requires i < b < |s| && Text.OccursAt(s, sub, i)
    requires forall m | 0 < m < |sub| :: sub[m] != s[b]
    ensures i + |sub| <= b
  {
    if i + |sub| > b {
      SliceChar(s, i, i + |sub|, b);
    }
  }

  lemma SliceChar(s: string, i: nat, j: nat, k: nat)
    requires i <= k < j <= |s|
    ensures s[i..j][k - i] == s[k]
  {
  }

  /** A match of `/(\d+) word/` that starts before a digit, in a text whose first part ends in
      something other than a digit, lies within that first part when `word` has no digit. */
  lemma CountMatchInPrefix(before: string, rest: string, word: string, j: nat)
    requires j < |before| && !Text.IsDigit(before[|before| - 1])
    requires rest != [] && Text.IsDigit(rest[0])
    requires forall k | 0 <= k < |word| :: !Text.IsDigit(word[k])
    requires MatchesAt(Count(word), before + rest, j)
    ensures MatchesAt(Count(word), before, j)
  {
    var s, b, w := before + rest, |before|, " " + word;
    var e := DigitRunEnd(before, j);
    assert e < b;
    DigitRunEndIs(s, j, e);
    assert s[b] == rest[0];
    OccursBefore(s, w, e, b);
    assert before[e..e + |w|] == s[e..e + |w|];
  }

  /** The numeral of a summary line such as `  12 passed (3.4s)` is the count, when the text
      before it holds no match of its own and does not end in a digit, and the word has no
      digit (as none of the four the wrapper reads has). */
  lemma SummaryLineCount(before: string, n: nat, word: string, after: string)
    requires forall j: nat :: !MatchesAt(Count(word), before, j)
    requires before == [] || !Text.IsDigit(before[|before| - 1])
    requires forall k | 0 <= k < |word| :: !Text.IsDigit(word[k])
    ensures CountOf(before + Text.NatToString(n) + " " + word + after, word) == n
  {
    var digits := Text.NatToString(n);
    var rest := digits + " " + word + after;
    var s := before + digits + " " + word + after;
    assert s == before + rest;
    var b := |before|;
    SummaryLineAt(before, digits, word, after);
    forall j: nat | j < b
      ensures !MatchesAt(Count(word), s, j)
    {
      if MatchesAt(Count(word), s, j) {
        CountMatchInPrefix(before, rest, word, j);
      }
    }
    LeftmostIs(Count(word), s, 0, b);
  }

  /** A numeral followed by " word" right after `before` is a match whose group is the
      numeral. */
  lemma SummaryLineAt(before: string, digits: string, word: string, after: string)
    requires digits != "" && Text.AllDigits(digits)
    ensures var s := before + digits + " " + word + after;
      MatchesAt(Count(word), s, |before|) && Group(Count(word), s, |before|) == digits
  {
    var s := before + digits + " " + word + after;
    var b, e := |before|, |before| + |digits|;
    assert s[e] == ' ';
    assert forall k | b <= k < e :: s[k] == digits[k - b];
    DigitRunEndIs(s, b, e);
    assert s[e..e + |" " + word|] == " " + word;
    assert s[b..e] == digits;
  }

  /** A banner match that starts before an `R` lies within the text before it: none of
      "unning", white space, digits and " tests" holds an `R`. */
  lemma BannerMatchInPrefix(before: string, rest: string, j: nat)
    requires j < |before| && rest != [] && rest[0] == 'R'
    requires MatchesAt(Running, before + rest, j)
    ensures MatchesAt(Running, before, j)
  {
    var s, b := before + rest, |before|;
    assert s[b] == 'R';
    OccursBefore(s, "Running", j, b);
    assert before[j..j + 7] == s[j..j + 7];
    var k := SoftwareVersion.SpaceRunEnd(s, j + 7);
    assert k < b;
    assert forall m | j + 7 <= m <= k :: before[m] == s[m];
    SoftwareVersion.SpaceRunEndsAt(before, j + 7, k);
    var e := DigitRunEnd(s, k);
    assert e < b;
    assert forall m | k <= m <= e :: before[m] == s[m];
    DigitRunEndIs(before, k, e);
    OccursBefore(s, " tests", e, b);
    assert before[e..e + 6] == s[e..e + 6];
  }

  /** The numeral of a `Running N tests` banner is the total, when the text before it holds no
      banner of its own. */
  lemma BannerTotal(before: string, n: nat, after: string)
    requires forall j: nat :: !MatchesAt(Running, before, j)
    ensures Total(before + "Running " + Text.NatToString(n) + " tests" + after) == n
  {
    var digits := Text.NatToString(n);
    var rest := "Running " + digits + " tests" + after;
    var s := before + "Running " + digits + " tests" + after;
    assert s == before + rest;
    var b := |before|;
    BannerAt(before, digits, after);
    forall j: nat | j < b
      ensures !MatchesAt(Running, s, j)
    {
      if MatchesAt(Running, s, j) {
        BannerMatchInPrefix(before, rest, j);
      }
    }
    LeftmostIs(Running, s, 0, b);
  }

  /** A banner match starts with an `R`. */
  lemma NoBannerAt(s: string, j: nat)
    requires j < |s| && s[j] != 'R'
    ensures !MatchesAt(Running, s, j)
  {
    Text.OccursAtHead(s, "Running", j);
  }

  /** A `Running N tests` banner right after `before` is a match whose group is the numeral. */
  lemma BannerAt(before: string, digits: string, after: string)
    requires digits != "" && Text.AllDigits(digits)
    ensures var s := before + "Running " + digits + " tests" + after;
      MatchesAt(Running, s, |before|) && Group(Running, s, |before|) == digits
  {
    var s := before + "Running " + digits + " tests" + after;
    var b := |before|;
    var k, e := b + 8, b + 8 + |digits|;
    assert s[b..b + 7] == "Running";
    assert s[b + 7] == ' ' && s[k] == digits[0];
    assert SoftwareVersion.SpaceRunEnd(s, b + 7) == k by {
      assert SoftwareVersion.SpaceRunEnd(s, k) == k;
    }
    assert s[e] == ' ';
    assert forall j | k <= j < e :: s[j] == digits[j - k];
    DigitRunEndIs(s, k, e);
    assert s[e..e + 6] == " tests";
    assert s[k..e] == digits;
  }

  const SnippetLength := 2000

  /** `text.slice(-2000)`: the last 2000 characters, or the whole of a shorter text. */
  function Snippet(text: string): (r: string)
    ensures |r| == if |text| < SnippetLength then |text| else SnippetLength
    ensures text == text[..|text| - |r|] + r
  {
    if |text| <= SnippetLength then text else text[|text| - SnippetLength..]
  }

  /** `exitCode: code`: the child's code, `null` when a signal ended it. */
  function CodeJson(code: Option<int>): Json {
    match code
    case Some(c) => JNumber(c)
    case None => JNull
  }

  /** The entry appended for one run. */
  function RunSummary(runAt: string, code: Option<int>, version: string, stdout: string, stderr: string): Json {
    var c := CountsOf(stdout);
    Object([("runAt", Str(runAt)), ("exitCode", Some(CodeJson(code))), ("total", Num(Total(stdout))),
            ("softwareVersion", Str(version)),
            ("counts", Some(Object([("passed", Num(c.passed)), ("failed", Num(c.failed)),
                                    ("skipped", Num(c.skipped)), ("timedOut", Num(c.timedOut))]))),
            ("stdoutSnippet", Str(Snippet(stdout))), ("stderrSnippet", Str(Snippet(stderr)))])
  }

  /** The summary is well keyed: its names are distinct and its values are strings, numbers,
      `null` and one object of counts. */
  lemma SummaryWellKeyed(runAt: string, code: Option<int>, version: string, stdout: string, stderr: string)
    ensures WellKeyed(RunSummary(runAt, code, version, stdout, stderr))
  {
    SummaryFieldsWellKeyed(runAt, CodeJson(code), Total(stdout), version, CountsOf(stdout), Snippet(stdout), Snippet(stderr));
  }

  lemma SummaryFieldsWellKeyed(runAt: string, code: Json, total: nat, version: string, c: Counts, out: string, err: string)
    requires !code.JArray? && !code.JObject?
    ensures WellKeyed(Object([("runAt", Str(runAt)), ("exitCode", Some(code)), ("total", Num(total)),
            ("softwareVersion", Str(version)),
            ("counts", Some(Object([("passed", Num(c.passed)), ("failed", Num(c.failed)),
                                    ("skipped", Num(c.skipped)), ("timedOut", Num(c.timedOut))]))),
            ("stdoutSnippet", Str(out)), ("stderrSnippet", Str(err))]))
  {
    var counts := [("passed", Num(c.passed)), ("failed", Num(c.failed)), ("skipped", Num(c.skipped)),
                   ("timedOut", Num(c.timedOut))];
    ObjectWellKeyed(counts);
    ObjectWellKeyed([("runAt", Str(runAt)), ("exitCode", Some(code)), ("total", Num(total)),
                     ("softwareVersion", Str(version)), ("counts", Some(Object(counts))),
                     ("stdoutSnippet", Str(out)), ("stderrSnippet", Str(err))]);
  }

  /** The wrapper's state while the child runs: the version it read at start-up and the output
      captured so far. */
  class Wrapper {
    const softwareVersion: string
    var stdout: string
    var stderr: string

    /** Start-up: the version file is read once, before the child is spawned. */
    constructor (versionFile: RunLog.FileRead)
      ensures softwareVersion == ReadVersion(versionFile)
      ensures stdout == "" && stderr == ""
    {
      var version := ReadVersion(versionFile);
      softwareVersion, stdout, stderr := version, "", "";
    }

    /** A chunk on the child's standard output is echoed and captured. */
    method OnStdout(chunk: string)
      modifies this
      ensures stdout == old(stdout) + chunk && stderr == old(stderr)
    {
      stdout := stdout + chunk;
    }

    /** A chunk on the child's standard error is echoed and captured. */
    method OnStderr(chunk: string)
      modifies this
      ensures stderr == old(stderr) + chunk && stdout == old(stdout)
    {
      stderr := stderr + chunk;
    }

    /** The `close` handler, given the child's exit code, the clock reading and what reading
        the run log gives. When creating the directory or writing the log throws
        (`writable` false) the uncaught exception ends the process with code 1 before
        `process.exit(code)`; otherwise the log gains the summary and the process exits with
        the child's code (`process.exit(null)` exits with 0). */
    method OnClose(code: Option<int>, runAt: string, log: RunLog.FileRead, writable: bool,
                   parse: string -> Option<Json>, stringify: Json -> string)
      returns (exit: int, after: RunLog.FileRead)
      ensures var entry := RunSummary(runAt, code, softwareVersion, stdout, stderr);
        after == if writable then RunLog.Written(log, entry, parse, stringify) else log
      ensures exit == if writable then code.GetOr(0) else 1
      ensures writable && RunLog.ReadsBack(parse, stringify) ==>
        RunLog.PriorRuns(after, parse) ==
        RunLog.PriorRuns(log, parse) + [RunSummary(runAt, code, softwareVersion, stdout, stderr)]
    {
      var entry := RunSummary(runAt, code, softwareVersion, stdout, stderr);
      if !writable {
        return 1, log;
      }
      after := RunLog.Written(log, entry, parse, stringify);
      assert RunLog.ReadsBack(parse, stringify) ==>
        RunLog.PriorRuns(after, parse) == RunLog.PriorRuns(log, parse) + [entry] by {
        if RunLog.ReadsBack(parse, stringify) {
          SummaryWellKeyed(runAt, code, softwareVersion, stdout, stderr);
          RunLog.WrittenReadsBack(log, entry, parse, stringify);
        }
      }
      exit := code.GetOr(0);
    }
  }
}
