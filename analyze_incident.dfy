/** The incident analyzer: reads an incident record, runs a fixed battery of heuristics over
    its error text and artifacts, buckets its network entries by HTTP status, assembles the
    prompt and, without a language-model key, ranks the heuristics as probable causes; the
    analysis is written next to the incident. */
module AnalyzeIncident {
  import opened Wrappers
  import opened Js
  import Text
  import Paths
  import JsNumber

  const DefaultIncidentsDir := "artifacts/incidents"

  /** `inc[k]` for a parsed incident that is neither `null` nor `undefined`. */
  function Field(inc: Json, k: string): Option<Json>
    requires !inc.JNull?
  {
    Get(Some(inc), k)
  }

  /** `(inc.error || '').toLowerCase()`; `None` where `toLowerCase` is not a method of the
      value (a truthy error that is not a string), so that the call throws. */
  function ErrorText(inc: Json): (r: Option<string>)
    requires !inc.JNull?
    ensures r.None? <==> Truthy(Field(inc, "error")) && !Field(inc, "error").value.JString?
    ensures !Truthy(Field(inc, "error")) ==> r == Some("")
    ensures Truthy(Field(inc, "error")) && Field(inc, "error").value.JString? ==>
      r == Some(Text.Lower(Field(inc, "error").value.s))
  {
    var e := Or(Field(inc, "error"), Str(""));
    match e.value
    case JString(s) => Some(Text.Lower(s))
    case _ => None
  }

  /** `/timeout|timed out|exceeded/`. */
  predicate TimeoutPattern(err: string) {
    Text.Contains(err, "timeout") || Text.Contains(err, "timed out") || Text.Contains(err, "exceeded")
  }

  /** `/cannot read property|typeerror/`. */
  predicate JsErrorPattern(err: string) {
    Text.Contains(err, "cannot read property") || Text.Contains(err, "typeerror")
  }

  /** `/ec|econnrefused|refused|enotfound|socket/`. */
  predicate NetworkPattern(err: string) {
    Text.Contains(err, "ec") || Text.Contains(err, "econnrefused") || Text.Contains(err, "refused")
      || Text.Contains(err, "enotfound") || Text.Contains(err, "socket")
  }

  /** The network alternative `ec` makes every error that mentions an expectation (as
      Playwright's assertion failures do, "expect(received)…") look like a network error. */
  lemma ExpectationLooksLikeNetwork(err: string)
    requires Text.Contains(err, "expect")
    ensures NetworkPattern(err)
  {
    var i :| 0 <= i <= |err| - 6 && Text.OccursAt(err, "expect", i);
    assert err[i..i + 6] == "expect";
    assert "expect"[3..5] == "ec";
    assert err[i + 3..i + 5] == err[i..i + 6][3..5];
    assert Text.OccursAt(err, "ec", i + 3);
    Text.ContainsAt(err, "ec", i + 3);
  }

  /** `inc.hars && inc.hars.length` is truthy. */
  predicate HasHars(inc: Json)
    requires !inc.JNull?
  {
    Truthy(GetIfTruthy(Field(inc, "hars"), "length"))
  }

  /** `inc[k] || []`: the member `k` when it is truthy, an empty array otherwise. */
  function ListOr(inc: Json, k: string): (r: Json)
    requires !inc.JNull?
    ensures Truthy(Some(r))
    ensures Truthy(Field(inc, k)) ==> Field(inc, k) == Some(r)
    ensures !Truthy(Field(inc, k)) ==> r == JArray([])
  {
    Or(Field(inc, k), Some(JArray([]))).value
  }

  /** `(inc[k] || []).length` is truthy. */
  predicate HasItems(inc: Json, k: string)
    requires !inc.JNull?
  {
    Truthy(Get(Some(ListOr(inc, k)), "length"))
  }

  /** `Number(v)`, as a relational operator converts its operand: an array through its
      text, an object to NaN. */
  function NumberValue(v: Json): JsNumber.Numeric {
    match v
    case JNull => JsNumber.Finite(0.0)
    case JBool(b) => JsNumber.Finite(if b then 1.0 else 0.0)
    case JNumber(n) => JsNumber.Finite(n as real)
    case JString(s) => JsNumber.StringToNumber(s)
    case JArray(items) => JsNumber.StringToNumber(ShowItems(items))
    case JObject(_) => JsNumber.NaN
  }

  /** `n && n.status && n.status >= k`. */
  predicate StatusAtLeast(n: Json, k: int) {
    Truthy(Some(n)) && Truthy(Get(Some(n), "status")) && JsNumber.AtLeast(NumberValue(Get(Some(n), "status").value), k)
  }

  datatype IssueKind = ServerError | ClientError

  datatype Issue = Issue(url: Option<Json>, status: Json, kind: IssueKind)

  function KindName(k: IssueKind): string {
    match k
    case ServerError => "server-error"
    case ClientError => "client-error"
  }

  /** The issue one network entry yields: a status of at least 500 is a server error, one in
      400..499 a client error, and anything else (missing, zero, lower, not a number) none. */
  function NetIssue(n: Json): (r: Option<Issue>)
    ensures (r.Some? && r.value.kind == ServerError) <==> StatusAtLeast(n, 500)
    ensures (r.Some? && r.value.kind == ClientError) <==> StatusAtLeast(n, 400) && !StatusAtLeast(n, 500)
    ensures r.Some? ==> StatusAtLeast(n, 400) && r.value.status == Get(Some(n), "status").value
    ensures r.Some? ==> r.value.url == Get(Some(n), "url")
  {
    if StatusAtLeast(n, 500) then Some(Issue(Get(Some(n), "url"), Get(Some(n), "status").value, ServerError))
    else if StatusAtLeast(n, 400) then Some(Issue(Get(Some(n), "url"), Get(Some(n), "status").value, ClientError))
    else None
  }

  /** An entry whose status is a non-empty string that JavaScript reads as at least 500 is a
      server error, however the number is written. */
  lemma StringStatusIssue(url: Json, status: string)
    requires status != "" && JsNumber.AtLeast(JsNumber.StringToNumber(status), 500)
    ensures var n := JObject([Member("url", url), Member("status", JString(status))]);
      NetIssue(n) == Some(Issue(Some(url), JString(status), ServerError))
  {
    var n := JObject([Member("url", url), Member("status", JString(status))]);
    UrlAndStatus(url, JString(status));
    assert Truthy(Get(Some(n), "status"));
    assert StatusAtLeast(n, 500);
  }

  lemma UrlAndStatus(url: Json, status: Json)
    ensures var ms := [Member("url", url), Member("status", status)];
      Lookup(ms, "url") == Some(url) && Lookup(ms, "status") == Some(status)
  {
    var ms := [Member("url", url), Member("status", status)];
    assert ms[..1] == [ms[0]] && "status"[0] != "url"[0];
  }

  /** A status of `"5e2"` is a server error. */
  lemma ExponentStatusIssue(url: Json)
    ensures NetIssue(JObject([Member("url", url), Member("status", JString("5e2"))]))
      == Some(Issue(Some(url), JString("5e2"), ServerError))
  {
    JsNumber.ExponentSpelling();
    StringStatusIssue(url, "5e2");
  }

  /** The issues of `entries`, in order, at most one per entry. */
  function NetIssues(entries: seq<Json>): (r: seq<Issue>)
    ensures |r| <= |entries|
  {
    if entries == [] then []
    else
      var last := NetIssue(entries[|entries| - 1]);
      NetIssues(entries[..|entries| - 1]) + (if last.Some? then [last.value] else [])
  }

  /** The loop over `inc.network`, pushing from two separate tests per entry. */
  method CollectNetIssues(entries: seq<Json>) returns (issues: seq<Issue>)
    ensures issues == NetIssues(entries)
  {
    issues := [];
    var i := 0;
    while i < |entries|
      invariant 0 <= i <= |entries|
      invariant issues == NetIssues(entries[..i])
    {
      var n := entries[i];
      assert entries[..i + 1][..i] == entries[..i];
      if StatusAtLeast(n, 500) {
        issues := issues + [Issue(Get(Some(n), "url"), Get(Some(n), "status").value, ServerError)];
      }
      if StatusAtLeast(n, 400) && JsNumber.Below(NumberValue(Get(Some(n), "status").value), 500) {
        issues := issues + [Issue(Get(Some(n), "url"), Get(Some(n), "status").value, ClientError)];
      }
      i := i + 1;
    }
    assert entries[..i] == entries;
  }

  const TimeoutHint := "Timeout probable (locator, network or slow load)."
  const JsErrorHint := "JavaScript error (null/undefined access)."
  const NetworkHint := "Network / infra error (connection refused or DNS)."
  const HarHint := "Network HAR present — check HTTP status codes and failed requests."
  const ScreenshotHint := "Screenshot(s) available — visual diff may help."
  const TraceHint := "Trace(s) available — use Playwright trace viewer to inspect."

  const CountHintStart := "Detected "
  const CountHintEnd := " network errors (4xx/5xx)."

  /** The count heuristic: the number of issues in decimal digits, between fixed words. */
  function CountHint(n: nat): (r: string)
    ensures |r| > |CountHintStart| + |CountHintEnd|
    ensures var d := r[|CountHintStart|..|r| - |CountHintEnd|];
      r == CountHintStart + d + CountHintEnd && Text.AllDigits(d) && Text.DigitsValue(d) == n
  {
    var d := Text.NatToString(n);
    var r := CountHintStart + d + CountHintEnd;
    assert r[|CountHintStart|..|r| - |CountHintEnd|] == d;
    r
  }

  /** The seven heuristics, in the order they are tried. */
  function Hints(issueCount: nat): seq<string> {
    [TimeoutHint, JsErrorHint, NetworkHint, HarHint, ScreenshotHint, TraceHint, CountHint(issueCount)]
  }

  /** Whether each heuristic fires. */
  function Fires(inc: Json, err: string, issues: seq<Issue>): seq<bool>
    requires !inc.JNull?
  {
    [TimeoutPattern(err), JsErrorPattern(err), NetworkPattern(err), HasHars(inc),
     HasItems(inc, "screenshots"), HasItems(inc, "traces"), IsArray(Field(inc, "network")) && issues != []]
  }

  /** The messages whose flag is set, in order. */
  function Pick(flags: seq<bool>, msgs: seq<string>): (r: seq<string>)
    requires |flags| == |msgs|
    ensures |r| <= |msgs|
  {
    if flags == [] then []
    else Pick(flags[..|flags| - 1], msgs[..|msgs| - 1]) + (if flags[|flags| - 1] then [msgs[|msgs| - 1]] else [])
  }

  predicate Distinct<T(==)>(s: seq<T>) {
    forall i, j | 0 <= i < j < |s| :: s[i] != s[j]
  }

  lemma {:induction false} PickMembers(flags: seq<bool>, msgs: seq<string>, m: string)
    requires |flags| == |msgs|
    ensures m in Pick(flags, msgs) <==> exists i | 0 <= i < |msgs| :: flags[i] && msgs[i] == m
  {
    if flags != [] {
      var n := |flags| - 1;
      PickMembers(flags[..n], msgs[..n], m);
      if m in Pick(flags, msgs) && m !in Pick(flags[..n], msgs[..n]) {
        assert flags[n] && msgs[n] == m;
      }
      if exists i | 0 <= i < |msgs| :: flags[i] && msgs[i] == m {
        var i :| 0 <= i < |msgs| && flags[i] && msgs[i] == m;
        if i < n {
          assert flags[..n][i] && msgs[..n][i] == m;
        }
      }
    }
  }

  /** Among distinct messages, a message is picked exactly when its flag is set. */
  lemma PickedExactly(flags: seq<bool>, msgs: seq<string>)
    requires |flags| == |msgs| && Distinct(msgs)
    ensures forall k | 0 <= k < |msgs| :: msgs[k] in Pick(flags, msgs) <==> flags[k]
  {
    forall k | 0 <= k < |msgs|
      ensures msgs[k] in Pick(flags, msgs) <==> flags[k]
    {
      PickMembers(flags, msgs, msgs[k]);
    }
  }

  lemma {:induction false} PickDistinct(flags: seq<bool>, msgs: seq<string>)
    requires |flags| == |msgs| && Distinct(msgs)
    ensures Distinct(Pick(flags, msgs))
  {
    if flags != [] {
      var n := |flags| - 1;
      PickDistinct(flags[..n], msgs[..n]);
      if flags[n] {
        PickMembers(flags[..n], msgs[..n], msgs[n]);
      }
    }
  }

  lemma HintsDistinct(issueCount: nat)
    ensures Distinct(Hints(issueCount))
  {
    var h := Hints(issueCount);
    assert forall i | 0 <= i < 6 :: |h[i]| >= 3 && h[i][|h[i]| - 3] != 'x';
    assert TimeoutHint != JsErrorHint && TimeoutHint != NetworkHint && TimeoutHint != HarHint;
    assert TimeoutHint != ScreenshotHint && TimeoutHint != TraceHint;
    assert JsErrorHint != NetworkHint && JsErrorHint != HarHint && JsErrorHint != ScreenshotHint && JsErrorHint != TraceHint;
    assert NetworkHint != HarHint && NetworkHint != ScreenshotHint && NetworkHint != TraceHint;
    assert HarHint != ScreenshotHint && HarHint != TraceHint && ScreenshotHint != TraceHint;
  }

  /** `heuristics` as the analysis builds it. */
  function Heuristics(inc: Json, err: string, issues: seq<Issue>): seq<string>
    requires !inc.JNull?
  {
    Pick(Fires(inc, err, issues), Hints(|issues|))
  }

  /** The heuristics keep their fixed order, none appears twice, and each appears exactly
      when its test fires; the count heuristic states the number of issues. */
  lemma HeuristicsMeaning(inc: Json, err: string, issues: seq<Issue>)
    requires !inc.JNull?
    ensures var h := Heuristics(inc, err, issues);
      && Distinct(h)
      && (TimeoutHint in h <==> TimeoutPattern(err))
      && (JsErrorHint in h <==> JsErrorPattern(err))
      && (NetworkHint in h <==> NetworkPattern(err))
      && (HarHint in h <==> HasHars(inc))
      && (ScreenshotHint in h <==> HasItems(inc, "screenshots"))
      && (TraceHint in h <==> HasItems(inc, "traces"))
      && (CountHint(|issues|) in h <==> IsArray(Field(inc, "network")) && issues != [])
  {
    var flags, msgs := Fires(inc, err, issues), Hints(|issues|);
    HintsDistinct(|issues|);
    PickDistinct(flags, msgs);
    PickedExactly(flags, msgs);
    assert msgs[0] == TimeoutHint && msgs[1] == JsErrorHint && msgs[2] == NetworkHint;
    assert msgs[3] == HarHint && msgs[4] == ScreenshotHint && msgs[5] == TraceHint;
    assert msgs[6] == CountHint(|issues|);
  }

  /** The summary of an incident. */
  datatype Summary = Summary(testId: Json, title: Json, file: Json, heuristics: seq<string>,
                             networkIssues: seq<Issue>, screenshots: Json, videos: Json,
                             traces: Json, hars: Json, html: Json)

  /** `v` is what `inc[k] || fallback` yields: the member `k` when it is truthy, `fallback` otherwise. */
  predicate Fallback(inc: Json, k: string, v: Json, fallback: Json)
    requires !inc.JNull?
  {
    v == if Truthy(Field(inc, k)) then Field(inc, k).value else fallback
  }

  /** `inc[k] || null`: the member `k` when it is truthy, `null` otherwise. */
  function OrNull(inc: Json, k: string): (r: Json)
    requires !inc.JNull?
    ensures Truthy(Field(inc, k)) ==> Field(inc, k) == Some(r)
    ensures !Truthy(Field(inc, k)) ==> r == JNull
    ensures r.JNull? || Truthy(Some(r))
  {
    Or(Field(inc, k), Some(JNull)).value
  }

  /** The summary object: the incident's truthy `testId`, `title` and `file` or `null`, the
      heuristics and issues as computed, and its truthy artifact lists or `[]`. */
  function SummaryOf(inc: Json, heuristics: seq<string>, issues: seq<Issue>): (s: Summary)
    requires !inc.JNull?
    ensures s.heuristics == heuristics && s.networkIssues == issues
    ensures Fallback(inc, "testId", s.testId, JNull) && Fallback(inc, "title", s.title, JNull)
    ensures Fallback(inc, "file", s.file, JNull)
    ensures Fallback(inc, "screenshots", s.screenshots, JArray([])) && Fallback(inc, "videos", s.videos, JArray([]))
    ensures Fallback(inc, "traces", s.traces, JArray([])) && Fallback(inc, "hars", s.hars, JArray([]))
    ensures Fallback(inc, "html", s.html, JArray([]))
    ensures Truthy(Some(s.screenshots)) && Truthy(Some(s.traces))
  {
    Summary(OrNull(inc, "testId"), OrNull(inc, "title"), OrNull(inc, "file"), heuristics, issues,
            ListOr(inc, "screenshots"), ListOr(inc, "videos"), ListOr(inc, "traces"),
            ListOr(inc, "hars"), ListOr(inc, "html"))
  }

  /** `[m]` when `b` holds, nothing otherwise: one conditional push. */
  function When(b: bool, m: string): (r: seq<string>)
    ensures b ==> r == [m]
    ensures !b ==> r == []
  {
    if b then [m] else []
  }

  function Min(a: int, b: int): int {
    if a <= b then a else b
  }

  /** `${n.status} ${n.url}`. */
  function IssueText(i: Issue): string {
    ShowValue(i.status) + " " + Show(i.url)
  }

  /** The issues the prompt lists: the first five at most. */
  function ListedIssues(issues: seq<Issue>): (r: seq<string>)
    ensures |r| == Min(5, |issues|) && |r| <= 5
    ensures forall i | 0 <= i < |r| :: r[i] == IssueText(issues[i])
  {
    seq(Min(5, |issues|), i requires 0 <= i < Min(5, |issues|) => IssueText(issues[i]))
  }

  const Question := "Question: Donne 3 causes probables, une estimation de confiance pour chaque cause (low/medium/high), et 2 actions concrètes pour investiguer ou corriger."

  function ContextLine(s: Summary): string {
    "Contexte: test \"" + ShowValue(s.title) + "\" (" + ShowValue(s.testId) + ") dans " + ShowValue(s.file) + "."
  }

  function HeuristicsLine(h: seq<string>): string {
    "Heuristiques detectées: " + Text.JoinWith(h, " | ")
  }

  function ErrorLine(inc: Json): string
    requires !inc.JNull?
  {
    "Erreur: " + Show(Field(inc, "error"))
  }

  function NetworkLine(issues: seq<Issue>): string {
    "Network issues: " + Text.JoinWith(ListedIssues(issues), "; ")
  }

  function ArtifactLine(count: Option<Json>): string {
    "Artifacts: " + Show(count) + " screenshot(s)."
  }

  function TraceLine(count: Option<Json>): string {
    "Traces: " + Show(count) + " trace(s)."
  }

  /** The lines of the prompt: the context, then each optional line whose condition holds,
      then the heuristics and the question. */
  function PromptLines(inc: Json, s: Summary): seq<string>
    requires !inc.JNull?
    requires Truthy(Some(s.screenshots)) && Truthy(Some(s.traces))
  {
    var shots := Get(Some(s.screenshots), "length");
    var traces := Get(Some(s.traces), "length");
    [ContextLine(s)]
      + When(Truthy(Field(inc, "error")), ErrorLine(inc))
      + When(s.networkIssues != [], NetworkLine(s.networkIssues))
      + When(Truthy(shots), ArtifactLine(shots))
      + When(Truthy(traces), TraceLine(traces))
      + [HeuristicsLine(s.heuristics), Question]
  }

  /** The prompt opens with the context, always carries the heuristics line and closes with
      the question; it has at most four lines in between, the network line among them
      exactly when there are issues. */
  lemma PromptShape(inc: Json, s: Summary)
    requires !inc.JNull?
    requires Truthy(Some(s.screenshots)) && Truthy(Some(s.traces))
    ensures var lines := PromptLines(inc, s);
      && 3 <= |lines| <= 7
      && lines[0] == ContextLine(s)
      && lines[|lines| - 2] == HeuristicsLine(s.heuristics)
      && lines[|lines| - 1] == Question
      && (s.networkIssues != [] ==> NetworkLine(s.networkIssues) in lines)
  {
    var shots := Get(Some(s.screenshots), "length");
    var lines := PromptLines(inc, s);
    var a := [ContextLine(s)] + When(Truthy(Field(inc, "error")), ErrorLine(inc));
    if s.networkIssues != [] {
      assert lines[|a|] == NetworkLine(s.networkIssues);
    }
  }

  /** The prompt as the assembling code pushes it. */
  method BuildPromptLines(inc: Json, s: Summary) returns (lines: seq<string>)
    requires !inc.JNull?
    requires Truthy(Some(s.screenshots)) && Truthy(Some(s.traces))
    ensures lines == PromptLines(inc, s)
  {
    var shots := Get(Some(s.screenshots), "length");
    var traces := Get(Some(s.traces), "length");
    lines := [ContextLine(s)];
    lines := PushIf(lines, Truthy(Field(inc, "error")), ErrorLine(inc));
    lines := PushIf(lines, |s.networkIssues| != 0, NetworkLine(s.networkIssues));
    lines := PushIf(lines, Truthy(shots), ArtifactLine(shots));
    lines := PushIf(lines, Truthy(traces), TraceLine(traces));
    ghost var optional := lines;
    lines := lines + [HeuristicsLine(s.heuristics)];
    lines := lines + [Question];
    assert lines == optional + [HeuristicsLine(s.heuristics), Question];
  }

  /** `if (c) lines.push(m)`. */
  method PushIf(lines: seq<string>, c: bool, m: string) returns (r: seq<string>)
    ensures r == lines + When(c, m)
  {
    r := lines;
    if c {
      r := r + [m];
    }
  }

  datatype Confidence = Low | Medium | High

  datatype Cause = Cause(cause: string, confidence: Confidence, actions: seq<string>)

  const ManualActions := ["Inspect logs and artifacts manually"]
  const FollowUpActions := ["Open related screenshot/trace", "Check corresponding network request/status"]

  /** The heuristic-only causes. */
  function Causes(h: seq<string>): seq<Cause> {
    if h == [] then [Cause("Unknown", Low, ManualActions)]
    else seq(Min(3, |h|), i requires 0 <= i < Min(3, |h|) => Cause(h[i], if i == 0 then High else Medium, FollowUpActions))
  }

  /** The ranking loop: with no heuristic a single unknown cause of low confidence; otherwise
      the first three heuristics at most, in order, the first with high confidence and the
      others with medium. */
  method RankCauses(h: seq<string>) returns (causes: seq<Cause>)
    ensures causes == Causes(h)
    ensures h == [] ==> causes == [Cause("Unknown", Low, ManualActions)]
    ensures h != [] ==> |causes| == Min(3, |h|)
    ensures h != [] ==> forall i | 0 <= i < |causes| ::
      causes[i].cause == h[i] && causes[i].actions == FollowUpActions
      && causes[i].confidence == (if i == 0 then High else Medium)
  {
    causes := [];
    if |h| == 0 {
      causes := causes + [Cause("Unknown", Low, ManualActions)];
      return;
    }
    var i := 0;
    while i < Min(3, |h|)
      invariant 0 <= i <= Min(3, |h|)
      invariant |causes| == i
      invariant forall k | 0 <= k < i ::
        causes[k] == Cause(h[k], if k == 0 then High else Medium, FollowUpActions)
    {
      causes := causes + [Cause(h[i], if i == 0 then High else Medium, FollowUpActions)];
      i := i + 1;
    }
  }

  /** What `analysis.llm` holds: the heuristic-only causes, or what the remote call gave. */
  datatype Llm = Offline(causes: seq<Cause>) | Remote(data: Json)

  datatype Analysis = Analysis(incidentFile: string, summary: Summary, prompt: string, llm: Llm, createdAt: string)

  /** The network issues of an incident: none unless `inc.network` is an array. */
  function IssuesOf(inc: Json): seq<Issue>
    requires !inc.JNull?
  {
    if IsArray(Field(inc, "network")) then NetIssues(Field(inc, "network").value.items) else []
  }

  /** The analysis of a parsed incident whose lower-cased error text is `err`. `ask`, when a
      key is configured, is the remote call: the response it parses, or the `{ error }`
      object its failure is caught into. */
  function AnalysisOfIncident(file: string, inc: Json, err: string, ask: Option<string -> Json>,
                              createdAt: string): Analysis
    requires !inc.JNull?
  {
    var issues := IssuesOf(inc);
    var summary := SummaryOf(inc, Heuristics(inc, err, issues), issues);
    var prompt := Text.JoinWith(PromptLines(inc, summary), "\n");
    var llm := match ask case Some(f) => Remote(f(prompt)) case None => Offline(Causes(summary.heuristics));
    Analysis(file, summary, prompt, llm, createdAt)
  }

  /** The analysis of the incident file `file` whose text is `raw`; `None` where the analysis
      throws (the text does not parse, parses to `null`, or its error has no `toLowerCase`). */
  function AnalysisOf(file: string, raw: string, parse: string -> Option<Json>, ask: Option<string -> Json>,
                      createdAt: string): Option<Analysis> {
    match parse(raw)
    case None => None
    case Some(inc) =>
      if inc.JNull? then None
      else
        match ErrorText(inc)
        case None => None
        case Some(err) => Some(AnalysisOfIncident(file, inc, err, ask, createdAt))
  }

  /** `analyzeSingle`, up to the write. */
  method AnalyzeSingle(file: string, raw: string, parse: string -> Option<Json>, ask: Option<string -> Json>,
                       createdAt: string) returns (analysis: Option<Analysis>)
    ensures analysis == AnalysisOf(file, raw, parse, ask, createdAt)
  {
    var parsed := parse(raw);
    if parsed.None? || parsed.value.JNull? {
      return None;
    }
    var inc := parsed.value;
    var e := ErrorText(inc);
    if e.None? {
      return None;
    }
    var a := AnalyzeRecord(file, inc, e.value, ask, createdAt);
    return Some(a);
  }

  /** The analysis of a parsed incident: heuristics, summary, prompt and `llm`. */
  method AnalyzeRecord(file: string, inc: Json, err: string, ask: Option<string -> Json>, createdAt: string)
      returns (analysis: Analysis)
    requires !inc.JNull?
    ensures analysis == AnalysisOfIncident(file, inc, err, ask, createdAt)
  {
    var heuristics, issues := BuildHeuristics(inc, err);
    var summary := SummaryOf(inc, heuristics, issues);
    var lines := BuildPromptLines(inc, summary);
    var prompt := Text.JoinWith(lines, "\n");
    var llm: Llm;
    if ask.Some? {
      llm := Remote(ask.value(prompt));
    } else {
      var causes := RankCauses(heuristics);
      llm := Offline(causes);
    }
    analysis := Analysis(file, summary, prompt, llm, createdAt);
  }

  /** The heuristics pushed one after the other, with the network loop before the last. */
  method BuildHeuristics(inc: Json, err: string) returns (heuristics: seq<string>, issues: seq<Issue>)
    requires !inc.JNull?
    ensures issues == IssuesOf(inc)
    ensures heuristics == Heuristics(inc, err, issues)
  {
    heuristics := PushErrorHeuristics(err);
    heuristics := PushArtifactHeuristics(inc, heuristics);
    ghost var before := heuristics;
    issues := [];
    if IsArray(Field(inc, "network")) {
      issues := CollectNetIssues(Field(inc, "network").value.items);
      if |issues| != 0 {
        heuristics := heuristics + [CountHint(|issues|)];
      }
    }
    assert heuristics == before + When(IsArray(Field(inc, "network")) && issues != [], CountHint(|issues|));
    HeuristicsUnrolled(inc, err, issues);
  }

  /** The three pushes decided by the error text. */
  method PushErrorHeuristics(err: string) returns (heuristics: seq<string>)
    ensures heuristics == When(TimeoutPattern(err), TimeoutHint) + When(JsErrorPattern(err), JsErrorHint)
      + When(NetworkPattern(err), NetworkHint)
  {
    heuristics := PushIf([], TimeoutPattern(err), TimeoutHint);
    assert heuristics == When(TimeoutPattern(err), TimeoutHint);
    heuristics := PushIf(heuristics, JsErrorPattern(err), JsErrorHint);
    heuristics := PushIf(heuristics, NetworkPattern(err), NetworkHint);
  }

  /** The three pushes decided by the attached artifacts. */
  method PushArtifactHeuristics(inc: Json, start: seq<string>) returns (heuristics: seq<string>)
    requires !inc.JNull?
    ensures heuristics == start + When(HasHars(inc), HarHint) + When(HasItems(inc, "screenshots"), ScreenshotHint)
      + When(HasItems(inc, "traces"), TraceHint)
  {
    heuristics := PushIf(start, HasHars(inc), HarHint);
    heuristics := PushIf(heuristics, HasItems(inc, "screenshots"), ScreenshotHint);
    heuristics := PushIf(heuristics, HasItems(inc, "traces"), TraceHint);
  }

  /** `Heuristics` as seven pushes in a row. */
  lemma HeuristicsUnrolled(inc: Json, err: string, issues: seq<Issue>)
    requires !inc.JNull?
    ensures Heuristics(inc, err, issues)
      == When(TimeoutPattern(err), TimeoutHint) + When(JsErrorPattern(err), JsErrorHint)
         + When(NetworkPattern(err), NetworkHint) + When(HasHars(inc), HarHint)
         + When(HasItems(inc, "screenshots"), ScreenshotHint) + When(HasItems(inc, "traces"), TraceHint)
         + When(IsArray(Field(inc, "network")) && issues != [], CountHint(|issues|))
  {
    PickSeven(Fires(inc, err, issues), Hints(|issues|));
  }

  lemma PickSeven(f: seq<bool>, m: seq<string>)
    requires |f| == 7 && |m| == 7
    ensures Pick(f, m) == When(f[0], m[0]) + When(f[1], m[1]) + When(f[2], m[2]) + When(f[3], m[3])
      + When(f[4], m[4]) + When(f[5], m[5]) + When(f[6], m[6])
  {
    PickUpToIsPick(f, m, 7);
    assert f[..7] == f && m[..7] == m;
    assert PickUpTo(f, m, 1) == When(f[0], m[0]);
    assert PickUpTo(f, m, 2) == When(f[0], m[0]) + When(f[1], m[1]);
    assert PickUpTo(f, m, 3) == When(f[0], m[0]) + When(f[1], m[1]) + When(f[2], m[2]);
    assert PickUpTo(f, m, 4) == When(f[0], m[0]) + When(f[1], m[1]) + When(f[2], m[2]) + When(f[3], m[3]);
    assert PickUpTo(f, m, 5) == When(f[0], m[0]) + When(f[1], m[1]) + When(f[2], m[2]) + When(f[3], m[3])
        + When(f[4], m[4]);
    assert PickUpTo(f, m, 6) == When(f[0], m[0]) + When(f[1], m[1]) + When(f[2], m[2]) + When(f[3], m[3])
        + When(f[4], m[4]) + When(f[5], m[5]);
    assert PickUpTo(f, m, 7) == When(f[0], m[0]) + When(f[1], m[1]) + When(f[2], m[2]) + When(f[3], m[3])
        + When(f[4], m[4]) + When(f[5], m[5]) + When(f[6], m[6]);
  }

  /** The messages picked among the first `k`. */
  function PickUpTo(f: seq<bool>, m: seq<string>, k: nat): seq<string>
    requires |f| == |m| && k <= |f|
  {
    if k == 0 then [] else PickUpTo(f, m, k - 1) + When(f[k - 1], m[k - 1])
  }

  lemma {:induction false} PickUpToIsPick(f: seq<bool>, m: seq<string>, k: nat)
    requires |f| == |m| && k <= |f|
    ensures Pick(f[..k], m[..k]) == PickUpTo(f, m, k)
  {
    if k == 0 {
      assert f[..0] == [] && m[..0] == [];
    } else {
      PickPrefix(f, m, k - 1);
      PickUpToIsPick(f, m, k - 1);
    }
  }

  lemma PickPrefix(f: seq<bool>, m: seq<string>, k: nat)
    requires |f| == |m| && k < |f|
    ensures Pick(f[..k + 1], m[..k + 1]) == Pick(f[..k], m[..k]) + When(f[k], m[k])
  {
    assert f[..k + 1][..k] == f[..k] && m[..k + 1][..k] == m[..k];
  }

  /** `path.basename(f).replace(/\.json$/i, '') + '.analysis.json'`. */
  function AnalysisName(name: string): (r: string)
    ensures Text.EndsWith(r, ".analysis.json")
  {
    var stem := if Text.EndsWithIgnoringCase(name, ".json") then name[..|name| - 5] else name;
    stem + ".analysis.json"
  }

  /** Where the analysis of `file` is written: `path.join(outDir, outName)`, where `outDir`
      is `path.join(path.dirname(file))`, the normalised directory of the incident. */
  function OutputPath(file: string): string {
    Paths.Join(Paths.Normalize(Paths.Dirname(file)), AnalysisName(Paths.Basename(file)))
  }

  /** The analysis lands in the incident's directory under the derived name, and never
      overwrites the incident it was made from. */
  lemma OutputBesideInput(file: string)
    ensures Paths.Basename(OutputPath(file)) == AnalysisName(Paths.Basename(file))
    ensures Paths.Segments(Paths.Dirname(OutputPath(file))) == Paths.Segments(Paths.Dirname(file))
    ensures OutputPath(file) != file
  {
    var b := Paths.Basename(file);
    var n := AnalysisName(b);
    var d := Paths.Normalize(Paths.Dirname(file));
    assert Paths.IsEntryName(n) by {
      assert n[|n| - 14..] == ".analysis.json";
      assert '/' !in n by {
        var stem := if Text.EndsWithIgnoringCase(b, ".json") then b[..|b| - 5] else b;
        assert n == stem + ".analysis.json";
        assert forall c | c in stem :: c in b;
      }
    }
    Paths.BasenameOfJoin(d, n);
    Paths.DirnameOfJoin(d, n);
    Paths.NormalizeKeepsSegments(Paths.Dirname(file));
    assert |n| > |b|;
  }

  /** `f.match(/incident.*\.json$/i)` finds a match. */
  predicate IsIncidentName(f: string) {
    Text.EndsWithIgnoringCase(f, ".json")
      && exists i | 0 <= i <= |f| - 13 :: Text.OccursAtIgnoringCase(f, "incident", i) && NoLineBreak(f, i + 8, |f| - 5)
  }

  /** The characters `.*` spans between `i` and `j` are not line terminators. */
  predicate NoLineBreak(f: string, i: int, j: int)
    requires 0 <= i <= j <= |f|
  {
    forall k | i <= k < j :: !Text.IsLineTerminator(f[k])
  }

  /** The analyses written in directory mode match the incident-name filter themselves, so a
      later run in that mode analyses them again. */
  lemma AnalysesMatchFilter(name: string)
    requires IsIncidentName(name)
    ensures IsIncidentName(AnalysisName(name))
  {
    var i :| 0 <= i <= |name| - 13 && Text.OccursAtIgnoringCase(name, "incident", i) && NoLineBreak(name, i + 8, |name| - 5);
    var stem := name[..|name| - 5];
    assert AnalysisName(name) == stem + ".analysis.json";
    assert stem[i..i + 8] == name[i..i + 8];
    assert NoLineBreak(stem, i + 8, |stem|) by {
      assert forall k | i + 8 <= k < |stem| :: stem[k] == name[k];
    }
    RenamedStemMatches(stem, i);
  }

  /** A stem that holds "incident" with no line break after it still matches once
      ".analysis.json" is appended. */
  lemma RenamedStemMatches(stem: string, i: nat)
    requires i + 8 <= |stem| && Text.OccursAtIgnoringCase(stem, "incident", i) && NoLineBreak(stem, i + 8, |stem|)
    ensures IsIncidentName(stem + ".analysis.json")
  {
    var a := stem + ".analysis.json";
    assert a[i..i + 8] == stem[i..i + 8];
    assert Text.OccursAtIgnoringCase(a, "incident", i);
    JsonEnding(a);
    forall k | i + 8 <= k < |a| - 5
      ensures !Text.IsLineTerminator(a[k])
    {
      if k >= |stem| {
        assert a[k] == ".analysis"[k - |stem|];
      }
    }
    assert NoLineBreak(a, i + 8, |a| - 5);
  }

  lemma JsonEnding(a: string)
    requires Text.EndsWith(a, ".json")
    ensures Text.EndsWithIgnoringCase(a, ".json")
  {
    Text.LowerSlice(a, |a| - 5, |a|);
    assert Text.Lower(".json") == ".json";
  }

  /** The names of `entries` the directory filter keeps, in order. */
  function Matching(entries: seq<string>): (r: seq<string>)
    ensures forall f | f in r :: f in entries && IsIncidentName(f)
    ensures forall f | f in entries && IsIncidentName(f) :: f in r
  {
    if entries == [] then []
    else
      var last := entries[|entries| - 1];
      Matching(entries[..|entries| - 1]) + (if IsIncidentName(last) then [last] else [])
  }

  /** The two options the command line sets. */
  datatype Options = Options(incident: Option<string>, dir: string)

  /** One turn of the option loop at `i` holding `o`: `--incident` followed by a non-empty
      argument takes it and moves onto it; then, at the position reached, `--incidents-dir`
      followed by a non-empty argument does the same; then the loop steps on. A value the first
      test took can so be read as the second flag. The result is where the next turn starts
      and the options it holds. */
  function OptionStep(argv: seq<string>, i: nat, o: Options): (r: (nat, Options))
    requires i < |argv|
    ensures i < r.0 <= |argv|
  {
    var takeIncident := argv[i] == "--incident" && i + 1 < |argv| && argv[i + 1] != "";
    var j := if takeIncident then i + 1 else i;
    var o1 := if takeIncident then o.(incident := Some(argv[i + 1])) else o;
    var takeDir := argv[j] == "--incidents-dir" && j + 1 < |argv| && argv[j + 1] != "";
    (if takeDir then j + 2 else j + 1, if takeDir then o1.(dir := argv[j + 1]) else o1)
  }

  /** What the option loop ends with when it resumes at `i` holding `o`. */
  function Scan(argv: seq<string>, i: nat, o: Options): Options
    decreases |argv| - i
  {
    if i >= |argv| then o
    else
      var (next, o') := OptionStep(argv, i, o);
      Scan(argv, next, o')
  }

  /** Each option keeps its value or ends with the non-empty argument after one of its flags. */
  lemma {:induction false} ScanTakesFlagValues(argv: seq<string>, i: nat, o: Options)
    ensures var r := Scan(argv, i, o);
      r.incident == o.incident || (r.incident.Some? && r.incident.value != "" &&
        exists j | i <= j < |argv| - 1 :: argv[j] == "--incident" && argv[j + 1] == r.incident.value)
    ensures var r := Scan(argv, i, o);
      r.dir == o.dir || (r.dir != "" && exists j | i <= j < |argv| - 1 :: argv[j] == "--incidents-dir" && argv[j + 1] == r.dir)
    decreases |argv| - i
  {
    if i < |argv| {
      var (next, o') := OptionStep(argv, i, o);
      ScanTakesFlagValues(argv, next, o');
    }
  }

  /** Arguments added after ones that do not end in a bare flag do not change a turn taken
      before them. */
  lemma OptionStepExtends(argv: seq<string>, extra: seq<string>, i: nat, o: Options)
    requires i < |argv| && NoBareFlagAtEnd(argv)
    ensures OptionStep(argv + extra, i, o) == OptionStep(argv, i, o)
  {
    var args := argv + extra;
    assert args[i] == argv[i];
    assert i + 1 < |argv| ==> args[i + 1] == argv[i + 1];
    assert i + 2 < |argv| ==> args[i + 2] == argv[i + 2];
  }

  /** Neither flag is the last argument. */
  predicate NoBareFlagAtEnd(argv: seq<string>) {
    argv == [] || (argv[|argv| - 1] != "--incident" && argv[|argv| - 1] != "--incidents-dir")
  }

  /** The last flag wins: `flag v` added after arguments that do not end in a bare flag sets
      that option to `v` and leaves the other as the arguments before it left it. */
  lemma {:induction false} LastFlagWins(argv: seq<string>, i: nat, o: Options, flag: string, v: string)
    requires i <= |argv| && v != "" && NoBareFlagAtEnd(argv)
    requires flag == "--incident" || flag == "--incidents-dir"
    ensures flag == "--incident" ==> Scan(argv + [flag, v], i, o) == Scan(argv, i, o).(incident := Some(v))
    ensures flag == "--incidents-dir" ==> Scan(argv + [flag, v], i, o) == Scan(argv, i, o).(dir := v)
    decreases |argv| - i
  {
    var args := argv + [flag, v];
    if i < |argv| {
      OptionStepExtends(argv, [flag, v], i, o);
      var (next, o') := OptionStep(argv, i, o);
      LastFlagWins(argv, next, o', flag, v);
    } else {
      assert args[i] == flag && args[i + 1] == v;
    }
  }

  /** The value taken for `--incident` is read again as the `--incidents-dir` flag. */
  lemma ValueReadAsFlag()
    ensures Scan(["--incident", "--incidents-dir", "x"], 0, Options(None, DefaultIncidentsDir))
         == Options(Some("--incidents-dir"), "x")
  {
  }

  /** The command line: `--incident <path>` and `--incidents-dir <dir>`, as the loop reads
      them. */
  method ParseArguments(argv: seq<string>) returns (incident: Option<string>, dir: string)
    ensures Options(incident, dir) == Scan(argv, 0, Options(None, DefaultIncidentsDir))
    ensures incident.Some? ==> incident.value != ""
    ensures incident.Some? ==> exists i | 0 <= i < |argv| - 1 :: argv[i] == "--incident" && argv[i + 1] == incident.value
    ensures dir == DefaultIncidentsDir || (dir != "" &&
      exists i | 0 <= i < |argv| - 1 :: argv[i] == "--incidents-dir" && argv[i + 1] == dir)
    ensures |argv| == 2 && argv[0] == "--incident" && argv[1] != "" ==> incident == Some(argv[1]) && dir == DefaultIncidentsDir
    ensures |argv| == 2 && argv[0] == "--incidents-dir" && argv[1] != "" ==> incident.None? && dir == argv[1]
  {
    incident := None;
    dir := DefaultIncidentsDir;
    var i := 0;
    while i < |argv|
      invariant 0 <= i <= |argv|
      invariant Scan(argv, i, Options(incident, dir)) == Scan(argv, 0, Options(None, DefaultIncidentsDir))
    {
      if argv[i] == "--incident" && i + 1 < |argv| && argv[i + 1] != "" {
        incident := Some(argv[i + 1]);
        i := i + 1;
      }
      if argv[i] == "--incidents-dir" && i + 1 < |argv| && argv[i + 1] != "" {
        dir := argv[i + 1];
        i := i + 1;
      }
      i := i + 1;
    }
    ScanTakesFlagValues(argv, 0, Options(None, DefaultIncidentsDir));
  }

  /** The analysis as `JSON.stringify` sees it. */
  function IssueJson(i: Issue): Json {
    Object([("url", i.url), ("status", Some(i.status)), ("type", Str(KindName(i.kind)))])
  }

  function ConfidenceName(c: Confidence): string {
    match c
    case Low => "low"
    case Medium => "medium"
    case High => "high"
  }

  function Strings(xs: seq<string>): seq<Json> {
    seq(|xs|, i requires 0 <= i < |xs| => JString(xs[i]))
  }

  function CauseJson(c: Cause): Json {
    Object([("cause", Str(c.cause)), ("confidence", Str(ConfidenceName(c.confidence))),
            ("actions", Some(JArray(Strings(c.actions))))])
  }

  function SummaryJson(s: Summary): Json {
    Object([("testId", Some(s.testId)), ("title", Some(s.title)), ("file", Some(s.file)),
            ("heuristics", Some(JArray(Strings(s.heuristics)))),
            ("networkIssues", Some(JArray(seq(|s.networkIssues|, i requires 0 <= i < |s.networkIssues| => IssueJson(s.networkIssues[i]))))),
            ("artifacts", Some(Object([("screenshots", Some(s.screenshots)), ("videos", Some(s.videos)),
                                       ("traces", Some(s.traces)), ("hars", Some(s.hars)), ("html", Some(s.html))])))])
  }

  function LlmJson(l: Llm): Json {
    match l
    case Remote(data) => data
    case Offline(causes) =>
      Object([("heuristic_only", Some(JBool(true))),
              ("causes", Some(JArray(seq(|causes|, i requires 0 <= i < |causes| => CauseJson(causes[i])))))])
  }

  function AnalysisJson(a: Analysis): Json {
    Object([("incidentFile", Str(a.incidentFile)), ("summary", Some(SummaryJson(a.summary))),
            ("prompt", Str(a.prompt)), ("llm", Some(LlmJson(a.llm))), ("createdAt", Str(a.createdAt))])
  }

  /** The files after analysing `path`, read from `files`; `None` where reading (the path is
      not a file), the analysis or writing its file (`writable` says which paths can be
      written) throws. */
  function WriteAnalysis(files: map<string, string>, path: string, parse: string -> Option<Json>,
                         stringify: Json -> string, ask: Option<string -> Json>, createdAt: string,
                         writable: string -> bool): (r: Option<map<string, string>>)
    ensures r.Some? ==> OutputPath(path) in r.value && r.value == files[OutputPath(path) := r.value[OutputPath(path)]]
    ensures r.Some? ==> path in files && writable(OutputPath(path))
    ensures r.Some? <==> path in files && AnalysisOf(path, files[path], parse, ask, createdAt).Some? && writable(OutputPath(path))
  {
    if path !in files then None
    else
      match AnalysisOf(path, files[path], parse, ask, createdAt)
      case None => None
      case Some(a) =>
        if writable(OutputPath(path)) then Some(files[OutputPath(path) := stringify(AnalysisJson(a))]) else None
  }

  /** What analysing one path does to the files: the files afterwards, or `None` where the
      analysis throws. */
  type Writer = (map<string, string>, string) -> Option<map<string, string>>

  /** `WriteAnalysis` with the script's parser, encoder, remote call, clock reading and file
      system permissions. */
  function Analyzer(parse: string -> Option<Json>, stringify: Json -> string, ask: Option<string -> Json>,
                    createdAt: string, writable: string -> bool): Writer {
    (fs, path) => WriteAnalysis(fs, path, parse, stringify, ask, createdAt, writable)
  }

  /** A writer that only ever adds or replaces the analysis file of the path it is given. */
  ghost predicate WritesOnlyOutput(write: Writer) {
    forall fs: map<string, string>, path: string {:trigger write(fs, path)} :: write(fs, path).Some? ==>
      OutputPath(path) in write(fs, path).value
      && write(fs, path).value == fs[OutputPath(path) := write(fs, path).value[OutputPath(path)]]
  }

  lemma AnalyzerWritesOnlyOutput(parse: string -> Option<Json>, stringify: Json -> string,
                                 ask: Option<string -> Json>, createdAt: string, writable: string -> bool)
    ensures WritesOnlyOutput(Analyzer(parse, stringify, ask, createdAt, writable))
  {
    var write := Analyzer(parse, stringify, ask, createdAt, writable);
    forall fs: map<string, string>, path: string | write(fs, path).Some?
      ensures OutputPath(path) in write(fs, path).value
      ensures write(fs, path).value == fs[OutputPath(path) := write(fs, path).value[OutputPath(path)]]
    {
      assert write(fs, path) == WriteAnalysis(fs, path, parse, stringify, ask, createdAt, writable);
    }
  }

  /** How far a sequence of analyses got: whether all of them succeeded, and the files
      after the last one that did. */
  datatype Progress = Progress(ok: bool, files: map<string, string>)

  /** One more analysis, attempted only while all earlier ones succeeded. */
  function Step(p: Progress, path: string, write: Writer): (r: Progress)
    ensures !p.ok ==> r == p
  {
    if !p.ok then p
    else
      match write(p.files, path)
      case None => Progress(false, p.files)
      case Some(fs) => Progress(true, fs)
  }

  function AnalyzeEach(files: map<string, string>, paths: seq<string>, write: Writer): Progress
  {
    if paths == [] then Progress(true, files)
    else Step(AnalyzeEach(files, paths[..|paths| - 1], write), paths[|paths| - 1], write)
  }

  lemma AnalyzeEachPrefix(files: map<string, string>, paths: seq<string>, i: nat, write: Writer)
    requires i < |paths|
    ensures AnalyzeEach(files, paths[..i + 1], write) == Step(AnalyzeEach(files, paths[..i], write), paths[i], write)
  {
    assert paths[..i + 1][..i] == paths[..i];
  }

  /** The loop over the matching incidents; it ends at the first analysis that throws. */
  method AnalyzeAll(files: map<string, string>, paths: seq<string>, parse: string -> Option<Json>,
                    stringify: Json -> string, ask: Option<string -> Json>, createdAt: string,
                    writable: string -> bool)
      returns (ok: bool, after: map<string, string>)
    ensures Progress(ok, after) == AnalyzeEach(files, paths, Analyzer(parse, stringify, ask, createdAt, writable))
  {
    ghost var write := Analyzer(parse, stringify, ask, createdAt, writable);
    after := files;
    var i := 0;
    while i < |paths|
      invariant 0 <= i <= |paths|
      invariant AnalyzeEach(files, paths[..i], write) == Progress(true, after)
    {
      var w := AnalyzeNext(files, paths, i, after, parse, stringify, ask, createdAt, writable);
      if w.None? {
        AnalyzeEachStops(files, paths, i + 1, write);
        return false, after;
      }
      after := w.value;
      i := i + 1;
    }
    assert paths[..i] == paths;
    return true, after;
  }

  /** The loop's body: analyse `paths[i]` once the ones before it have all succeeded. */
  method AnalyzeNext(files: map<string, string>, paths: seq<string>, i: nat, after: map<string, string>,
                     parse: string -> Option<Json>, stringify: Json -> string, ask: Option<string -> Json>,
                     createdAt: string, writable: string -> bool) returns (w: Option<map<string, string>>)
    requires i < |paths|
    requires AnalyzeEach(files, paths[..i], Analyzer(parse, stringify, ask, createdAt, writable)) == Progress(true, after)
    ensures AnalyzeEach(files, paths[..i + 1], Analyzer(parse, stringify, ask, createdAt, writable))
      == (if w.None? then Progress(false, after) else Progress(true, w.value))
  {
    AnalyzeEachPrefix(files, paths, i, Analyzer(parse, stringify, ask, createdAt, writable));
    w := AnalyzeAndWrite(after, paths[i], parse, stringify, ask, createdAt, writable);
  }

  /** One step of a writer that only writes analyses: it keeps every file, adds at most the
      analysis of `path`, and changes no other file. */
  lemma StepFiles(p: Progress, path: string, write: Writer)
    requires WritesOnlyOutput(write)
    ensures var r := Step(p, path, write);
      && (forall k | k in p.files :: k in r.files)
      && (forall k | k in r.files :: k in p.files || k == OutputPath(path))
      && (forall k | k in p.files && k != OutputPath(path) :: r.files[k] == p.files[k])
      && (r.ok ==> OutputPath(path) in r.files)
  {
    if p.ok && write(p.files, path).Some? {
      var fs := write(p.files, path).value;
      assert fs == p.files[OutputPath(path) := fs[OutputPath(path)]];
    }
  }

  /** After a run over several incidents where every analysis succeeded, each of them has
      its analysis file. */
  lemma {:induction false} AnalyzeEachWritesAll(files: map<string, string>, paths: seq<string>, write: Writer)
    requires WritesOnlyOutput(write)
    requires AnalyzeEach(files, paths, write).ok
    ensures forall q | q in paths :: OutputPath(q) in AnalyzeEach(files, paths, write).files
  {
    if paths != [] {
      var front, last := paths[..|paths| - 1], paths[|paths| - 1];
      var p := AnalyzeEach(files, front, write);
      AnalyzeEachWritesAll(files, front, write);
      StepFiles(p, last, write);
      forall q | q in paths
        ensures OutputPath(q) in AnalyzeEach(files, paths, write).files
      {
        if q != last {
          assert q in front;
        }
      }
    }
  }

  /** A run over several incidents creates no file other than their analyses. */
  lemma {:induction false} AnalyzeEachCreatesOnlyAnalyses(files: map<string, string>, paths: seq<string>, write: Writer)
    requires WritesOnlyOutput(write)
    ensures forall k | k in AnalyzeEach(files, paths, write).files ::
      k in files || exists q | q in paths :: k == OutputPath(q)
  {
    if paths != [] {
      var front, last := paths[..|paths| - 1], paths[|paths| - 1];
      AnalyzeEachCreatesOnlyAnalyses(files, front, write);
      StepFiles(AnalyzeEach(files, front, write), last, write);
      assert forall q | q in front :: q in paths;
    }
  }

  /** A run over several incidents leaves every file that is not one of their analyses as it
      was. */
  lemma {:induction false} AnalyzeEachKeepsOthers(files: map<string, string>, paths: seq<string>, write: Writer)
    requires WritesOnlyOutput(write)
    ensures forall k | k in files && (forall q | q in paths :: k != OutputPath(q)) ::
      k in AnalyzeEach(files, paths, write).files
      && AnalyzeEach(files, paths, write).files[k] == files[k]
  {
    if paths != [] {
      var front, last := paths[..|paths| - 1], paths[|paths| - 1];
      AnalyzeEachKeepsOthers(files, front, write);
      StepFiles(AnalyzeEach(files, front, write), last, write);
      assert forall q | q in front :: q in paths;
    }
  }

  /** The top level: one named incident, or every matching entry of the incidents
      directory (`entries`, as listed). `files` and `dirs` are what exists. Returns the exit
      status and the files afterwards; a throwing analysis ends the process with status 1. */
  method Run(incident: Option<string>, dir: string, files: map<string, string>, dirs: set<string>,
             entries: seq<string>, parse: string -> Option<Json>, stringify: Json -> string,
             ask: Option<string -> Json>, createdAt: string, writable: string -> bool)
    returns (code: int, after: map<string, string>)
    ensures code == 0 || code == 1
    ensures incident.None? && dir !in files && dir !in dirs ==> code == 1 && after == files
    ensures incident.Some? && incident.value !in files && incident.value !in dirs ==> code == 1 && after == files
    ensures incident.Some? && (incident.value in files || incident.value in dirs) ==>
      var w := WriteAnalysis(files, incident.value, parse, stringify, ask, createdAt, writable);
      (code == 0 <==> w.Some?) && after == (if w.Some? then w.value else files)
    ensures incident.None? && dir in files ==> code == 1 && after == files
    ensures incident.None? && dir in dirs && dir !in files && Matching(entries) == [] ==> code == 0 && after == files
    ensures incident.None? && dir in dirs && dir !in files ==>
      var p := AnalyzeEach(files, JoinAll(dir, Matching(entries)), Analyzer(parse, stringify, ask, createdAt, writable));
      (code == 0 <==> p.ok) && after == p.files
  {
    if incident.None? && dir !in files && dir !in dirs {
      return 1, files;
    }
    if incident.Some? {
      if incident.value !in files && incident.value !in dirs {
        return 1, files;
      }
      var w := AnalyzeAndWrite(files, incident.value, parse, stringify, ask, createdAt, writable);
      if w.None? {
        return 1, files;
      }
      return 0, w.value;
    }
    if dir in files {
      return 1, files;
    }
    var names := Matching(entries);
    if |names| == 0 {
      return 0, files;
    }
    var ok;
    ok, after := AnalyzeAll(files, JoinAll(dir, names), parse, stringify, ask, createdAt, writable);
    code := if ok then 0 else 1;
  }

  /** Once an analysis has failed, the later ones are not attempted. */
  lemma {:induction false} AnalyzeEachStops(files: map<string, string>, paths: seq<string>, n: nat, write: Writer)
    requires n <= |paths| && !AnalyzeEach(files, paths[..n], write).ok
    ensures AnalyzeEach(files, paths, write) == AnalyzeEach(files, paths[..n], write)
    decreases |paths| - n
  {
    if n < |paths| {
      AnalyzeEachPrefix(files, paths, n, write);
      AnalyzeEachStops(files, paths, n + 1, write);
    } else {
      assert paths[..n] == paths;
    }
  }

  /** `path.join(dir, f)` for each name. */
  function JoinAll(dir: string, names: seq<string>): (r: seq<string>)
    ensures |r| == |names| && forall i | 0 <= i < |names| :: r[i] == Paths.Join(dir, names[i])
  {
    seq(|names|, i requires 0 <= i < |names| => Paths.Join(dir, names[i]))
  }

  /** `analyzeSingle(path)` including the read and the write. */
  method AnalyzeAndWrite(files: map<string, string>, path: string, parse: string -> Option<Json>,
                         stringify: Json -> string, ask: Option<string -> Json>, createdAt: string,
                         writable: string -> bool)
      returns (r: Option<map<string, string>>)
    ensures r == WriteAnalysis(files, path, parse, stringify, ask, createdAt, writable)
  {
    if path !in files {
      return None;
    }
    var analysis := AnalyzeSingle(path, files[path], parse, ask, createdAt);
    if analysis.None? {
      return None;
    }
    var out := Paths.Join(Paths.Normalize(Paths.Dirname(path)), AnalysisName(Paths.Basename(path)));
    if !writable(out) {
      return None;
    }
    r := Some(files[out := stringify(AnalysisJson(analysis.value))]);
  }
}
