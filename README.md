# Result-aggregation pipeline of a Playwright test suite, modelled in Dafny

The repository is a Playwright end-to-end suite for a website. Around the suite sits a small
pipeline of five Node.js stages that turn test runs into reports and incident files. This
project models those five stages and proves their properties:

- `scripts/generate-ci-report.js` (module `CiReport`) reads the Playwright JSON report. It
  walks suite → spec → test and charges every test to exactly one of six counters, using a
  first-match-wins classifier. It computes the executed count and the success rate with a
  zero guard, reads the software version from the `VERSION` file, and picks the traffic-light
  icon of the Markdown summary. The walk and the counting callback are imperative: a
  `Counter` class whose fields the callback updates, and loop methods proved against the
  recursive walk functions.
- `modules/jsonAppenderReporter2.js` (module `Reporter`) is the custom Playwright reporter. The
  class `JsonAppenderReporter` keeps its file name, start time and `_results` list as fields.
  `OnBegin`, `OnTestEnd` and `OnEnd` update them. `OnEnd` counts the statuses and
  read-merge-appends the run entry to the JSON-array log `test-results/aggregate-results.json`.
- `scripts/analyze-incident.js` (module `AnalyzeIncident`) analyses one incident file or every
  incident file in a directory. It runs an ordered battery of heuristics and buckets network
  entries by HTTP status. It assembles the prompt, ranks the causes offline when there is no
  language model, and writes `<name>.analysis.json` beside the input.
- `scripts/collect-and-pack.js` (module `CollectAndPack`) walks the artifacts directory and
  `test-results`. It loads every JSON report it finds and collects, recursively, every node
  whose status is `failed` or `error`. It classifies the artifact paths into possibly
  overlapping kinds and writes one incident per failure. When nothing failed, it writes one
  incident per folder of artifacts instead. Incident files are named from the clock and a
  counter.
- `scripts/run-and-append.js` (module `RunAndAppend`) runs the suite as a child process. The
  class `Wrapper` accumulates the child's stdout and stderr. On close, the wrapper reads the
  counts off the list reporter's summary lines, appends a run summary to the same log and
  exits with the child's code.

Shared pieces have modules of their own:

- `Js`: JSON values and the JavaScript semantics the scripts rely on. This covers
  truthiness, property access (`undefined` as `None`), `||`, `for … of`, `String(v)` and
  object literals.
- `Text`: trimming, ASCII lower-casing, substring search and numerals.
- `Paths`: `path.basename`, `path.dirname` and `path.join` on POSIX paths, with `path.join`
  normalising the joined text.
- `JsNumber`: the numbers JavaScript compares with, and the conversion of a string to a number
  that `>=` applies to a string status (section 7.1.4.1 of ECMA-262).
- `FileTree`: a directory tree and `readdirSync`/`statSync`/`readFileSync` on it.
- `RunLog`: the read-merge-append of the aggregate log, which the reporter and the wrapper
  both do.
- `SoftwareVersion`: the `SOFTWARE VERSION:` line regular expression, which two scripts share.

Effects enter as parameters:

- `JSON.parse` and `JSON.stringify` are the functions `parse` and `stringify`.
- Clock readings are numbers and ISO strings.
- The file system is a `FileTree` tree, a `RunLog.FileRead` value or a map of files.
- The language-model call is the optional function `ask`.
- The child's output arrives through the stream handlers.
- Environment variables are the `Env` record.

## Model

| member | source | states |
|---|---|---|
| CiReport.ExtractVersion | scripts/generate-ci-report.js:9-19 | the version is never empty; a missing or unreadable file gives `unknown`; a read file gives its declared version, or `unknown` when that is empty; the result is `unknown` or a trimmed string |
| CiReport.BlankVersionFile | scripts/generate-ci-report.js:13-15 | a file holding only blank lines gives `unknown` |
| CiReport.LabelledVersionFile | scripts/generate-ci-report.js:13-15 | a file whose line is `SOFTWARE VERSION: v` gives `v` trimmed |
| SoftwareVersion.FirstNonBlank | scripts/generate-ci-report.js:13 | the chosen line is empty only when every line is blank; otherwise it is the first line that is not blank |
| SoftwareVersion.MatchAt | scripts/generate-ci-report.js:14 | a match of the label starts with `software` (any case) and captures a non-empty value without line terminators |
| SoftwareVersion.FirstMatchFinds | scripts/generate-ci-report.js:14 | the search finds a match at or before any position where the label matches |
| SoftwareVersion.NothingBeforeFirstMatch | scripts/generate-ci-report.js:14 | no position before the first match matches, so the leftmost match is the one used |
| SoftwareVersion.MatchAtMeaning | scripts/generate-ci-report.js:14 | a position matches exactly when some way of reading the label starts there; the capture is the rest of the line after the latest possible start of the value, as the greedy pattern takes it |
| SoftwareVersion.VersionFieldMeaning | scripts/generate-ci-report.js:14 | no capture when no position of the line matches; otherwise the capture of the leftmost matching position |
| SoftwareVersion.DeclaredMeaning | scripts/generate-ci-report.js:13-15 | the declared version is the trimmed capture of the leftmost match on the first non-blank line, or that whole line trimmed when nothing matches |
| SoftwareVersion.WordAtIgnoringCase | scripts/generate-ci-report.js:14 | the label's letters are matched case-insensitively |
| SoftwareVersion.LabelledLine | scripts/generate-ci-report.js:14 | on `SOFTWARE VERSION: v` the capture is exactly `v` |
| SoftwareVersion.UnlabelledLine | scripts/generate-ci-report.js:14-15 | a line without the label captures nothing, so the whole line is used |
| SoftwareVersion.DeclaredIsTrimmed | scripts/generate-ci-report.js:15 | the declared version is already trimmed |
| SoftwareVersion.BlankDeclaresNothing | scripts/generate-ci-report.js:13-15 | a blank file declares the empty version |
| CiReport.AddCharges | scripts/generate-ci-report.js:44-74 | one test raises `total` by one and exactly the counter of its outcome by one, and keeps the six counters summing to `total` |
| CiReport.LastStatus | scripts/generate-ci-report.js:45-47 | a missing, non-array or empty `results` gives no last status (`null`) |
| CiReport.LastResultDecides | scripts/generate-ci-report.js:45-47 | two tests whose results end in the same result have the same last status |
| CiReport.ClassificationRules | scripts/generate-ci-report.js:50-74 | each of the six outcomes is chosen exactly when its rule applies and no earlier rule does: `flaky` wins even over a passed last result, then timed out, interrupted, skipped, failed, passed; a test no rule matches is failed |
| CiReport.Charge | scripts/generate-ci-report.js:44-49 | the callback succeeds exactly on a non-null test and raises `total` by one |
| CiReport.TallyDefined | scripts/generate-ci-report.js:43-75 | counting a list of tests throws exactly when one of them is `null` |
| CiReport.TallyCounts | scripts/generate-ci-report.js:43-75 | over any list of tests, `total` is their number, each counter is the number of tests with that outcome, and the six counters sum to `total` |
| CiReport.TallyAppend | scripts/generate-ci-report.js:21-30 | counting two lists of tests in a row is counting their concatenation |
| CiReport.SuiteListAppend | scripts/generate-ci-report.js:21-30 | the tests of a list of suites are those of its first part followed by those of the rest |
| CiReport.SpecListAppend | scripts/generate-ci-report.js:23-27 | the tests of a list of specs are those of its first part followed by those of the rest |
| CiReport.Counter.constructor | scripts/generate-ci-report.js:33-41 | all seven counters start at zero |
| CiReport.Counter.Record | scripts/generate-ci-report.js:43-75 | the callback succeeds exactly on a non-null test; it then adds that test's outcome to the counters, and otherwise changes nothing |
| CiReport.WalkSuites | scripts/generate-ci-report.js:21-30 | the loop over suites succeeds exactly when the recursive walk is defined, and the counters advance by the walk's tests in order |
| CiReport.WalkSuite | scripts/generate-ci-report.js:22-29 | one suite charges its own specs' tests, then its nested suites' tests |
| CiReport.WalkSpecs | scripts/generate-ci-report.js:23-27 | the loop over specs charges every spec's tests in order |
| CiReport.WalkSpec | scripts/generate-ci-report.js:24-26 | one spec charges its tests in order |
| CiReport.CountTests | scripts/generate-ci-report.js:24-26 | the loop over tests succeeds exactly when counting the list is defined, and ends with those counts |
| CiReport.ComputeCounts | scripts/generate-ci-report.js:32-78 | the counts of the report, `None` where the walk throws |
| CiReport.CountsOfReport | scripts/generate-ci-report.js:32-78 | the computed counts are balanced and `total` is the number of tests in the report's tree, each visited once |
| CiReport.ExecutedOfBalanced | scripts/generate-ci-report.js:117-118 | on balanced counts, executed is passed + failed + flaky + interrupted + timed out, and successful is at most executed |
| CiReport.RateHundredths | scripts/generate-ci-report.js:119 | the rate in hundredths is the exact ratio rounded half up, and at most 100.00 when successful ≤ executed |
| CiReport.TwoDecimals | scripts/generate-ci-report.js:119 | the rate text is a whole part, a point and two digits, whose values are the hundredths divided by 100 and their remainder |
| CiReport.TwoDecimalsReadsBack | scripts/generate-ci-report.js:119 | a number of hundredths printed with two decimals reads back as the same number |
| CiReport.RateReadsBack | scripts/generate-ci-report.js:117-119 | the printed rate reads back as the rounded rate, so the icon thresholds judge the number the report shows |
| CiReport.SuccessRate | scripts/generate-ci-report.js:117-119 | exactly `0.00` when nothing executed, otherwise the rounded ratio of successful to executed tests |
| CiReport.RateExample | scripts/generate-ci-report.js:117-119 | 8 passed, 1 flaky, 1 skipped of 10 gives `100.00` |
| CiReport.RateAtMostHundred | scripts/generate-ci-report.js:117-119 | the rate of balanced counts is at most 100 |
| CiReport.Indicator | scripts/generate-ci-report.js:82-83 | green exactly from 90 on, red exactly below 70, yellow in between |
| CiReport.Generate | scripts/generate-ci-report.js:105-142 | the summary exists exactly when the report is read, parsed and walked and the outputs can be written; it holds those balanced counts, their rate and icon, and the version |
| Reporter.ConfiguredFile | modules/jsonAppenderReporter2.js:6 | `options.file` when truthy, else the default aggregate path |
| Reporter.JsonAppenderReporter.constructor | modules/jsonAppenderReporter2.js:5-10 | the file is configured, the results are empty and the start time is the clock reading |
| Reporter.JsonAppenderReporter.OnBegin | modules/jsonAppenderReporter2.js:12-16 | the results are emptied and the start time reset; the file is kept |
| Reporter.TitlePath | modules/jsonAppenderReporter2.js:20 | `titlePath()` when it is a function, else the parents' titles and the title, else the title alone |
| Reporter.ErrorText | modules/jsonAppenderReporter2.js:26 | a falsy error stays as it is; otherwise its truthy `message`, else `String(e)` |
| Reporter.Errors | modules/jsonAppenderReporter2.js:26 | `errors` mapped when it is an array, else `[error]` when that is truthy, else `[]`; it throws on a truthy non-array `errors` |
| Reporter.MakeRecord | modules/jsonAppenderReporter2.js:19-29 | the record exists exactly when the result is not null and its errors can be mapped; missing stdout and stderr default to `[]` |
| Reporter.MakeRecordWellKeyed | modules/jsonAppenderReporter2.js:19-29 | a record built from well-keyed values holds only objects with distinct keys |
| Reporter.JsonAppenderReporter.OnTestEnd | modules/jsonAppenderReporter2.js:18-31 | exactly one record is appended at the end, earlier records unchanged; nothing changes where building the record throws |
| Reporter.StatusCountsMeaning | modules/jsonAppenderReporter2.js:38-43 | `total` is the number of records (plus records whose status is literally `total`); every other key counts the records with that status, a missing status counted as `unknown` |
| Reporter.KeyCountsBounded | modules/jsonAppenderReporter2.js:38-43 | the five persisted keys together count at most all records |
| Reporter.RunCountsBounded | modules/jsonAppenderReporter2.js:45-57 | `total` is at least the number of records, is exactly that number when none is literally `total`, and bounds the sum of the five counters |
| Reporter.JsonAppenderReporter.CountStatuses | modules/jsonAppenderReporter2.js:38-43 | the reduce loop computes the status counts of the records |
| Reporter.JsonAppenderReporter.OnEnd | modules/jsonAppenderReporter2.js:33-85 | no entry where resolving a non-string file throws; otherwise the run entry of the counts and records, appended to the log only when the write succeeds |
| Reporter.RunEntryWellKeyed | modules/jsonAppenderReporter2.js:45-57 | the run entry built from well-keyed records holds only objects with distinct keys |
| Reporter.RunAppended | modules/jsonAppenderReporter2.js:64-78 | when the encoding reads back and the records are well keyed, the written log reads back as the prior runs with the new entry last |
| RunLog.PriorRuns | modules/jsonAppenderReporter2.js:64-73 | a missing, blank, unparsable or non-array log reads as `[]`, otherwise as its array |
| RunLog.Appended | modules/jsonAppenderReporter2.js:75 | one element longer, prior elements unchanged, the entry last |
| RunLog.AppendedWellKeyed | modules/jsonAppenderReporter2.js:64-75 | the array written back is well keyed when the entry is, since parsed prior runs are |
| Js.ObjectWellKeyed | modules/jsonAppenderReporter2.js:45-57 | an object literal with distinct field names and well-keyed values is well keyed, and each member is one of its defined fields |
| RunLog.WrittenReadsBack | modules/jsonAppenderReporter2.js:75-78 | when stringify and parse round-trip on well-keyed arrays and the entry is well keyed, the written log reads back as the prior runs plus the entry |
| RunLog.WrittenAllAccumulates | scripts/run-and-append.js:22-38 | when the encoding reads back, successive appends of well-keyed entries accumulate every entry in order |
| AnalyzeIncident.ParseArguments | scripts/analyze-incident.js:8-14 | the loop computes the options the scan over the arguments gives: each option is its default or the non-empty argument after one of its flags; a lone `--incident x` or `--incidents-dir x` sets just that option |
| AnalyzeIncident.OptionStep | scripts/analyze-incident.js:11-13 | one loop iteration moves past the current argument, and past its value when a flag takes one |
| AnalyzeIncident.ScanTakesFlagValues | scripts/analyze-incident.js:10-14 | each option keeps its value or ends with the non-empty argument after one of its flags |
| AnalyzeIncident.OptionStepExtends | scripts/analyze-incident.js:10-14 | arguments added at the end do not change an iteration over the arguments before them |
| AnalyzeIncident.LastFlagWins | scripts/analyze-incident.js:10-14 | a flag and a non-empty value added at the end set that option to the value and leave the other as before |
| AnalyzeIncident.ValueReadAsFlag | scripts/analyze-incident.js:12-13 | the value taken by `--incident` is read again as the `--incidents-dir` flag in the same iteration |
| AnalyzeIncident.ErrorText | scripts/analyze-incident.js:33 | the error text is `""` when the error is falsy and the string when it is a string; it throws on any other truthy error |
| AnalyzeIncident.ExpectationLooksLikeNetwork | scripts/analyze-incident.js:36 | any text containing `ec` (such as `expect`) fires the network heuristic |
| AnalyzeIncident.NetIssue | scripts/analyze-incident.js:43-47 | a truthy status converting to a number of at least 500 is a server error, 400 to below 500 a client error, anything else (missing, zero, not a number) no issue; the issue keeps the url and the status as given |
| AnalyzeIncident.StringStatusIssue | scripts/analyze-incident.js:44 | a non-empty string status whose number is at least 500 is a server error |
| AnalyzeIncident.ExponentStatusIssue | scripts/analyze-incident.js:44 | the status `"5e2"` is a server error |
| JsNumber.AtLeastOrBelow | scripts/analyze-incident.js:44-45 | apart from NaN, a number is either at least the bound or below it, never both |
| JsNumber.NatToStringRoundTrip | scripts/analyze-incident.js:44-45 | the numeral of a natural number converts back to that number |
| JsNumber.SpacesAround | scripts/analyze-incident.js:44-45 | white space around a string does not change the number it converts to |
| JsNumber.SignedLiterals | scripts/analyze-incident.js:44-45 | a leading `+` keeps and a leading `-` negates the unsigned number after it |
| JsNumber.UnsignedLiteral | scripts/analyze-incident.js:44-45 | a literal with no sign and no radix prefix is read as an unsigned decimal |
| JsNumber.ExponentSpelling | scripts/analyze-incident.js:44 | `"5e2"` converts to 500 |
| JsNumber.SignedSpelling | scripts/analyze-incident.js:44 | `"+500"` converts to 500 |
| JsNumber.FractionSpelling | scripts/analyze-incident.js:44 | `"500.0"` converts to 500 |
| JsNumber.HexSpelling | scripts/analyze-incident.js:44 | `"0x1f4"` converts to 500 |
| AnalyzeIncident.NetIssues | scripts/analyze-incident.js:42-49 | each entry gives at most one issue |
| AnalyzeIncident.CollectNetIssues | scripts/analyze-incident.js:42-49 | the loop over the network entries collects the issues in order |
| AnalyzeIncident.PickMembers | scripts/analyze-incident.js:32-49 | a message is picked exactly when its test fires |
| AnalyzeIncident.PickDistinct | scripts/analyze-incident.js:32-49 | distinct messages stay distinct when picked |
| AnalyzeIncident.HintsDistinct | scripts/analyze-incident.js:32-49 | the seven heuristic messages are pairwise different |
| AnalyzeIncident.HeuristicsMeaning | scripts/analyze-incident.js:32-49 | the heuristics keep their fixed order without repeats; each appears exactly when its test fires, the count heuristic exactly when `network` is an array with an issue |
| AnalyzeIncident.BuildHeuristics | scripts/analyze-incident.js:32-49 | the pushes compute the heuristics and issues |
| AnalyzeIncident.CountHint | scripts/analyze-incident.js:48 | the count heuristic is its fixed words around a numeral whose value is the number of issues |
| AnalyzeIncident.ListOr | scripts/analyze-incident.js:59-63 | `inc[k] \|\| []`: the member when it is truthy, an empty array otherwise |
| AnalyzeIncident.OrNull | scripts/analyze-incident.js:52-54 | `inc[k] \|\| null`: the member when it is truthy, `null` otherwise |
| AnalyzeIncident.SummaryOf | scripts/analyze-incident.js:52-65 | the summary carries the heuristics and issues; `testId`, `title` and `file` are the incident's truthy fields or `null`, and each of the five artifact lists its truthy field or `[]` |
| AnalyzeIncident.ListedIssues | scripts/analyze-incident.js:72 | at most the first five issues are listed, in order |
| AnalyzeIncident.PromptShape | scripts/analyze-incident.js:67-76 | the prompt opens with the context, always has the heuristics line before the closing question, has 3 to 7 lines, and lists the network issues when there are any |
| AnalyzeIncident.BuildPromptLines | scripts/analyze-incident.js:67-76 | the pushes assemble the prompt lines |
| AnalyzeIncident.RankCauses | scripts/analyze-incident.js:113-121 | no heuristics gives one `Unknown`/low cause; otherwise min(3, n) causes in heuristic order, the first high and the rest medium |
| AnalyzeIncident.AnalysisName | scripts/analyze-incident.js:125-127 | the output name ends in `.analysis.json` |
| AnalyzeIncident.OutputBesideInput | scripts/analyze-incident.js:125-127 | the output sits in the input's directory, named from its basename, and is never the input's path |
| AnalyzeIncident.AnalyzeSingle | scripts/analyze-incident.js:27-130 | the analysis of one incident file, `None` where reading, parsing or building throws |
| AnalyzeIncident.AnalyzeRecord | scripts/analyze-incident.js:31-122 | the analysis of a parsed incident |
| AnalyzeIncident.WriteAnalysis | scripts/analyze-incident.js:27-130 | the analysis succeeds exactly when the input is read and analysed and its output is writable, and then adds or replaces only the output file |
| AnalyzeIncident.AnalyzerWritesOnlyOutput | scripts/analyze-incident.js:125-128 | every analysis writes its own output file and nothing else |
| AnalyzeIncident.AnalysesMatchFilter | scripts/analyze-incident.js:140 | every analysis output name matches the incident filter again |
| AnalyzeIncident.Matching | scripts/analyze-incident.js:140 | the filter keeps exactly the entries matching `incident.*\.json$`, ignoring case |
| AnalyzeIncident.Step | scripts/analyze-incident.js:145-148 | after a throw, nothing more is analysed |
| AnalyzeIncident.AnalyzeAll | scripts/analyze-incident.js:145-148 | the loop analyses the matching files in order and stops at the first throw |
| AnalyzeIncident.AnalyzeEachWritesAll | scripts/analyze-incident.js:145-148 | without a throw every matching file gets its analysis |
| AnalyzeIncident.AnalyzeEachCreatesOnlyAnalyses | scripts/analyze-incident.js:145-148 | every file afterwards existed before or is the output of an analysed file |
| AnalyzeIncident.AnalyzeEachKeepsOthers | scripts/analyze-incident.js:145-148 | files that are no analysis output keep their contents |
| AnalyzeIncident.Run | scripts/analyze-incident.js:132-149 | exit 1 for a missing incident or directory, 0 when nothing matches; otherwise the analyses, exit 0 exactly when none throws, an unwritable output counting as a throw |
| FileTree.WalkDir | scripts/collect-and-pack.js:27-40 | the walk loop lists the files below a directory, depth first |
| FileTree.WalkFindsOnlyFiles | scripts/collect-and-pack.js:27-40 | every path the walk returns resolves to a file, never a directory |
| FileTree.FilesFollowTrails | scripts/collect-and-pack.js:27-40 | each walked path is the directory followed by the names leading to a file |
| FileTree.ParentsListable | scripts/collect-and-pack.js:27-40 | on a well-formed tree the folder of every walked file can be listed |
| FileTree.FilesAreJoins | scripts/collect-and-pack.js:27-40 | every walked path is an entry name joined to a directory path |
| Paths.NormalizeKeepsSegments | scripts/collect-and-pack.js:118 | normalising keeps the names a path walks through |
| Paths.NormalizeIdempotent | scripts/collect-and-pack.js:118 | normalising twice is normalising once |
| Paths.JoinShape | scripts/collect-and-pack.js:118 | joining an entry name spells the directory's normalised front, then the name |
| Paths.JoinEntries | scripts/collect-and-pack.js:118 | two entry names are joined by one separator |
| Paths.SegmentsOfJoin | scripts/collect-and-pack.js:125 | joining an entry name adds exactly that name to the names the directory walks through |
| Paths.BasenameOfJoin | scripts/collect-and-pack.js:125 | the basename of a joined entry name is that name |
| Paths.DirnameOfJoin | scripts/collect-and-pack.js:171 | the directory of a joined path walks through the same names as the directory joined |
| CollectAndPack.ParseArguments | scripts/collect-and-pack.js:12-19 | the loop computes the scan over the arguments: the directory is never empty, and is the default or the non-empty argument after an `--artifacts` flag; the default when no flag has a non-empty value |
| CollectAndPack.ScanTakesFlagValue | scripts/collect-and-pack.js:14-19 | the scan keeps its directory or ends with the non-empty argument after an `--artifacts` flag, and keeps it when no flag has a non-empty value |
| CollectAndPack.LastFlagWins | scripts/collect-and-pack.js:14-19 | an `--artifacts` flag with a non-empty value added at the end decides the directory |
| CollectAndPack.FlagTakesNextFlag | scripts/collect-and-pack.js:15-17 | the value after `--artifacts` is taken even when it is itself `--artifacts` |
| CollectAndPack.JsonFiles | scripts/collect-and-pack.js:42-45 | exactly the paths whose lower-cased form ends in `.json` |
| CollectAndPack.Loaded | scripts/collect-and-pack.js:47-53 | the reports loaded are exactly the files that read and parse to a truthy value |
| CollectAndPack.LoadResults | scripts/collect-and-pack.js:56-75 | the loops over candidates and other JSON files load those reports in order |
| CollectAndPack.AggregateLoadedTwice | scripts/collect-and-pack.js:56-68 | a readable aggregate log is loaded twice from the candidates alone |
| CollectAndPack.KeysOf | scripts/collect-and-pack.js:91 | `Object.keys(o)` lists each member's key, in the members' order |
| CollectAndPack.KeysWalkIsMembersWalk | scripts/collect-and-pack.js:91 | on an object with distinct keys, walking `Object.keys(o)` and reading each key back visits the members in order, each once |
| CollectAndPack.ReportsWellKeyed | scripts/collect-and-pack.js:47-53 | where `parse` yields only well-keyed values, as `JSON.parse` does, every loaded report has distinct keys at every depth |
| CollectAndPack.WalkSound | scripts/collect-and-pack.js:78-97 | every reported failure is a `failed` or `error` node inside the report, tagged with it |
| CollectAndPack.WalkComplete | scripts/collect-and-pack.js:78-97 | every failed node of a report is reported, also one nested in another failed node |
| CollectAndPack.WalkInto | scripts/collect-and-pack.js:80-95 | the recursive visitor appends the walk's failures in pre-order |
| CollectAndPack.ExtractFailures | scripts/collect-and-pack.js:78-97 | the failures of one report |
| CollectAndPack.CollectFailures | scripts/collect-and-pack.js:99-104 | the loop concatenates the failures report by report |
| CollectAndPack.AllFailuresMeaning | scripts/collect-and-pack.js:99-104 | a failure is collected exactly when it is a failed node of one of the loaded reports |
| CollectAndPack.TraceMeansZip | scripts/collect-and-pack.js:112 | every `.zip` is a trace |
| CollectAndPack.Classify | scripts/collect-and-pack.js:107-115 | each kind holds exactly the files matching its pattern |
| CollectAndPack.KindsOverlap | scripts/collect-and-pack.js:110-115 | the kinds are not exclusive: `console.png` is a screenshot and a log |
| CollectAndPack.StripExtension | scripts/collect-and-pack.js:140 | the last extension is removed, or the name is kept when it has none |
| CollectAndPack.FieldOr | scripts/collect-and-pack.js:134-135 | the title and the file: the entry's own truthy field, else that of its `test` or `location` object, else `unknown test` or `unknown file`; never falsy |
| CollectAndPack.ErrorTextEmpty | scripts/collect-and-pack.js:136-137 | the error text is empty exactly when the entry has no truthy error |
| CollectAndPack.Related | scripts/collect-and-pack.js:141-146 | attached artifacts are exactly those whose path contains the key, ignoring case |
| CollectAndPack.RelatedScreens | scripts/collect-and-pack.js:141-143 | screenshots match on the key or on the title's basename; it throws on a non-string title only when a screenshot misses the key |
| CollectAndPack.FailureIncidentMeaning | scripts/collect-and-pack.js:133-141 | building the incident throws exactly when the file is not a string, or the title is not a string and some screenshot misses the key |
| CollectAndPack.FailureIncidentContent | scripts/collect-and-pack.js:133-152 | the id is `file:title` with the title as `String` shows it, and the incident holds that title, file and error text |
| CollectAndPack.FailureIncidentArtifacts | scripts/collect-and-pack.js:139-158 | each kind holds exactly the artifacts of that kind containing the key, screenshots also those containing the title's basename |
| CollectAndPack.FailureIncidentMetadata | scripts/collect-and-pack.js:159-163 | the metadata holds `BASE_URL` or `null`, the resolved artifacts directory and the source report |
| CollectAndPack.Folders | scripts/collect-and-pack.js:170-171 | the folders are distinct and are exactly the parents of the given paths |
| CollectAndPack.CandidateFolders | scripts/collect-and-pack.js:170-171 | the loop builds the folder set in first-added order |
| CollectAndPack.IncidentPathInjective | scripts/collect-and-pack.js:121-128 | an incident's path determines its clock reading and counter |
| CollectAndPack.IncidentPathsDiffer | scripts/collect-and-pack.js:121-125 | incidents written with different counts get different paths, whatever the clock reads |
| CollectAndPack.IncidentNameInjective | scripts/collect-and-pack.js:125 | the name determines its clock reading and counter |
| CollectAndPack.IncidentPathIsJoin | scripts/collect-and-pack.js:125 | the incident path is `path.join` of the directory and the name; its basename is the name and it walks through the directory's names then the name |
| CollectAndPack.IncidentWriter.constructor | scripts/collect-and-pack.js:118-121 | the counter starts at zero with nothing written |
| CollectAndPack.IncidentWriter.Write | scripts/collect-and-pack.js:121-128 | the counter goes up by one; the write succeeds exactly when the path is writable, and then the file is added under a path no earlier write used; otherwise nothing is written |
| CollectAndPack.Emit | scripts/collect-and-pack.js:123-128 | the write succeeds exactly when the next path is writable, and then the file is the incident under the next name; otherwise nothing is written |
| CollectAndPack.WritesDistinct | scripts/collect-and-pack.js:121-128 | no two writes of a run share a path |
| CollectAndPack.BuildEach | scripts/collect-and-pack.js:132-167 | the incidents are those built from the first items in order, and the loop stops exactly at the first item whose build throws |
| CollectAndPack.FallbackBatchStops | scripts/collect-and-pack.js:176-196 | the fallback loop stops early exactly at a folder that cannot be listed |
| CollectAndPack.FallbackBatchIncidents | scripts/collect-and-pack.js:176-196 | the k-th fallback incident is the `auto:` incident of the k-th folder and its files |
| CollectAndPack.FallbackCompletes | scripts/collect-and-pack.js:176-196 | the fallback loop completes when every folder can be listed |
| CollectAndPack.WriteFolder | scripts/collect-and-pack.js:176-195 | the incident of a folder is built and written under the next name, or nothing is written when listing or writing fails |
| CollectAndPack.FoldersListable | scripts/collect-and-pack.js:168-197 | on a well-formed tree every fallback folder can be listed |
| CollectAndPack.WriteFailureIncidents | scripts/collect-and-pack.js:131-167 | the loop writes the failure batch's incidents under successive names |
| CollectAndPack.WriteFallbackIncidents | scripts/collect-and-pack.js:168-197 | the loop writes the fallback batch's incidents under successive names |
| CollectAndPack.Survey | scripts/collect-and-pack.js:21-115 | the walk succeeds exactly when the artifacts directory exists and can be walked, and then gives the failures and artifacts found |
| CollectAndPack.PersistWrites | scripts/collect-and-pack.js:121-128 | the files written are a prefix of the batch's writes, all of them with the batch's exit code when every path is writable, and exit 1 before the first unwritable path |
| CollectAndPack.Pack | scripts/collect-and-pack.js:1-199 | the exit code and the incident files written, in order, are those of the whole script, cut short with exit 1 where making the directory or a write throws |
| CollectAndPack.PackWrites | scripts/collect-and-pack.js:117-197 | the files written are a prefix of the outcome's writes into `incidents`; all of them with its exit code when the directory exists or is made and every path is writable; exit 1 before the first unwritable path |
| CollectAndPack.PackWithFailures | scripts/collect-and-pack.js:131-167 | with failures, one incident per failure in order and exit 0, or exit 1 at the first that throws |
| CollectAndPack.PackFallback | scripts/collect-and-pack.js:168-197 | with no failure, one incident per distinct non-log artifact folder and exit 0 (no folder: nothing written, exit 0) |
| RunAndAppend.ReadVersion | scripts/run-and-append.js:9-20 | `unknown` for a missing or unreadable file; a non-empty version agrees with the CI report's; an empty one only for a file the CI report reads as `unknown` |
| RunAndAppend.BlankVersionFile | scripts/run-and-append.js:12-16 | a blank file gives `""` here but `unknown` in the CI report |
| RunAndAppend.Wrapper.constructor | scripts/run-and-append.js:9-20 | the version is read once and nothing is captured yet |
| RunAndAppend.Wrapper.OnStdout | scripts/run-and-append.js:43 | the chunk is appended to the captured stdout only |
| RunAndAppend.Wrapper.OnStderr | scripts/run-and-append.js:44 | the chunk is appended to the captured stderr only |
| RunAndAppend.Leftmost | scripts/run-and-append.js:49-53 | the leftmost position where the pattern matches |
| RunAndAppend.Matched | scripts/run-and-append.js:49-53 | no value exactly when the pattern matches nowhere; otherwise the digits of a match |
| RunAndAppend.AbsentCount | scripts/run-and-append.js:55-58 | a count whose line is absent is 0 |
| RunAndAppend.SummaryLineCount | scripts/run-and-append.js:49-58 | the first `<n> passed` (etc.) occurrence gives `n` |
| RunAndAppend.BannerTotal | scripts/run-and-append.js:53-59 | the first `Running N tests` gives `total` N |
| RunAndAppend.TotalWithoutBanner | scripts/run-and-append.js:59 | without the banner, the total is the sum of the four counts |
| RunAndAppend.NoRunningNoBanner | scripts/run-and-append.js:53 | output that never says `Running` has no banner match |
| RunAndAppend.Snippet | scripts/run-and-append.js:67-68 | a suffix of the text of at most 2000 characters |
| RunAndAppend.Wrapper.OnClose | scripts/run-and-append.js:45-73 | the summary is appended and the process exits with the child's code; an unwritable log ends it with 1 and no write |

## Left out

- The language-model call (`fetch` to the chat API, scripts/analyze-incident.js:87-111) is the optional function `ask`. The HTTP exchange and its failures are not modelled.
- `spawn` and the child process are not modelled. The echo of the chunks to the parent's stdout and stderr is not modelled either; the chunks arrive through `OnStdout`/`OnStderr`.
- `toFixed(2)` on floating-point numbers is not modelled. The rate is the exact ratio rounded half up to hundredths, so binary rounding differences are left out.
- JSON numbers are integers. Fractions and the precision of JavaScript numbers are not modelled.
- NetIssue: a status string is converted to an exact decimal, following section 7.1.4.1 of ECMA-262, and compared without rounding it to a double. A string such as `"499.99999999999999999"`, which JavaScript rounds to 500, counts here as a client error.
- Paths.Join: `..` segments are not collapsed. Only empty names and `.` are dropped, and the leading and trailing separators are kept.
- RunAndAppend.SummaryLineCount: stated for count words without digits, as `passed`, `failed`, `skipped` and `timedOut` are. A word with a digit could let a later digit run match first.
- FileTree: the tree is the state before the run. Incidents written during the run are not walked again by the same run.
- `path.resolve`, absolute paths and `..` segments are left out. Paths are relative to the working tree.
- `toLowerCase` is modelled on ASCII letters only.
- `mkdirSync`, `writeFileSync` and `appendFileSync` are reduced to the flags `writeOk`, `mkdirOk` and `writable`; CiReport.Generate takes one flag, `writable`, for its directory and its three writes. A failure ends the script as its uncaught throw does, but the contents of a failed partial write are not modelled.
- `Date.now` and `toISOString` are parameters, not a clock.
- Concurrency is left out, including the race between processes appending to the same log.
- Lengths of strings count characters, not UTF-16 code units.
- The console messages are left out. Of the Markdown summary and its append to `GITHUB_STEP_SUMMARY`, only the icon is modelled.
- The order of an object's keys is the order `parse` produces. JavaScript's integer-key reordering is not modelled.
- Environment variables (`BASE_URL`, `OPENAI_API_KEY`) are fields of the environment parameters.
- RunAndAppend.Wrapper.OnClose: its read-back property holds only under the assumption that `stringify` and `parse` round-trip on arrays whose objects have distinct keys, and that `parse` yields only such values, because both are parameters. `JSON.parse` and `JSON.stringify` meet it up to the key order and number precision listed above; it is not proved of them.
- Reporter.RunCountsBounded: `total` equals the number of records only when no record's status is literally `total`. With such a status, the reduce double-counts `total`, as the code does.
- CiReport.Generate: the written JSON file and its formatting are not modelled; the result is the summary value that it holds.
- AnalyzeIncident.Run: files and directories are looked up by the path argument as given, so `./a/incident.json` and `a/incident.json` name different entries of the `files` map.
