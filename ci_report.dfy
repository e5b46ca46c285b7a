/** The CI summary: counting the tests of a Playwright JSON report by outcome, the success
    rate over the executed tests, the traffic-light indicator and the software version. */
module CiReport {
  import opened Wrappers
  import opened Js
  import Text
  import SoftwareVersion
  import RunLog

  /** The counter a test is charged to. */
  datatype Outcome = Passed | Failed | Flaky | Interrupted | TimedOut | Skipped

  /** The counts object. */
  datatype Counts = Counts(passed: nat, failed: nat, flaky: nat, interrupted: nat, timedOut: nat, skipped: nat, total: nat)
  {
    /** Every test in `total` is in exactly one of the six counters. */
    predicate Balanced() {
      passed + failed + flaky + interrupted + timedOut + skipped == total
    }
  }

  const Zero := Counts(0, 0, 0, 0, 0, 0, 0)

  /** The counts after one more test with outcome `o`. */
  function Add(c: Counts, o: Outcome): Counts {
    var c := c.(total := c.total + 1);
    match o
    case Passed => c.(passed := c.passed + 1)
    case Failed => c.(failed := c.failed + 1)
    case Flaky => c.(flaky := c.flaky + 1)
    case Interrupted => c.(interrupted := c.interrupted + 1)
    case TimedOut => c.(timedOut := c.timedOut + 1)
    case Skipped => c.(skipped := c.skipped + 1)
  }

  /** One more test raises `total` and the counter of its outcome by one and nothing else. */
  lemma AddCharges(c: Counts, o: Outcome)
    ensures Add(c, o).total == c.total + 1
    ensures c.Balanced() ==> Add(c, o).Balanced()
    ensures Add(c, o).passed == c.passed + (if o == Passed then 1 else 0)
    ensures Add(c, o).failed == c.failed + (if o == Failed then 1 else 0)
    ensures Add(c, o).flaky == c.flaky + (if o == Flaky then 1 else 0)
    ensures Add(c, o).interrupted == c.interrupted + (if o == Interrupted then 1 else 0)
    ensures Add(c, o).timedOut == c.timedOut + (if o == TimedOut then 1 else 0)
    ensures Add(c, o).skipped == c.skipped + (if o == Skipped then 1 else 0)
  {
  }

  /** `lastResult && lastResult.status`, where `lastResult` is the last element of
      `test.results` when that is a non-empty array and `null` otherwise. */
  function LastStatus(test: Json): (r: Option<Json>)
    requires !test.JNull?
    ensures !IsArray(Get(Some(test), "results")) || Get(Some(test), "results").value.items == [] ==> r == Some(JNull)
  {
    var results := Get(Some(test), "results");
    var rs := if IsArray(results) then results.value.items else [];
    var last := if rs != [] then Some(rs[|rs| - 1]) else Some(JNull);
    GetIfTruthy(last, "status")
  }

  /** Only the last result counts: tests whose `results` end in the same result have the same
      last status, whatever came before it. */
  lemma LastResultDecides(a: Json, b: Json)
    requires !a.JNull? && !b.JNull?
    requires IsArray(Get(Some(a), "results")) && IsArray(Get(Some(b), "results"))
    requires var ra, rb := Get(Some(a), "results").value.items, Get(Some(b), "results").value.items;
      ra != [] && rb != [] && ra[|ra| - 1] == rb[|rb| - 1]
    ensures LastStatus(a) == LastStatus(b)
  {
  }

  function Is(v: Option<Json>, s: string): bool {
    v == Some(JString(s))
  }

  /** The outcome the classifier charges a test to, from its `status` and the status of its
      last result: the first rule that applies wins, and a test no rule matches is failed. */
  function ClassifyStatuses(status: Option<Json>, last: Option<Json>): Outcome {
    if Is(status, "flaky") then Flaky
    else if Is(last, "timedOut") then TimedOut
    else if Is(last, "interrupted") then Interrupted
    else if Is(status, "skipped") || Is(last, "skipped") then Skipped
    else if Is(status, "unexpected") || Is(last, "failed") then Failed
    else if Is(status, "expected") || Is(last, "passed") then Passed
    else Failed
  }

  /** When each outcome is chosen, stated independently of the order of the rules. */
  lemma ClassificationRules(status: Option<Json>, last: Option<Json>)
    ensures var o := ClassifyStatuses(status, last);
      && (o == Flaky <==> Is(status, "flaky"))
      && (o == TimedOut <==> !Is(status, "flaky") && Is(last, "timedOut"))
      && (o == Interrupted <==> !Is(status, "flaky") && Is(last, "interrupted"))
      && (o == Skipped <==> (!Is(status, "flaky") && !Is(last, "timedOut") && !Is(last, "interrupted")
        && (Is(status, "skipped") || Is(last, "skipped"))))
      && (o == Passed <==> (!Is(status, "flaky") && !Is(status, "skipped") && !Is(status, "unexpected")
        && !Is(last, "timedOut") && !Is(last, "interrupted") && !Is(last, "skipped") && !Is(last, "failed")
        && (Is(status, "expected") || Is(last, "passed"))))
      && (o == Failed <==> (!Is(status, "flaky") && !Is(last, "timedOut") && !Is(last, "interrupted")
        && !Is(status, "skipped") && !Is(last, "skipped")
        && (Is(status, "unexpected") || Is(last, "failed") || !(Is(status, "expected") || Is(last, "passed")))))
  {
  }

  /** The outcome of `test` in `computeCounts`' callback. */
  function Classify(test: Json): Outcome
    requires !test.JNull?
  {
    ClassifyStatuses(Get(Some(test), "status"), LastStatus(test))
  }

  /** The counts after the callback has seen `tests`; `None` when it throws, which it does on a
      `null` test (`test.results` cannot be read). */
  function Tally(c: Counts, tests: seq<Json>): Option<Counts> {
    if tests == [] then Some(c)
    else Charge(Tally(c, tests[..|tests| - 1]), tests[|tests| - 1])
  }

  /** The callback on one more test, once the earlier ones were counted. */
  function Charge(r: Option<Counts>, t: Json): (s: Option<Counts>)
    ensures s.Some? <==> r.Some? && !t.JNull?
    ensures s.Some? ==> s.value.total == r.value.total + 1
  {
    match r
    case None => None
    case Some(d) => if t.JNull? then None else Some(Add(d, Classify(t)))
  }

  /** The walk stops at the first `null` test and at no other. */
  lemma {:induction false} TallyDefined(c: Counts, tests: seq<Json>)
    ensures Tally(c, tests).Some? <==> forall i | 0 <= i < |tests| :: !tests[i].JNull?
  {
    if tests != [] {
      var front, last := tests[..|tests| - 1], tests[|tests| - 1];
      TallyDefined(c, front);
      assert Tally(c, tests) == Charge(Tally(c, front), last);
      NoNullSplit(tests, front, last);
    }
  }

  lemma NoNullSplit(tests: seq<Json>, front: seq<Json>, last: Json)
    requires tests == front + [last]
    ensures (forall i | 0 <= i < |tests| :: !tests[i].JNull?)
      <==> (forall i | 0 <= i < |front| :: !front[i].JNull?) && !last.JNull?
  {
    assert forall i | 0 <= i < |front| :: front[i] == tests[i];
    assert tests[|front|] == last;
  }

  lemma TallyStep(c: Counts, tests: seq<Json>, j: nat)
    requires j < |tests|
    ensures Tally(c, tests[..j + 1]) == Charge(Tally(c, tests[..j]), tests[j])
  {
    assert tests[..j + 1][..j] == tests[..j];
  }

  /** The counts after the callback has seen the tests `tests`, if the walk produced them. */
  function Then(c: Option<Counts>, tests: Option<seq<Json>>): Option<Counts> {
    if c.Some? && tests.Some? then Tally(c.value, tests.value) else None
  }

  /** The tests of two walks done one after the other: the first that throws stops both. */
  function Cat(a: Option<seq<Json>>, b: Option<seq<Json>>): (r: Option<seq<Json>>)
    ensures r.Some? <==> a.Some? && b.Some?
  {
    if a.Some? && b.Some? then Some(a.value + b.value) else None
  }

  /** The tests `walkSuites(suites)` hands to the callback, in visiting order; `None` when the
      walk throws (a truthy value that is not iterable, a `null` suite or spec). A string of
      suites walks its characters, which have neither specs nor nested suites. */
  function SuiteTests(suites: Json): Option<seq<Json>>
    decreases suites, 1
  {
    if suites.JArray? then SuiteListTests(suites.items)
    else if Iterate(Some(suites)).None? then None
    else Some([])
  }

  function SuiteListTests(suites: seq<Json>): Option<seq<Json>>
    decreases suites, 0
  {
    if suites == [] then Some([])
    else Cat(SuiteListTests(suites[..|suites| - 1]), OneSuite(suites[|suites| - 1]))
  }

  /** A suite's own specs' tests, then those of its nested suites (`suite.suites || []`). */
  function OneSuite(suite: Json): Option<seq<Json>>
    decreases suite, 2
  {
    if suite.JNull? then None
    else
      var specs := Iterate(Get(Some(suite), "specs"));
      var nested := Get(Some(suite), "suites");
      Cat(if specs.Some? then SpecListTests(specs.value) else None,
          if Truthy(nested) then SuiteTests(nested.value) else Some([]))
  }

  function SpecListTests(specs: seq<Json>): Option<seq<Json>> {
    if specs == [] then Some([])
    else Cat(SpecListTests(specs[..|specs| - 1]), SpecTests(specs[|specs| - 1]))
  }

  /** `spec.tests || []` as the innermost loop walks it. */
  function SpecTests(spec: Json): Option<seq<Json>> {
    if spec.JNull? then None else Iterate(Get(Some(spec), "tests"))
  }

  lemma CatAssociative(a: Option<seq<Json>>, b: Option<seq<Json>>, c: Option<seq<Json>>)
    ensures Cat(Cat(a, b), c) == Cat(a, Cat(b, c))
  {
    if a.Some? && b.Some? && c.Some? {
      assert (a.value + b.value) + c.value == a.value + (b.value + c.value);
    }
  }

  lemma {:induction false} TallyAppend(c: Counts, a: seq<Json>, b: seq<Json>)
    ensures Tally(c, a + b) == Then(Tally(c, a), Some(b))
    decreases |b|
  {
    if b == [] {
      assert a + b == a;
    } else {
      var b', t := b[..|b| - 1], b[|b| - 1];
      assert (a + b)[..|a + b| - 1] == a + b' && (a + b)[|a + b| - 1] == t;
      TallyAppend(c, a, b');
      assert Tally(c, a + b) == Charge(Tally(c, a + b'), t);
    }
  }

  /** Counting two walks done one after the other is counting the first, then the second. */
  lemma ThenCat(c: Option<Counts>, a: Option<seq<Json>>, b: Option<seq<Json>>)
    ensures Then(c, Cat(a, b)) == Then(Then(c, a), b)
  {
    if c.Some? && a.Some? && b.Some? {
      TallyAppend(c.value, a.value, b.value);
    }
  }

  lemma {:induction false} SuiteListAppend(a: seq<Json>, b: seq<Json>)
    ensures SuiteListTests(a + b) == Cat(SuiteListTests(a), SuiteListTests(b))
    decreases |b|
  {
    if b == [] {
      assert a + b == a;
      if SuiteListTests(a).Some? {
        assert SuiteListTests(a).value + [] == SuiteListTests(a).value;
      }
    } else {
      var b' := b[..|b| - 1];
      assert (a + b)[..|a + b| - 1] == a + b';
      SuiteListAppend(a, b');
      CatAssociative(SuiteListTests(a), SuiteListTests(b'), OneSuite(b[|b| - 1]));
    }
  }

  lemma {:induction false} SpecListAppend(a: seq<Json>, b: seq<Json>)
    ensures SpecListTests(a + b) == Cat(SpecListTests(a), SpecListTests(b))
    decreases |b|
  {
    if b == [] {
      assert a + b == a;
      if SpecListTests(a).Some? {
        assert SpecListTests(a).value + [] == SpecListTests(a).value;
      }
    } else {
      var b' := b[..|b| - 1];
      assert (a + b)[..|a + b| - 1] == a + b';
      SpecListAppend(a, b');
      CatAssociative(SpecListTests(a), SpecListTests(b'), SpecTests(b[|b| - 1]));
    }
  }

  /** Counting the first `i + 1` entries is counting the first `i`, then entry `i`. */
  lemma SuiteListStep(start: Counts, list: seq<Json>, i: nat)
    requires i < |list|
    ensures Then(Some(start), SuiteListTests(list[..i + 1])) == Then(Then(Some(start), SuiteListTests(list[..i])), OneSuite(list[i]))
  {
    assert list[..i + 1][..i] == list[..i];
    ThenCat(Some(start), SuiteListTests(list[..i]), OneSuite(list[i]));
  }

  /** Once counting a prefix throws, counting the whole list throws. */
  lemma SuiteListStops(start: Counts, list: seq<Json>, i: nat)
    requires i <= |list|
    requires Then(Some(start), SuiteListTests(list[..i])).None?
    ensures Then(Some(start), SuiteListTests(list)).None?
  {
    assert list[..i] + list[i..] == list;
    SuiteListAppend(list[..i], list[i..]);
    ThenCat(Some(start), SuiteListTests(list[..i]), SuiteListTests(list[i..]));
  }

  /** Counting the first `i + 1` entries is counting the first `i`, then entry `i`. */
  lemma SpecListStep(start: Counts, list: seq<Json>, i: nat)
    requires i < |list|
    ensures Then(Some(start), SpecListTests(list[..i + 1])) == Then(Then(Some(start), SpecListTests(list[..i])), SpecTests(list[i]))
  {
    assert list[..i + 1][..i] == list[..i];
    ThenCat(Some(start), SpecListTests(list[..i]), SpecTests(list[i]));
  }

  /** Once counting a prefix throws, counting the whole list throws. */
  lemma SpecListStops(start: Counts, list: seq<Json>, i: nat)
    requires i <= |list|
    requires Then(Some(start), SpecListTests(list[..i])).None?
    ensures Then(Some(start), SpecListTests(list)).None?
  {
    assert list[..i] + list[i..] == list;
    SpecListAppend(list[..i], list[i..]);
    ThenCat(Some(start), SpecListTests(list[..i]), SpecListTests(list[i..]));
  }

  /** The counter object `computeCounts` updates from its callback. */
  class Counter {
    var passed: nat
    var failed: nat
    var flaky: nat
    var interrupted: nat
    var timedOut: nat
    var skipped: nat
    var total: nat

    function Value(): Counts
      reads this
    {
      Counts(passed, failed, flaky, interrupted, timedOut, skipped, total)
    }

    constructor ()
      ensures Value() == Zero
    {
      passed, failed, flaky, interrupted, timedOut, skipped, total := 0, 0, 0, 0, 0, 0, 0;
    }

    /** The callback: one test counted, or `false` where reading the test throws. */
    method Record(test: Json) returns (ok: bool)
      modifies this
      ensures ok <==> !test.JNull?
      ensures ok ==> Value() == Add(old(Value()), Classify(test))
      ensures !ok ==> Value() == old(Value())
    {
      if test.JNull? {
        return false;
      }
      total := total + 1;
      match Classify(test) {
        case Flaky => flaky := flaky + 1;
        case TimedOut => timedOut := timedOut + 1;
        case Interrupted => interrupted := interrupted + 1;
        case Skipped => skipped := skipped + 1;
        case Failed => failed := failed + 1;
        case Passed => passed := passed + 1;
      }
      return true;
    }
  }

  /** `walkSuites(suites, collector)` with the counting callback: `false` where it throws. */
  method WalkSuites(suites: Json, counter: Counter) returns (ok: bool)
    modifies counter
    ensures ok <==> Then(Some(old(counter.Value())), SuiteTests(suites)).Some?
    ensures ok ==> counter.Value() == Then(Some(old(counter.Value())), SuiteTests(suites)).value
    decreases suites, 1
  {
    var items := Iterate(Some(suites));
    if items.None? {
      return false;
    }
    if suites.JString? {
      assert Tally(counter.Value(), []) == Some(counter.Value());
      return true;
    }
    var list := items.value;
    var start := counter.Value();
    var i := 0;
    assert list[..0] == [];
    while i < |list|
      invariant 0 <= i <= |list|
      invariant Then(Some(start), SuiteListTests(list[..i])) == Some(counter.Value())
    {
      var suite := list[i];
      SuiteListStep(start, list, i);
      ok := WalkSuite(suite, counter);
      if !ok {
        SuiteListStops(start, list, i + 1);
        return false;
      }
      i := i + 1;
    }
    assert list[..i] == list;
    return true;
  }

  /** One turn of the outer loop of `walkSuites`: a suite's specs, then its nested suites. */
  method WalkSuite(suite: Json, counter: Counter) returns (ok: bool)
    modifies counter
    ensures ok <==> Then(Some(old(counter.Value())), OneSuite(suite)).Some?
    ensures ok ==> counter.Value() == Then(Some(old(counter.Value())), OneSuite(suite)).value
    decreases suite, 2
  {
    if suite.JNull? {
      return false;
    }
    var specs := Iterate(Get(Some(suite), "specs"));
    var nested := Get(Some(suite), "suites");
    var own := if specs.Some? then SpecListTests(specs.value) else None;
    var deeper := if Truthy(nested) then SuiteTests(nested.value) else Some([]);
    ThenCat(Some(counter.Value()), own, deeper);
    if specs.None? {
      return false;
    }
    ok := WalkSpecs(specs.value, counter);
    if !ok {
      return false;
    }
    if Truthy(nested) {
      ok := WalkSuites(nested.value, counter);
    } else {
      assert Tally(counter.Value(), []) == Some(counter.Value());
    }
  }

  /** The middle loop of `walkSuites`: each spec of one suite. */
  method WalkSpecs(list: seq<Json>, counter: Counter) returns (ok: bool)
    modifies counter
    ensures ok <==> Then(Some(old(counter.Value())), SpecListTests(list)).Some?
    ensures ok ==> counter.Value() == Then(Some(old(counter.Value())), SpecListTests(list)).value
  {
    var start := counter.Value();
    var i := 0;
    assert list[..0] == [];
    while i < |list|
      invariant 0 <= i <= |list|
      invariant Then(Some(start), SpecListTests(list[..i])) == Some(counter.Value())
    {
      var spec := list[i];
      SpecListStep(start, list, i);
      ok := WalkSpec(spec, counter);
      if !ok {
        SpecListStops(start, list, i + 1);
        return false;
      }
      i := i + 1;
    }
    assert list[..i] == list;
    return true;
  }

  /** The innermost loop of `walkSuites`: the callback on each of a spec's tests. */
  method WalkSpec(spec: Json, counter: Counter) returns (ok: bool)
    modifies counter
    ensures ok <==> Then(Some(old(counter.Value())), SpecTests(spec)).Some?
    ensures ok ==> counter.Value() == Then(Some(old(counter.Value())), SpecTests(spec)).value
  {
    if spec.JNull? {
      return false;
    }
    var tests := Iterate(Get(Some(spec), "tests"));
    if tests.None? {
      return false;
    }
    ok := CountTests(tests.value, counter);
  }

  /** The callback on each test of `list` in turn, stopping at the first that throws. */
  method CountTests(list: seq<Json>, counter: Counter) returns (ok: bool)
    modifies counter
    ensures ok <==> Tally(old(counter.Value()), list).Some?
    ensures ok ==> counter.Value() == Tally(old(counter.Value()), list).value
  {
    var start := counter.Value();
    var j := 0;
    assert list[..0] == [];
    while j < |list|
      invariant 0 <= j <= |list|
      invariant Tally(start, list[..j]) == Some(counter.Value())
    {
      TallyStep(start, list, j);
      ghost var before := counter.Value();
      ok := counter.Record(list[j]);
      if !ok {
        TallyDefined(start, list);
        return false;
      }
      assert Charge(Some(before), list[j]) == Some(counter.Value());
      j := j + 1;
    }
    assert list[..j] == list;
    return true;
  }

  /** The suites `computeCounts` starts from: `playwrightJson.suites || []`. */
  function TopSuites(report: Json): Json
    requires !report.JNull?
  {
    Or(Get(Some(report), "suites"), Some(JArray([]))).GetOr(JNull)
  }

  /** The counts of a parsed report; `None` where `computeCounts` throws. */
  function CountsOf(report: Json): Option<Counts> {
    if report.JNull? then None else Then(Some(Zero), SuiteTests(TopSuites(report)))
  }

  /** `computeCounts(playwrightJson)`. */
  method ComputeCounts(report: Json) returns (r: Option<Counts>)
    ensures r == CountsOf(report)
  {
    if report.JNull? {
      return None;
    }
    var counter := new Counter();
    var ok := WalkSuites(TopSuites(report), counter);
    r := if ok then Some(counter.Value()) else None;
  }

  /** How many of `tests` the classifier charges to `o`. */
  function Occurrences(tests: seq<Json>, o: Outcome): nat
    requires forall i | 0 <= i < |tests| :: !tests[i].JNull?
  {
    if tests == [] then 0
    else Occurrences(tests[..|tests| - 1], o) + (if Classify(tests[|tests| - 1]) == o then 1 else 0)
  }

  /** Each test the callback sees is counted once in `total` and once in the counter of its
      outcome, so the six counters always add up to `total`. */
  lemma {:induction false} TallyCounts(tests: seq<Json>)
    requires forall i | 0 <= i < |tests| :: !tests[i].JNull?
    ensures Tally(Zero, tests).Some?
    ensures var c := Tally(Zero, tests).value;
      && c.Balanced() && c.total == |tests|
      && c.passed == Occurrences(tests, Passed) && c.failed == Occurrences(tests, Failed)
      && c.flaky == Occurrences(tests, Flaky) && c.interrupted == Occurrences(tests, Interrupted)
      && c.timedOut == Occurrences(tests, TimedOut) && c.skipped == Occurrences(tests, Skipped)
  {
    if tests != [] {
      var front, last := tests[..|tests| - 1], tests[|tests| - 1];
      TallyCounts(front);
      var d, o := Tally(Zero, front).value, Classify(last);
      assert Tally(Zero, tests) == Some(Add(d, o));
      AddCharges(d, o);
    }
  }

  /** What the counts of a report promise: the tests of the walk, each counted exactly once. */
  lemma CountsOfReport(report: Json)
    requires CountsOf(report).Some?
    ensures CountsOf(report).value.Balanced()
    ensures !report.JNull? && SuiteTests(TopSuites(report)).Some?
    ensures CountsOf(report).value.total == |SuiteTests(TopSuites(report)).value|
  {
    assert !report.JNull?;
    var walked := SuiteTests(TopSuites(report));
    assert CountsOf(report) == Then(Some(Zero), walked);
    assert walked.Some?;
    TallyDefined(Zero, walked.value);
    TallyCounts(walked.value);
  }

  /** `Math.max(counts.total - counts.skipped, 0)`. */
  function Executed(c: Counts): nat {
    if c.total >= c.skipped then c.total - c.skipped else 0
  }

  /** `counts.passed + counts.flaky`. */
  function Successful(c: Counts): nat {
    c.passed + c.flaky
  }

  lemma ExecutedOfBalanced(c: Counts)
    requires c.Balanced()
    ensures Executed(c) == c.passed + c.failed + c.flaky + c.interrupted + c.timedOut
    ensures Successful(c) <= Executed(c)
  {
  }

  /** `(successful / executed) * 100` rounded to two decimals, as hundredths: the nearest
      whole number of hundredths, halves rounded up. */
  function RateHundredths(successful: nat, executed: nat): (h: nat)
    requires executed > 0
    ensures h * (2 * executed) <= 2 * successful * 10000 + executed < (h + 1) * (2 * executed)
    ensures successful <= executed ==> h <= 10000
  {
    var n, d := 2 * successful * 10000 + executed, 2 * executed;
    DivisionBounds(n, d);
    assert successful <= executed ==> n / d <= 10000 by {
      if successful <= executed {
        QuotientBelow(n, d, 10001);
      }
    }
    n / d
  }

  lemma DivisionBounds(n: nat, d: nat)
    requires d > 0
    ensures (n / d) * d <= n < (n / d + 1) * d
  {
  }

  lemma QuotientBelow(n: nat, d: nat, k: nat)
    requires d > 0 && n < k * d
    ensures n / d < k
  {
    var q := n / d;
    DivisionBounds(n, d);
    assert q * d < k * d;
    ProductOrder(q, k, d);
  }

  lemma ProductOrder(a: nat, b: nat, d: nat)
    requires d > 0 && a * d < b * d
    ensures a < b
  {
  }

  /** The hundredths as the text `toFixed(2)` prints. */
  function TwoDecimals(h: nat): (t: string)
    ensures |t| >= 4 && t[|t| - 3] == '.'
    ensures Text.AllDigits(t[..|t| - 3]) && Text.DigitsValue(t[..|t| - 3]) == h / 100
    ensures Text.AllDigits(t[|t| - 2..]) && Text.DigitsValue(t[|t| - 2..]) == h % 100
  {
    var whole := Text.NatToString(h / 100);
    var cents := h % 100;
    var fraction := [Text.DigitChar(cents / 10), Text.DigitChar(cents % 10)];
    assert fraction[..1][..0] == [] && fraction[..1] == [fraction[0]];
    assert Text.DigitsValue(fraction[..1]) == cents / 10;
    assert Text.DigitsValue(fraction) == 10 * (cents / 10) + cents % 10;
    var t := whole + "." + fraction;
    assert t[..|t| - 3] == whole && t[|t| - 2..] == fraction;
    t
  }

  /** `Number(t)` in hundredths, for a text of digits, a point and two digits; `None` for any
      other text. */
  function DecimalHundredths(t: string): Option<nat> {
    if |t| >= 4 && t[|t| - 3] == '.' && Text.AllDigits(t[..|t| - 3]) && Text.AllDigits(t[|t| - 2..])
    then Some(100 * Text.DigitsValue(t[..|t| - 3]) + Text.DigitsValue(t[|t| - 2..]))
    else None
  }

  /** The success rate text: exactly `'0.00'` when nothing was executed. */
  function SuccessRate(c: Counts): (t: string)
    ensures Executed(c) == 0 ==> t == "0.00"
    ensures Executed(c) > 0 ==> t == TwoDecimals(RateHundredths(Successful(c), Executed(c)))
  {
    if Executed(c) == 0 then "0.00" else TwoDecimals(RateHundredths(Successful(c), Executed(c)))
  }

  /** The rate in hundredths, as `Number(successRate)` reads it back. */
  function RateValue(c: Counts): nat {
    if Executed(c) == 0 then 0 else RateHundredths(Successful(c), Executed(c))
  }

  /** Reading the printed rate back as a number gives exactly the rate in hundredths, so the
      indicator's thresholds compare the rounded rate the report prints. */
  lemma RateReadsBack(c: Counts)
    ensures DecimalHundredths(SuccessRate(c)) == Some(RateValue(c))
  {
    if Executed(c) == 0 {
      var t := "0.00";
      assert t[..|t| - 3] == "0" && t[|t| - 2..] == "00";
      assert "00"[..1] == "0" && "0"[..0] == "";
    } else {
      TwoDecimalsReadsBack(RateHundredths(Successful(c), Executed(c)));
    }
  }

  /** A number of hundredths written with two decimals reads back as itself. */
  lemma TwoDecimalsReadsBack(h: nat)
    ensures DecimalHundredths(TwoDecimals(h)) == Some(h)
  {
    var t := TwoDecimals(h);
    assert 100 * (h / 100) + h % 100 == h;
  }

  /** 8 passed and 1 flaky out of 10 with 1 skipped is a rate of exactly 100%. */
  lemma RateExample()
    ensures SuccessRate(Counts(8, 0, 1, 0, 0, 1, 10)) == "100.00"
  {
    var c := Counts(8, 0, 1, 0, 0, 1, 10);
    assert Executed(c) == 9 && Successful(c) == 9;
    assert RateHundredths(9, 9) == 10000;
    assert Text.NatToString(100) == "100" by {
      assert Text.NatToString(10) == "10" by {
        assert Text.NatToString(1) == "1";
      }
    }
  }

  /** A balanced report's rate is at most 100%. */
  lemma RateAtMostHundred(c: Counts)
    requires c.Balanced()
    ensures RateValue(c) <= 10000
  {
    ExecutedOfBalanced(c);
  }

  datatype Light = Green | Yellow | Red

  /** The icon in front of the success rate: at least 90% green, at least 70% yellow. */
  function Indicator(hundredths: nat): (l: Light)
    ensures l == Green <==> hundredths >= 9000
    ensures l == Red <==> hundredths < 7000
  {
    if hundredths >= 9000 then Green else if hundredths >= 7000 then Yellow else Red
  }

  /** `extractVersion(versionFilePath)`: `'unknown'` when the file is missing, cannot be read or
      yields nothing after trimming. */
  function ExtractVersion(file: RunLog.FileRead): (v: string)
    ensures v != ""
    ensures !file.Content? ==> v == "unknown"
    ensures v == "unknown" || Text.Trim(v) == v
    ensures file.Content? ==> v == if SoftwareVersion.Declared(file.text) == "" then "unknown" else SoftwareVersion.Declared(file.text)
  {
    match file
    case Content(raw) =>
      var t := SoftwareVersion.Declared(raw);
      SoftwareVersion.DeclaredIsTrimmed(raw);
      if t == "" then "unknown" else t
    case _ => "unknown"
  }

  /** A blank version file reads as `'unknown'`. */
  lemma BlankVersionFile(raw: string)
    requires Text.AllSpace(raw)
    ensures ExtractVersion(RunLog.Content(raw)) == "unknown"
  {
    SoftwareVersion.BlankDeclaresNothing(raw);
  }

  /** A version file that is the labelled line gives the value after the label. */
  lemma LabelledVersionFile(value: string)
    requires value != [] && !Text.IsSpace(value[0])
    requires forall k | 0 <= k < |value| :: !Text.IsLineTerminator(value[k])
    ensures ExtractVersion(RunLog.Content("SOFTWARE VERSION: " + value)) == Text.Trim(value)
  {
    var raw := "SOFTWARE VERSION: " + value;
    assert raw[0] == 'S';
    assert forall k | 0 <= k < |raw| :: raw[k] != '\n' by {
      assert forall k | 18 <= k < |raw| :: raw[k] == value[k - 18];
    }
    assert Text.IndexOf(raw, '\n').None?;
    assert Text.SplitLines(raw) == [raw];
    assert !Text.AllSpace(raw);
    assert SoftwareVersion.FirstLine(raw) == raw;
    SoftwareVersion.LabelledLine(value);
  }

  /** What the script writes to `ci-test-summary.json`, and the icon of its Markdown. */
  datatype Summary = Summary(softwareVersion: string, runAt: string, sourceFile: string,
                             counts: Counts, successRate: string, icon: Light)

  /** `main()`: `None` where it throws (the report is missing, unreadable, not JSON, the
      walk throws, or creating the output directory or writing the JSON file, the Markdown
      file or the step summary fails, which `writable` says). `runAt` is the clock reading
      and `sourceFile` the report's relative path. */
  method Generate(report: RunLog.FileRead, parse: string -> Option<Json>, version: RunLog.FileRead,
                  runAt: string, sourceFile: string, writable: bool) returns (r: Option<Summary>)
    ensures r.Some? <==> report.Content? && parse(report.text).Some? && CountsOf(parse(report.text).value).Some?
                         && writable
    ensures !writable ==> r.None?
    ensures r.Some? ==> r.value.counts == CountsOf(parse(report.text).value).value
    ensures r.Some? ==> r.value.counts.Balanced()
    ensures r.Some? ==> r.value.successRate == SuccessRate(r.value.counts)
    ensures r.Some? ==> r.value.icon == Indicator(RateValue(r.value.counts))
    ensures r.Some? ==> r.value.softwareVersion == ExtractVersion(version)
    ensures r.Some? ==> r.value.runAt == runAt && r.value.sourceFile == sourceFile
  {
    if !report.Content? {
      return None;
    }
    var json := parse(report.text);
    if json.None? {
      return None;
    }
    var counts := ComputeCounts(json.value);
    if counts.None? {
      return None;
    }
    CountsOfReport(json.value);
    var c := counts.value;
    if !writable {
      return None;
    }
    r := Some(Summary(ExtractVersion(version), runAt, sourceFile, c, SuccessRate(c), Indicator(RateValue(c))));
  }
}
