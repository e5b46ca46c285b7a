/** The append-only run log both the reporter and the run wrapper keep: a file that holds one
    JSON array, read, extended by one entry and written back whole. */
module RunLog {
  import opened Wrappers
  import opened Js
  import Text

  /** What reading a file gives: it does not exist, reading it throws, or its text. */
  datatype FileRead = Missing | Unreadable | Content(text: string)

  /** The array `existing` starts from: a missing or unreadable log, one that is empty after
      trimming, one that does not parse and one that parses to something other than an array
      all count as the empty list. */
  function PriorRuns(log: FileRead, parse: string -> Option<Json>): (runs: seq<Json>)
    ensures !log.Content? ==> runs == []
    ensures log.Content? && Text.AllSpace(log.text) ==> runs == []
    ensures runs != [] ==> log.Content? && parse(Text.Trim(log.text)) == Some(JArray(runs))
    ensures log.Content? && !Text.AllSpace(log.text) && IsArray(parse(Text.Trim(log.text))) ==>
      runs == parse(Text.Trim(log.text)).value.items
  {
    if !log.Content? then []
    else
      var content := Text.Trim(log.text);
      if content == "" then []
      else if IsArray(parse(content)) then parse(content).value.items
      else []
  }

  /** The array written back: the prior runs with `entry` pushed at the end. */
  function Appended(log: FileRead, entry: Json, parse: string -> Option<Json>): (runs: seq<Json>)
    ensures |runs| == |PriorRuns(log, parse)| + 1
    ensures runs[..|runs| - 1] == PriorRuns(log, parse) && runs[|runs| - 1] == entry
  {
    PriorRuns(log, parse) + [entry]
  }

  /** The log after a successful write of the extended array. */
  function Written(log: FileRead, entry: Json, parse: string -> Option<Json>, stringify: Json -> string): FileRead {
    Content(stringify(JArray(Appended(log, entry, parse))))
  }

  /** The log after writing `entries` one after the other. */
  function WrittenAll(log: FileRead, entries: seq<Json>, parse: string -> Option<Json>, stringify: Json -> string): FileRead {
    if entries == [] then log
    else Written(WrittenAll(log, entries[..|entries| - 1], parse, stringify), entries[|entries| - 1], parse, stringify)
  }

  /** `parse` reads back every array of well-keyed values `stringify` writes, and that text is
      never blank (as `JSON.stringify`'s "[…]" is not); and, like `JSON.parse`, it only ever
      produces well-keyed values. */
  ghost predicate ReadsBack(parse: string -> Option<Json>, stringify: Json -> string) {
    && (forall xs: seq<Json> {:trigger stringify(JArray(xs))} :: WellKeyed(JArray(xs)) ==>
          Text.Trim(stringify(JArray(xs))) != "" && parse(Text.Trim(stringify(JArray(xs)))) == Some(JArray(xs)))
    && (forall t: string {:trigger parse(t)} :: parse(t).Some? ==> WellKeyed(parse(t).value))
  }

  /** When the encoding reads back, one append of a well-keyed entry leaves the prior runs in
      place and adds the entry last. */
  lemma WrittenReadsBack(log: FileRead, entry: Json, parse: string -> Option<Json>, stringify: Json -> string)
    requires ReadsBack(parse, stringify)
    requires WellKeyed(entry)
    ensures PriorRuns(Written(log, entry, parse, stringify), parse) == PriorRuns(log, parse) + [entry]
  {
    var xs := Appended(log, entry, parse);
    AppendedWellKeyed(log, entry, parse, stringify);
    var text := stringify(JArray(xs));
    assert Text.Trim(text) != "" && parse(Text.Trim(text)) == Some(JArray(xs));
    assert !Text.AllSpace(text);
  }

  /** The array written back is well keyed when the entry is. */
  lemma AppendedWellKeyed(log: FileRead, entry: Json, parse: string -> Option<Json>, stringify: Json -> string)
    requires ReadsBack(parse, stringify)
    requires WellKeyed(entry)
    ensures WellKeyed(JArray(Appended(log, entry, parse)))
  {
    var prior := PriorRuns(log, parse);
    if prior != [] {
      assert WellKeyed(parse(Text.Trim(log.text)).value);
    }
    var xs := Appended(log, entry, parse);
    forall i | 0 <= i < |xs|
      ensures WellKeyed(xs[i])
    {
      if i < |prior| {
        assert xs[i] == xs[..|xs| - 1][i] == prior[i];
      }
    }
  }

  /** Successive runs accumulate: the log ends up holding the runs it held before and then
      every appended well-keyed entry, in order. */
  lemma {:induction false} WrittenAllAccumulates(log: FileRead, entries: seq<Json>, parse: string -> Option<Json>, stringify: Json -> string)
    requires ReadsBack(parse, stringify)
    requires forall i | 0 <= i < |entries| :: WellKeyed(entries[i])
    ensures PriorRuns(WrittenAll(log, entries, parse, stringify), parse) == PriorRuns(log, parse) + entries
  {
    if entries != [] {
      var front, last := entries[..|entries| - 1], entries[|entries| - 1];
      var before := WrittenAll(log, front, parse, stringify);
      calc {
        PriorRuns(WrittenAll(log, entries, parse, stringify), parse);
        PriorRuns(Written(before, last, parse, stringify), parse);
        { WrittenReadsBack(before, last, parse, stringify); }
        PriorRuns(before, parse) + [last];
        { WrittenAllAccumulates(log, front, parse, stringify); }
        PriorRuns(log, parse) + front + [last];
        { FrontAndLast(entries); }
        PriorRuns(log, parse) + entries;
      }
    }
  }

  lemma FrontAndLast<T>(s: seq<T>)
    requires s != []
    ensures s[..|s| - 1] + [s[|s| - 1]] == s
  {
  }
}
