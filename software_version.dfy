/** The version line both reporting scripts look for in the `VERSION` file: the first line
    that is not blank, searched with the regular expression
    `/SOFTWARE\s*VERSION\s*:\s*(.+)/i`. The expression is modelled as an explicit scan with
    the same greedy and leftmost choices the regular expression engine makes. */
module SoftwareVersion {
  import opened Wrappers
  import Text

  /** `lines.find(l => l.trim() !== '') || ''`. */
  function FirstNonBlank(lines: seq<string>): (r: string)
    ensures r == "" ==> forall i | 0 <= i < |lines| :: Text.AllSpace(lines[i])
    ensures r != "" ==> exists i | 0 <= i < |lines| ::
      (lines[i] == r && !Text.AllSpace(r) && forall j | 0 <= j < i :: Text.AllSpace(lines[j]))
  {
    if lines == [] then ""
    else if !Text.AllSpace(lines[0]) then
      assert lines[0] != "";
      lines[0]
    else
      var r := FirstNonBlank(lines[1..]);
      assert forall i | 1 <= i < |lines| :: lines[i] == lines[1..][i - 1];
      r
  }

  /** The end of the run of white space that starts at `i`: how far a greedy `\s*` reaches. */
  function SpaceRunEnd(s: string, i: nat): (e: nat)
    requires i <= |s|
    ensures i <= e <= |s|
    ensures forall k | i <= k < e :: Text.IsSpace(s[k])
    ensures e == |s| || !Text.IsSpace(s[e])
    decreases |s| - i
  {
    if i < |s| && Text.IsSpace(s[i]) then SpaceRunEnd(s, i + 1) else i
  }

  /** The first line terminator at or after `i`: how far a greedy `.+` reaches. */
  function LineEnd(s: string, i: nat): (e: nat)
    requires i <= |s|
    ensures i <= e <= |s|
    ensures forall k | i <= k < e :: !Text.IsLineTerminator(s[k])
    ensures e == |s| || Text.IsLineTerminator(s[e])
    decreases |s| - i
  {
    if i < |s| && !Text.IsLineTerminator(s[i]) then LineEnd(s, i + 1) else i
  }

  /** Where `\s*(.+)` starts its capture when the white space after the colon spans `c..m`:
      `\s*` gives back characters until `.` can match one, so the capture starts at the last
      position in `c..m` that holds a character other than a line terminator. */
  function CaptureStart(s: string, c: nat, m: nat): (k: Option<nat>)
    requires c <= m <= |s|
    ensures k.Some? ==> c <= k.value <= m && k.value < |s| && !Text.IsLineTerminator(s[k.value])
    ensures k.Some? ==> forall j | k.value < j <= m :: j == |s| || Text.IsLineTerminator(s[j])
    ensures k.None? ==> forall j | c <= j <= m :: j == |s| || Text.IsLineTerminator(s[j])
    decreases m - c
  {
    if m < |s| && !Text.IsLineTerminator(s[m]) then Some(m)
    else if m == c then None
    else CaptureStart(s, c, m - 1)
  }

  /** The lower-case word `w` sits in `s` at index `p`, ignoring ASCII case. */
  predicate WordAt(s: string, w: string, p: nat) {
    p + |w| <= |s| && forall j | 0 <= j < |w| :: Text.LowerChar(s[p + j]) == w[j]
  }

  /** Every character of `s[i..j]` is white space. */
  predicate SpacesBetween(s: string, i: nat, j: nat) {
    i <= j <= |s| && forall k | i <= k < j :: Text.IsSpace(s[k])
  }

  /** The expression can match at `p` with its group starting at `k`: from `p`, ignoring case,
      `s` spells "software", white space, "version" (from `a`), white space, a colon (at `b`)
      and white space up to `k`, and `s[k]` is a character `.` matches. */
  predicate GroupStart(s: string, p: nat, a: nat, b: nat, k: nat) {
    && WordAt(s, "software", p) && p + 8 <= a && SpacesBetween(s, p + 8, a) && WordAt(s, "version", a)
    && a + 7 <= b < |s| && SpacesBetween(s, a + 7, b) && s[b] == ':'
    && b < k < |s| && SpacesBetween(s, b + 1, k) && !Text.IsLineTerminator(s[k])
  }

  /** The capture of a match that starts at index `p`, if one does: it runs from where the
      group starts to the end of that line. */
  function MatchAt(s: string, p: nat): (r: Option<string>)
    ensures r.Some? ==> r.value != "" && forall k | 0 <= k < |r.value| :: !Text.IsLineTerminator(r.value[k])
    ensures r.Some? ==> WordAt(s, "software", p)
    ensures r.Some? ==> exists k | p < k < |s| :: r.value == s[k..LineEnd(s, k)]
  {
    if !WordAt(s, "software", p) then None
    else
      var a := SpaceRunEnd(s, p + 8);
      if !WordAt(s, "version", a) then None
      else
        var b := SpaceRunEnd(s, a + 7);
        if b == |s| || s[b] != ':' then None
        else
          var m := SpaceRunEnd(s, b + 1);
          match CaptureStart(s, b + 1, m)
          case None => None
          case Some(k) =>
            var e := LineEnd(s, k);
            assert forall j | 0 <= j < e - k :: s[k..e][j] == s[k + j];
            Some(s[k..e])
  }

  /** A run of white space that stops at `j` is the run `SpaceRunEnd` finds. */
  lemma {:induction false} SpaceRunEndsAt(s: string, i: nat, j: nat)
    requires SpacesBetween(s, i, j) && (j == |s| || !Text.IsSpace(s[j]))
    ensures SpaceRunEnd(s, i) == j
    decreases j - i
  {
    if i < j {
      SpaceRunEndsAt(s, i + 1, j);
    }
  }

  /** A group start fixes where "version" and the colon are, and lies within the white space
      after the colon. */
  lemma GroupStartBounds(s: string, p: nat, a: nat, b: nat, k: nat)
    requires GroupStart(s, p, a, b, k)
    ensures a == SpaceRunEnd(s, p + 8) && b == SpaceRunEnd(s, a + 7) && k <= SpaceRunEnd(s, b + 1)
  {
    assert Text.LowerChar(s[a + 0]) == "version"[0] == 'v';
    SpaceRunEndsAt(s, p + 8, a);
    SpaceRunEndsAt(s, a + 7, b);
  }

  /** The group `MatchAt` captures, and where it starts. */
  function GroupOf(s: string, p: nat): (k: nat)
    requires MatchAt(s, p).Some?
    ensures exists a: nat, b: nat :: GroupStart(s, p, a, b, k)
    ensures MatchAt(s, p).value == s[k..LineEnd(s, k)]
  {
    var a := SpaceRunEnd(s, p + 8);
    var b := SpaceRunEnd(s, a + 7);
    var k := CaptureStart(s, b + 1, SpaceRunEnd(s, b + 1)).value;
    assert GroupStart(s, p, a, b, k);
    k
  }

  /** Every possible group start makes `MatchAt` match, no later than where its group starts. */
  lemma GroupStartMatches(s: string, p: nat, a: nat, b: nat, k: nat)
    requires GroupStart(s, p, a, b, k)
    ensures MatchAt(s, p).Some? && k <= GroupOf(s, p)
  {
    GroupStartBounds(s, p, a, b, k);
    match CaptureStart(s, b + 1, SpaceRunEnd(s, b + 1))
    case None =>
    case Some(_) =>
  }

  /** `MatchAt` is the regular expression's choice at `p`: there is a match exactly when some
      group start is possible, and the group then starts at the last possible position (the
      greedy `\s*` gives back as little as it must) and runs to the end of the line (the
      greedy `.+`). */
  lemma MatchAtMeaning(s: string, p: nat)
    ensures MatchAt(s, p).None? <==> forall a: nat, b: nat, k: nat :: !GroupStart(s, p, a, b, k)
    ensures MatchAt(s, p).Some? ==> exists a: nat, b: nat, k: nat :: (GroupStart(s, p, a, b, k) &&
      MatchAt(s, p).value == s[k..LineEnd(s, k)] &&
      forall a': nat, b': nat, k': nat :: GroupStart(s, p, a', b', k') ==> k' <= k)
  {
    forall a: nat, b: nat, k: nat | GroupStart(s, p, a, b, k)
      ensures MatchAt(s, p).Some? && k <= GroupOf(s, p)
    {
      GroupStartMatches(s, p, a, b, k);
    }
    if MatchAt(s, p).Some? {
      var k := GroupOf(s, p);
      var a: nat, b: nat :| GroupStart(s, p, a, b, k);
    }
  }

  /** Where the leftmost match that starts at `p` or later starts. */
  function FirstMatch(s: string, p: nat): (q: Option<nat>)
    requires p <= |s|
    ensures q.Some? ==> p <= q.value <= |s|
    decreases |s| - p
  {
    if MatchAt(s, p).Some? then Some(p)
    else if p == |s| then None
    else FirstMatch(s, p + 1)
  }

  /** `FirstMatch` reports a position where a match starts. */
  lemma {:induction false} FirstMatchMatches(s: string, p: nat)
    requires p <= |s| && FirstMatch(s, p).Some?
    ensures MatchAt(s, FirstMatch(s, p).value).Some?
    decreases |s| - p
  {
    if MatchAt(s, p).None? {
      FirstMatchMatches(s, p + 1);
    }
  }

  /** A match at `i` is found: `FirstMatch` reports it or one further left. */
  lemma {:induction false} FirstMatchFinds(s: string, p: nat, i: nat)
    requires p <= i <= |s| && MatchAt(s, i).Some?
    ensures FirstMatch(s, p).Some? && FirstMatch(s, p).value <= i
    decreases i - p
  {
    if MatchAt(s, p).None? {
      FirstMatchFinds(s, p + 1, i);
    }
  }

  /** No match starts left of the one `FirstMatch` reports. */
  lemma {:induction false} NothingBeforeFirstMatch(s: string, p: nat, i: nat)
    requires p <= i <= |s|
    requires FirstMatch(s, p).Some? && i < FirstMatch(s, p).value
    ensures MatchAt(s, i).None?
    decreases i - p
  {
    assert MatchAt(s, p).None? && p < |s|;
    assert FirstMatch(s, p) == FirstMatch(s, p + 1);
    if i > p {
      NothingBeforeFirstMatch(s, p + 1, i);
    }
  }

  /** `line.match(/SOFTWARE\s*VERSION\s*:\s*(.+)/i)`, as its first group. */
  function VersionField(line: string): (r: Option<string>)
    ensures r.Some? ==> r.value != ""
  {
    match FirstMatch(line, 0)
    case None => None
    case Some(p) => MatchAt(line, p)
  }

  /** The version file's first non-blank line. */
  function FirstLine(raw: string): string {
    FirstNonBlank(Text.SplitLines(raw))
  }

  /** The version the file declares: the labelled value of its first non-blank line, or that
      whole line when it carries no label, trimmed; `""` when the file is blank. */
  function Declared(raw: string): string {
    var line := FirstLine(raw);
    var picked := match VersionField(line) case Some(field) => field case None => line;
    Text.Trim(picked)
  }

  /** The version field of a line is the group of its leftmost match, if any position of it
      matches. */
  lemma VersionFieldMeaning(line: string, q: nat)
    ensures (forall i | 0 <= i <= |line| :: MatchAt(line, i).None?) ==> VersionField(line).None?
    ensures q <= |line| && MatchAt(line, q).Some? && (forall i | 0 <= i < q :: MatchAt(line, i).None?) ==>
      VersionField(line) == MatchAt(line, q)
  {
    match FirstMatch(line, 0)
    case None =>
      if q <= |line| && MatchAt(line, q).Some? {
        FirstMatchFinds(line, 0, q);
      }
    case Some(p) =>
      FirstMatchMatches(line, 0);
      if q <= |line| && MatchAt(line, q).Some? && (forall i | 0 <= i < q :: MatchAt(line, i).None?) {
        FirstMatchFinds(line, 0, q);
      }
  }

  /** The declared version is the trimmed group of the leftmost match on the first non-blank
      line, or that whole line trimmed when no position of it matches. */
  lemma DeclaredMeaning(raw: string, q: nat)
    ensures var line := FirstLine(raw);
      (forall i | 0 <= i <= |line| :: MatchAt(line, i).None?) ==> Declared(raw) == Text.Trim(line)
    ensures var line := FirstLine(raw);
      q <= |line| && MatchAt(line, q).Some? && (forall i | 0 <= i < q :: MatchAt(line, i).None?) ==>
        Declared(raw) == Text.Trim(MatchAt(line, q).value)
  {
    VersionFieldMeaning(FirstLine(raw), q);
  }

  /** The declared version carries no surrounding white space. */
  lemma DeclaredIsTrimmed(raw: string)
    ensures Text.Trim(Declared(raw)) == Declared(raw)
  {
    var line := FirstLine(raw);
    Text.TrimIdempotent(match VersionField(line) case Some(field) => field case None => line);
  }

  /** A blank version file declares nothing. */
  lemma BlankDeclaresNothing(raw: string)
    requires Text.AllSpace(raw)
    ensures Declared(raw) == ""
  {
    BlankTextHasNoLine(raw);
    assert VersionField("").None? by {
      assert !WordAt("", "software", 0);
      assert FirstMatch("", 0).None?;
    }
    assert Text.Trim("") == "";
  }

  /** A line written as the label the scripts expect yields exactly the value after it. */
  lemma LabelledLine(v: string)
    requires v != [] && !Text.IsSpace(v[0])
    requires forall k | 0 <= k < |v| :: !Text.IsLineTerminator(v[k])
    ensures VersionField("SOFTWARE VERSION: " + v) == Some(v)
  {
    var s := "SOFTWARE VERSION: " + v;
    assert s[..18] == "SOFTWARE VERSION: ";
    assert WordAt(s, "software", 0);
    assert SpaceRunEnd(s, 8) == 9 by {
      assert SpaceRunEnd(s, 9) == 9;
    }
    assert WordAt(s, "version", 9);
    assert SpaceRunEnd(s, 16) == 16;
    assert s[16] == ':';
    assert s[18] == v[0];
    assert SpaceRunEnd(s, 17) == 18 by {
      assert SpaceRunEnd(s, 18) == 18;
    }
    assert CaptureStart(s, 17, 18) == Some(18);
    LineEndAtEnd(s, 18);
    assert s[18..|s|] == v;
    assert MatchAt(s, 0) == Some(v);
    assert FirstMatch(s, 0) == Some(0);
  }

  lemma {:induction false} LineEndAtEnd(s: string, i: nat)
    requires i <= |s|
    requires forall k | i <= k < |s| :: !Text.IsLineTerminator(s[k])
    ensures LineEnd(s, i) == |s|
    decreases |s| - i
  {
    if i < |s| {
      LineEndAtEnd(s, i + 1);
    }
  }

  lemma WordAtIgnoringCase(s: string, q: nat)
    ensures WordAt(s, "software", q) <==> Text.OccursAtIgnoringCase(s, "SOFTWARE", q)
  {
    if q + 8 <= |s| {
      assert Text.Lower("SOFTWARE") == "software";
      assert WordAt(s, "software", q) <==> Text.Lower(s[q..q + 8]) == "software";
    }
  }

  /** A line that has no "software" in it, in any case, has no version field. */
  lemma UnlabelledLine(line: string)
    requires forall q | 0 <= q <= |line| :: !Text.OccursAtIgnoringCase(line, "SOFTWARE", q)
    ensures VersionField(line).None?
  {
    forall q | 0 <= q <= |line|
      ensures MatchAt(line, q).None?
    {
      WordAtIgnoringCase(line, q);
    }
  }

  /** A text that is blank all through has no non-blank line. */
  lemma {:induction false} BlankTextHasNoLine(raw: string)
    requires Text.AllSpace(raw)
    ensures FirstLine(raw) == ""
    decreases |raw|
  {
    var lines := Text.SplitLines(raw);
    match Text.IndexOf(raw, '\n')
    case None =>
      assert lines == [raw];
    case Some(i) =>
      var rest := raw[i + 1..];
      assert Text.AllSpace(rest);
      BlankTextHasNoLine(rest);
      assert lines == [Text.StripCarriageReturn(raw[..i])] + Text.SplitLines(rest);
      assert Text.AllSpace(Text.StripCarriageReturn(raw[..i]));
  }
}
