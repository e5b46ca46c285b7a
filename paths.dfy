/** File paths with the meaning Node's `path` module gives them on POSIX systems; a `..`
    segment is kept as a name rather than cancelling the name before it. */
module Paths {
  import Text
  import opened Wrappers

  /** Index just past the last character of `p` that is not `/` (0 when there is none). */
  function NameEnd(p: string): (e: nat)
    ensures e <= |p|
    ensures forall k | e <= k < |p| :: p[k] == '/'
    ensures e == 0 || p[e - 1] != '/'
  {
    if p != [] && p[|p| - 1] == '/' then NameEnd(p[..|p| - 1]) else |p|
  }

  /** Index of the first character of the name that ends at `e`: just past the `/` before it. */
  function NameStart(p: string, e: nat): (s: nat)
    requires e <= |p|
    ensures s <= e
    ensures forall k | s <= k < e :: p[k] != '/'
    ensures s == 0 || p[s - 1] == '/'
  {
    if e == 0 || p[e - 1] == '/' then e else NameStart(p, e - 1)
  }

  /** `path.basename(p)`: the last name in `p`, trailing separators ignored. */
  function Basename(p: string): (b: string)
    ensures '/' !in b
  {
    var e := NameEnd(p);
    var s := NameStart(p, e);
    assert forall k | 0 <= k < e - s :: p[s..e][k] == p[s + k];
    p[s..e]
  }

  /** `path.dirname(p)`: `p` without its last name, as Node computes it. */
  function Dirname(p: string): string {
    var e := NameEnd(p);
    if e == 0 then (if p == [] then "." else "/")
    else
      var s := NameStart(p, e);
      if s == 0 then "."
      else if s == 1 then "/"
      else if s == 2 && p[0] == '/' then "//"
      else p[..s - 1]
  }

  /** A name `Segments` can produce: not empty, not `.`, no separator. */
  predicate IsSegment(name: string) {
    name != "" && name != "." && '/' !in name
  }

  /** `path.normalize(p)` for a path without `..` segments: empty names and `.` dropped, a
      leading and a trailing separator kept, `.` (or `./`) for a path that names nothing. */
  function Normalize(p: string): string {
    if p == "" then "." else Render(Segments(p), p[0] == '/', p[|p| - 1] == '/')
  }

  /** The names, after a separator when `absolute`, separated by single separators and
      followed by one when `trailing`. */
  function Render(names: seq<string>, absolute: bool, trailing: bool): string {
    if names == [] then (if absolute then "/" else if trailing then "./" else ".")
    else if |names| == 1 then (if absolute then "/" else "") + names[0] + (if trailing then "/" else "")
    else Render(names[..|names| - 1], absolute, false) + "/" + names[|names| - 1] + (if trailing then "/" else "")
  }

  /** `path.join(dir, name)`: the non-empty arguments joined by a separator, then normalised. */
  function Join(dir: string, name: string): string {
    Normalize(if dir == "" then name else if name == "" then dir else dir + "/" + name)
  }

  /** A name that can stand for one entry of a directory. */
  predicate IsEntryName(name: string) {
    name != "" && name != "." && name != ".." && '/' !in name
  }

  lemma {:induction false} NameStartIsAfterSlash(p: string, e: nat, d: nat)
    requires d <= e <= |p|
    requires forall k | d <= k < e :: p[k] != '/'
    requires d == 0 || p[d - 1] == '/'
    ensures NameStart(p, e) == d
    decreases e
  {
    if e > d {
      NameStartIsAfterSlash(p, e - 1, d);
    }
  }

  /** The names a path walks through: separated by `/`, empty names and `.` left out. */
  function Segments(p: string): seq<string>
    decreases |p|
  {
    match Text.IndexOf(p, '/')
    case None => Keep(p)
    case Some(i) => Keep(p[..i]) + Segments(p[i + 1..])
  }

  function Keep(name: string): seq<string> {
    if name == "" || name == "." then [] else [name]
  }

  lemma {:induction false} SegmentsAreSegments(p: string)
    ensures forall i | 0 <= i < |Segments(p)| :: IsSegment(Segments(p)[i])
    decreases |p|
  {
    match Text.IndexOf(p, '/')
    case None =>
    case Some(i) =>
      assert forall k | 0 <= k < i :: p[..i][k] == p[k] && p[k] in p[..i];
      SegmentsAreSegments(p[i + 1..]);
  }

  lemma {:induction false} SegmentsAppend(x: string, name: string)
    requires '/' !in name
    ensures Segments(x + "/" + name) == Segments(x) + Keep(name)
    decreases |x|
  {
    var p := x + "/" + name;
    match Text.IndexOf(x, '/')
    case None =>
      assert p[..|x|] == x;
      Text.IndexOfFirst(p, '/', |x|);
      assert p[..|x|] == x && p[|x| + 1..] == name;
      assert Text.IndexOf(name, '/').None?;
    case Some(i) =>
      assert p[..i] == x[..i];
      Text.IndexOfFirst(p, '/', i);
      assert p[i + 1..] == x[i + 1..] + "/" + name;
      SegmentsAppend(x[i + 1..], name);
  }

  lemma SegmentsOfName(name: string)
    requires '/' !in name
    ensures Segments(name) == Keep(name)
  {
    assert Text.IndexOf(name, '/').None?;
  }

  /** A leading separator adds no name. */
  lemma SegmentsAfterSlash(x: string)
    ensures Segments("/" + x) == Segments(x)
  {
    Text.IndexOfFirst("/" + x, '/', 0);
    assert ("/" + x)[1..] == x;
  }

  /** Nor does a trailing one. */
  lemma SegmentsBeforeSlash(x: string)
    ensures Segments(x + "/") == Segments(x)
  {
    SegmentsAppend(x, "");
    assert x + "/" + "" == x + "/";
  }

  /** The spellings of a path that names nothing. */
  lemma SegmentsOfNothing()
    ensures Segments(".") == [] && Segments("/") == [] && Segments("./") == []
  {
    SegmentsOfName(".");
    SegmentsOfName("");
    SegmentsAfterSlash("");
    assert "/" + "" == "/";
    SegmentsBeforeSlash(".");
    assert "." + "/" == "./";
  }

  /** A trailing separator is one more character. */
  lemma RenderTrailing(names: seq<string>, absolute: bool)
    requires names != []
    ensures Render(names, absolute, true) == Render(names, absolute, false) + "/"
  {
  }

  /** Rendered names split back into the same names; the text starts with a separator
      exactly when `absolute`, and for some names ends with one exactly when `trailing`. */
  lemma {:induction false} SegmentsOfRender(names: seq<string>, absolute: bool, trailing: bool)
    requires forall i | 0 <= i < |names| :: IsSegment(names[i])
    ensures Segments(Render(names, absolute, trailing)) == names
    ensures Render(names, absolute, trailing) != ""
    ensures Render(names, absolute, trailing)[0] == '/' <==> absolute
    ensures names != [] ==> (Render(names, absolute, trailing)[|Render(names, absolute, trailing)| - 1] == '/' <==> trailing)
  {
    if names == [] {
      SegmentsOfNothing();
    } else if |names| == 1 {
      SegmentsOfRenderedName(names[0], absolute, trailing);
    } else {
      var front := names[..|names| - 1];
      assert forall i | 0 <= i < |front| :: front[i] == names[i];
      SegmentsOfRender(front, absolute, false);
      SegmentsOfRenderStep(names, absolute, trailing);
      RenderEndsStep(names, absolute, trailing);
    }
  }

  /** The step of `SegmentsOfRender` from all names but the last to all of them. */
  lemma SegmentsOfRenderStep(names: seq<string>, absolute: bool, trailing: bool)
    requires |names| > 1 && IsSegment(names[|names| - 1])
    requires Segments(Render(names[..|names| - 1], absolute, false)) == names[..|names| - 1]
    requires Render(names[..|names| - 1], absolute, false) != ""
    ensures Segments(Render(names, absolute, trailing)) == names
  {
    var front, last := names[..|names| - 1], names[|names| - 1];
    var x := Render(front, absolute, false);
    RenderStep(names, absolute, trailing);
    SegmentsOfRenderedLast(x, last, trailing);
    SplitLast(names);
  }

  lemma SplitLast(names: seq<string>)
    requires names != []
    ensures names == names[..|names| - 1] + [names[|names| - 1]]
  {
  }

  /** The first and last characters of more than one rendered name. */
  lemma RenderEndsStep(names: seq<string>, absolute: bool, trailing: bool)
    requires |names| > 1 && IsSegment(names[|names| - 1])
    requires Render(names[..|names| - 1], absolute, false) != ""
    requires Render(names[..|names| - 1], absolute, false)[0] == '/' <==> absolute
    ensures Render(names, absolute, trailing) != ""
    ensures Render(names, absolute, trailing)[0] == '/' <==> absolute
    ensures Render(names, absolute, trailing)[|Render(names, absolute, trailing)| - 1] == '/' <==> trailing
  {
    var last := names[|names| - 1];
    RenderStep(names, absolute, trailing);
    assert last[|last| - 1] in last;
  }

  /** More than one name render as all but the last, a separator and the last. */
  lemma RenderStep(names: seq<string>, absolute: bool, trailing: bool)
    requires |names| > 1
    ensures Render(names, absolute, trailing)
      == Render(names[..|names| - 1], absolute, false) + "/" + names[|names| - 1] + (if trailing then "/" else "")
  {
  }

  lemma SegmentsOfRenderedName(n: string, absolute: bool, trailing: bool)
    requires IsSegment(n)
    ensures var r := (if absolute then "/" else "") + n + (if trailing then "/" else "");
      Segments(r) == [n] && (r[0] == '/' <==> absolute) && (r[|r| - 1] == '/' <==> trailing)
  {
    var post := if trailing then "/" else "";
    assert n[0] in n && n[|n| - 1] in n;
    var m := n + post;
    assert Segments(m) == [n] && m[0] == n[0] && (m[|m| - 1] == '/' <==> trailing) by {
      SegmentsOfName(n);
      if trailing {
        SegmentsBeforeSlash(n);
      } else {
        assert m == n;
      }
    }
    if absolute {
      SegmentsAfterSlash(m);
      assert "/" + n + post == "/" + m;
    } else {
      assert "" + n + post == m;
    }
  }

  lemma SegmentsOfRenderedLast(x: string, last: string, trailing: bool)
    requires IsSegment(last) && x != ""
    ensures var r := x + "/" + last + (if trailing then "/" else "");
      Segments(r) == Segments(x) + [last] && r[0] == x[0] && (r[|r| - 1] == '/' <==> trailing)
  {
    var post := if trailing then "/" else "";
    var r := x + "/" + last + post;
    SegmentsAppend(x, last);
    assert last[|last| - 1] in last;
    if trailing {
      SegmentsBeforeSlash(x + "/" + last);
    } else {
      assert r == x + "/" + last;
    }
  }

  /** Normalising keeps the names a path walks through. */
  lemma NormalizeKeepsSegments(p: string)
    ensures Segments(Normalize(p)) == Segments(p)
  {
    if p == "" {
      SegmentsOfName("");
      SegmentsOfNothing();
    } else {
      SegmentsAreSegments(p);
      SegmentsOfRender(Segments(p), p[0] == '/', p[|p| - 1] == '/');
    }
  }

  /** Normalising twice is normalising once. */
  lemma NormalizeIdempotent(p: string)
    ensures Normalize(Normalize(p)) == Normalize(p)
  {
    if p != "" {
      var names, absolute, trailing := Segments(p), p[0] == '/', p[|p| - 1] == '/';
      SegmentsAreSegments(p);
      SegmentsOfRender(names, absolute, trailing);
      var q := Render(names, absolute, trailing);
      assert Normalize(q) == Render(names, absolute, q[|q| - 1] == '/');
    } else {
      SegmentsOfNothing();
    }
  }


  /** What `path.join(dir, name)` puts before an entry name: a leading separator when `dir`
      has one, then `dir`'s names, each followed by a separator. */
  function Front(dir: string): string {
    var absolute := dir != "" && dir[0] == '/';
    if Segments(dir) == [] then (if absolute then "/" else "") else Render(Segments(dir), absolute, true)
  }

  /** The front and the name render the names of the directory and the name. */
  lemma FrontRenders(dir: string, name: string)
    requires IsEntryName(name)
    ensures Front(dir) + name == Render(Segments(dir) + [name], dir != "" && dir[0] == '/', false)
  {
    var s := Segments(dir);
    var absolute := dir != "" && dir[0] == '/';
    var names := s + [name];
    assert names[..|names| - 1] == s && names[|names| - 1] == name;
    if s == [] {
      assert names == [name];
      assert Render(names, absolute, false) == (if absolute then "/" else "") + name + "";
    } else {
      RenderTrailing(s, absolute);
    }
  }

  /** What `path.join(dir, name)` spells for an entry name: `dir`'s front, then the name. */
  lemma JoinShape(dir: string, name: string)
    requires IsEntryName(name)
    ensures Join(dir, name) == Front(dir) + name
  {
    var s := Segments(dir);
    var absolute := dir != "" && dir[0] == '/';
    var q := if dir == "" then name else dir + "/" + name;
    assert Join(dir, name) == Normalize(q);
    assert Segments(q) == s + [name] && (q[0] == '/' <==> absolute) && q[|q| - 1] != '/' by {
      SegmentsOfName(name);
      assert name[|name| - 1] in name && name[0] in name;
      if dir == "" {
        SegmentsOfName("");
        assert Segments(q) == [] + [name];
      } else {
        SegmentsAppend(dir, name);
      }
    }
    FrontRenders(dir, name);
  }

  /** A name after a separator (or alone) is the path's basename, and what comes before the
      separator is its dirname. */
  lemma LastName(x: string, name: string)
    requires name != "" && '/' !in name
    requires x == "" || x[|x| - 1] == '/'
    ensures Basename(x + name) == name
    ensures Dirname(x + name) == if x == "" then "." else if |x| == 1 then "/"
      else if |x| == 2 && x[0] == '/' then "//" else x[..|x| - 1]
  {
    var p := x + name;
    assert p[|p| - 1] == name[|name| - 1] && name[|name| - 1] in name;
    assert NameEnd(p) == |p|;
    assert forall k | |x| <= k < |p| :: p[k] == name[k - |x|] && name[k - |x|] in name;
    NameStartIsAfterSlash(p, |p|, |x|);
    assert p[|x|..|p|] == name;
    if x != "" {
      assert p[..|x| - 1] == x[..|x| - 1];
    }
  }

  /** The front of a directory is empty or ends with a separator. */
  /** Joining two entry names puts one separator between them. */
  lemma JoinEntries(dir: string, name: string)
    requires IsEntryName(dir) && IsEntryName(name)
    ensures Join(dir, name) == dir + "/" + name
  {
    JoinShape(dir, name);
    assert Segments(dir) == [dir] by {
      SegmentsOfName(dir);
    }
    assert dir[0] != '/' by {
      assert dir[0] in dir;
    }
    calc {
      Front(dir);
      Render([dir], false, true);
      "" + dir + "/";
    }
  }

  lemma FrontEnds(dir: string)
    ensures Front(dir) == "" || Front(dir)[|Front(dir)| - 1] == '/'
  {
    var s := Segments(dir);
    if s != [] {
      SegmentsAreSegments(dir);
      SegmentsOfRender(s, dir != "" && dir[0] == '/', true);
    }
  }

  lemma BasenameOfJoin(dir: string, name: string)
    requires IsEntryName(name)
    ensures Basename(Join(dir, name)) == name
  {
    JoinShape(dir, name);
    FrontEnds(dir);
    LastName(Front(dir), name);
  }

  /** Joining a name to a directory path adds exactly that name to the walk. */
  lemma SegmentsOfJoin(dir: string, name: string)
    requires IsEntryName(name)
    ensures Segments(Join(dir, name)) == Segments(dir) + [name]
  {
    JoinShape(dir, name);
    FrontRenders(dir, name);
    SegmentsAreSegments(dir);
    var names := Segments(dir) + [name];
    assert forall i | 0 <= i < |names| :: IsSegment(names[i]);
    SegmentsOfRender(names, dir != "" && dir[0] == '/', false);
  }

  /** The directory of a joined path walks through the same names as the directory joined. */
  lemma DirnameOfJoin(dir: string, name: string)
    requires IsEntryName(name)
    ensures Segments(Dirname(Join(dir, name))) == Segments(dir)
  {
    JoinShape(dir, name);
    DirnameOfFront(dir, name);
  }

  lemma DirnameOfFront(dir: string, name: string)
    requires IsEntryName(name)
    ensures Segments(Dirname(Front(dir) + name)) == Segments(dir)
  {
    var s := Segments(dir);
    var absolute := dir != "" && dir[0] == '/';
    FrontEnds(dir);
    LastName(Front(dir), name);
    if s == [] {
      SegmentsOfNothing();
    } else {
      var x := Render(s, absolute, false);
      SegmentsAreSegments(dir);
      SegmentsOfRender(s, absolute, false);
      RenderTrailing(s, absolute);
      assert Front(dir) == x + "/";
      assert |x| >= 2 || x[0] != '/' by {
        assert s[0][0] in s[0];
        if |s| == 1 {
          assert x == (if absolute then "/" else "") + s[0] + "";
        }
      }
      assert (x + "/")[..|x|] == x;
    }
  }
}
