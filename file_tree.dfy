/** The part of the file system the packing script walks: a tree of named files and
    directories below the working directory, paths resolved through their names. */
module FileTree {
  import opened Wrappers
  import Paths

  /** A directory entry; a file's content is `None` when reading it fails. */
  datatype Node = File(name: string, content: Option<string>) | Dir(name: string, children: seq<Node>)

  /** Every name is a proper entry name, siblings have distinct names, and so on below. */
  predicate WellFormed(cs: seq<Node>)
    decreases cs
  {
    && (forall i | 0 <= i < |cs| :: Paths.IsEntryName(cs[i].name))
    && (forall i, j | 0 <= i < j < |cs| :: cs[i].name != cs[j].name)
    && (forall i | 0 <= i < |cs| :: cs[i].Dir? ==> WellFormed(cs[i].children))
  }

  /** The entry called `name` among `cs` (the first, should there be several). */
  function Child(cs: seq<Node>, name: string): (r: Option<Node>)
    ensures r.None? ==> forall i | 0 <= i < |cs| :: cs[i].name != name
    ensures r.Some? ==> exists i | 0 <= i < |cs| ::
      (cs[i] == r.value && cs[i].name == name && forall j | 0 <= j < i :: cs[j].name != name)
  {
    if cs == [] then None
    else if cs[0].name == name then Some(cs[0])
    else
      var r := Child(cs[1..], name);
      assert forall i | 1 <= i < |cs| :: cs[i] == cs[1..][i - 1];
      r
  }

  /** The entry reached from `n` through the names `trail`. */
  function ResolveIn(n: Node, trail: seq<string>): Option<Node>
    decreases |trail|
  {
    if trail == [] then Some(n)
    else if n.File? then None
    else
      match Child(n.children, trail[0])
      case None => None
      case Some(c) => ResolveIn(c, trail[1..])
  }

  /** What `path` names in the working directory `fs`. */
  function Resolve(fs: seq<Node>, path: string): Option<Node> {
    ResolveIn(Dir("", fs), Paths.Segments(path))
  }

  /** `fs.readdirSync(path)`: the entries of a directory; `None` where it throws. */
  function Listing(fs: seq<Node>, path: string): (r: Option<seq<Node>>)
    ensures r.Some? <==> Resolve(fs, path).Some? && Resolve(fs, path).value.Dir?
  {
    match Resolve(fs, path)
    case Some(Dir(_, cs)) => Some(cs)
    case _ => None
  }

  /** `fs.readFileSync(path)`: a file's text; `None` where it throws. */
  function ReadFile(fs: seq<Node>, path: string): Option<string> {
    match Resolve(fs, path)
    case Some(File(_, content)) => content
    case _ => None
  }

  /** The files below the entries `cs` of directory `dir`, depth first in listing order. */
  function Files(dir: string, cs: seq<Node>): seq<string>
    decreases cs
  {
    if cs == [] then [] else Files(dir, cs[..|cs| - 1]) + NodeFiles(dir, cs[|cs| - 1])
  }

  function NodeFiles(dir: string, c: Node): seq<string>
    decreases c
  {
    match c
    case File(name, _) => [Paths.Join(dir, name)]
    case Dir(name, kids) => Files(Paths.Join(dir, name), kids)
  }

  /** `walkDirSync(dir)` on a directory whose entries are `cs`. */
  method WalkDir(dir: string, cs: seq<Node>) returns (results: seq<string>)
    ensures results == Files(dir, cs)
    decreases cs
  {
    results := [];
    var i := 0;
    while i < |cs|
      invariant 0 <= i <= |cs|
      invariant results == Files(dir, cs[..i])
    {
      assert cs[..i + 1][..i] == cs[..i];
      var full := Paths.Join(dir, cs[i].name);
      if cs[i].Dir? {
        var below := WalkDir(full, cs[i].children);
        results := results + below;
      } else {
        results := results + [full];
      }
      i := i + 1;
    }
    assert cs[..i] == cs;
  }

  /** The trails of names from a directory to each file below it, in the order of `Files`. */
  function FileTrails(cs: seq<Node>): seq<seq<string>>
    decreases cs
  {
    if cs == [] then [] else FileTrails(cs[..|cs| - 1]) + NodeTrails(cs[|cs| - 1])
  }

  function NodeTrails(c: Node): seq<seq<string>>
    decreases c
  {
    match c
    case File(name, _) => [[name]]
    case Dir(name, kids) => Prefixed(name, FileTrails(kids))
  }

  function Prefixed(name: string, ts: seq<seq<string>>): (r: seq<seq<string>>)
    ensures |r| == |ts| && forall i | 0 <= i < |ts| :: r[i] == [name] + ts[i]
  {
    seq(|ts|, i requires 0 <= i < |ts| => [name] + ts[i])
  }

  /** Each walked path names, below `dir`, exactly its file's trail. */
  lemma {:induction false} FilesFollowTrails(dir: string, cs: seq<Node>)
    requires WellFormed(cs)
    ensures |Files(dir, cs)| == |FileTrails(cs)|
    ensures forall i | 0 <= i < |Files(dir, cs)| ::
      Paths.Segments(Files(dir, cs)[i]) == Paths.Segments(dir) + FileTrails(cs)[i]
    decreases cs
  {
    if cs != [] {
      var front, last := cs[..|cs| - 1], cs[|cs| - 1];
      assert WellFormed(front) by {
        assert forall i | 0 <= i < |front| :: front[i] == cs[i];
      }
      FilesFollowTrails(dir, front);
      NodeFollowsTrails(dir, last);
      var a, b := Files(dir, front), NodeFiles(dir, last);
      var s, t := FileTrails(front), NodeTrails(last);
      assert Files(dir, cs) == a + b && FileTrails(cs) == s + t;
      TrailsConcat(a, b, s, t, Paths.Segments(dir));
    }
  }

  /** Paths that walk through `front` and then their trails, concatenated. */
  lemma TrailsConcat(a: seq<string>, b: seq<string>, s: seq<seq<string>>, t: seq<seq<string>>, front: seq<string>)
    requires |a| == |s| && |b| == |t|
    requires forall i | 0 <= i < |a| :: Paths.Segments(a[i]) == front + s[i]
    requires forall i | 0 <= i < |b| :: Paths.Segments(b[i]) == front + t[i]
    ensures forall i | 0 <= i < |a + b| :: Paths.Segments((a + b)[i]) == front + (s + t)[i]
  {
    forall i | 0 <= i < |a + b|
      ensures Paths.Segments((a + b)[i]) == front + (s + t)[i]
    {
      if i >= |a| {
        assert (a + b)[i] == b[i - |a|] && (s + t)[i] == t[i - |a|];
      } else {
        assert (a + b)[i] == a[i] && (s + t)[i] == s[i];
      }
    }
  }

  lemma {:induction false} NodeFollowsTrails(dir: string, c: Node)
    requires Paths.IsEntryName(c.name) && (c.Dir? ==> WellFormed(c.children))
    ensures |NodeFiles(dir, c)| == |NodeTrails(c)|
    ensures forall i | 0 <= i < |NodeFiles(dir, c)| ::
      Paths.Segments(NodeFiles(dir, c)[i]) == Paths.Segments(dir) + NodeTrails(c)[i]
    decreases c
  {
    if c.File? {
      FileFollowsTrail(dir, c);
    } else {
      FilesFollowTrails(Paths.Join(dir, c.name), c.children);
      DirFollowsTrails(dir, c);
    }
  }

  lemma FileFollowsTrail(dir: string, c: Node)
    requires Paths.IsEntryName(c.name) && c.File?
    ensures NodeFiles(dir, c) == [Paths.Join(dir, c.name)] && NodeTrails(c) == [[c.name]]
    ensures Paths.Segments(Paths.Join(dir, c.name)) == Paths.Segments(dir) + [c.name]
  {
    Paths.SegmentsOfJoin(dir, c.name);
  }

  lemma DirFollowsTrails(dir: string, c: Node)
    requires Paths.IsEntryName(c.name) && c.Dir?
    requires var full := Paths.Join(dir, c.name);
      |Files(full, c.children)| == |FileTrails(c.children)| &&
      forall i | 0 <= i < |Files(full, c.children)| ::
        Paths.Segments(Files(full, c.children)[i]) == Paths.Segments(full) + FileTrails(c.children)[i]
    ensures |NodeFiles(dir, c)| == |NodeTrails(c)|
    ensures forall i | 0 <= i < |NodeFiles(dir, c)| ::
      Paths.Segments(NodeFiles(dir, c)[i]) == Paths.Segments(dir) + NodeTrails(c)[i]
  {
    var full := Paths.Join(dir, c.name);
    Paths.SegmentsOfJoin(dir, c.name);
    assert NodeFiles(dir, c) == Files(full, c.children);
    assert NodeTrails(c) == Prefixed(c.name, FileTrails(c.children));
    TrailsUnder(Files(full, c.children), FileTrails(c.children), Paths.Segments(dir), c.name);
  }

  /** Paths that walk through `front + [name]` and then their trails walk through `front`
      and then the trails prefixed with `name`. */
  lemma TrailsUnder(paths: seq<string>, trails: seq<seq<string>>, front: seq<string>, name: string)
    requires |paths| == |trails|
    requires forall i | 0 <= i < |paths| :: Paths.Segments(paths[i]) == front + [name] + trails[i]
    ensures forall i | 0 <= i < |paths| :: Paths.Segments(paths[i]) == front + Prefixed(name, trails)[i]
  {
    forall i | 0 <= i < |paths|
      ensures Paths.Segments(paths[i]) == front + Prefixed(name, trails)[i]
    {
      assert front + ([name] + trails[i]) == front + [name] + trails[i];
    }
  }

  /** Every trail of a well-formed directory leads to a file. */
  lemma {:induction false} TrailsReachFiles(name: string, cs: seq<Node>)
    requires WellFormed(cs)
    ensures forall i | 0 <= i < |FileTrails(cs)| ::
      ResolveIn(Dir(name, cs), FileTrails(cs)[i]).Some? && ResolveIn(Dir(name, cs), FileTrails(cs)[i]).value.File?
    decreases cs, 1
  {
    if cs != [] {
      var n := |cs| - 1;
      var front, last := cs[..n], cs[n];
      assert WellFormed(front) by {
        assert forall i | 0 <= i < |front| :: front[i] == cs[i];
      }
      TrailsReachFiles(name, front);
      var s, t := FileTrails(front), NodeTrails(last);
      forall i | 0 <= i < |s + t|
        ensures ResolveIn(Dir(name, cs), (s + t)[i]).Some? && ResolveIn(Dir(name, cs), (s + t)[i]).value.File?
      {
        if i < |s| {
          assert (s + t)[i] == s[i];
          TrailStaysInFront(name, cs, s[i]);
        } else {
          assert (s + t)[i] == t[i - |s|];
          LastTrailReachesFile(name, cs, i - |s|);
        }
      }
    }
  }

  /** A trail into the first entries still leads to the same place once more entries
      follow them. */
  lemma TrailStaysInFront(name: string, cs: seq<Node>, trail: seq<string>)
    requires cs != [] && trail != []
    requires ResolveIn(Dir(name, cs[..|cs| - 1]), trail).Some?
    ensures ResolveIn(Dir(name, cs), trail) == ResolveIn(Dir(name, cs[..|cs| - 1]), trail)
  {
    var front := cs[..|cs| - 1];
    var c := Child(front, trail[0]);
    assert c.Some?;
    var i :| 0 <= i < |front| && front[i] == c.value && front[i].name == trail[0]
      && forall j | 0 <= j < i :: front[j].name != trail[0];
    assert forall j | 0 <= j < |front| :: front[j] == cs[j];
    assert Child(cs, trail[0]) == c by {
      var d := Child(cs, trail[0]);
      var k :| 0 <= k < |cs| && cs[k] == d.value && cs[k].name == trail[0]
        && forall j | 0 <= j < k :: cs[j].name != trail[0];
      assert k == i;
    }
  }

  /** The trails of the last entry lead to files. */
  lemma LastTrailReachesFile(name: string, cs: seq<Node>, i: nat)
    requires cs != [] && WellFormed(cs)
    requires i < |NodeTrails(cs[|cs| - 1])|
    ensures ResolveIn(Dir(name, cs), NodeTrails(cs[|cs| - 1])[i]).Some?
    ensures ResolveIn(Dir(name, cs), NodeTrails(cs[|cs| - 1])[i]).value.File?
    decreases cs, 0
  {
    var last := cs[|cs| - 1];
    var trail := NodeTrails(last)[i];
    assert trail[0] == last.name;
    assert Child(cs, last.name) == Some(last) by {
      var d := Child(cs, last.name);
      var k :| 0 <= k < |cs| && cs[k] == d.value && cs[k].name == last.name
        && forall j | 0 <= j < k :: cs[j].name != last.name;
      assert k == |cs| - 1;
    }
    match last
    case File(_, _) =>
      assert trail == [last.name];
    case Dir(dname, kids) =>
      TrailsReachFiles(dname, kids);
      assert trail == [dname] + FileTrails(kids)[i];
      assert trail[1..] == FileTrails(kids)[i];
  }

  /** Resolving a trail in two parts. */
  lemma {:induction false} ResolveAppend(n: Node, s: seq<string>, t: seq<string>)
    requires ResolveIn(n, s).Some?
    ensures ResolveIn(n, s + t) == ResolveIn(ResolveIn(n, s).value, t)
    decreases |s|
  {
    if s != [] {
      assert (s + t) != [] && (s + t)[0] == s[0] && (s + t)[1..] == s[1..] + t;
      var c := Child(n.children, s[0]).value;
      assert ResolveIn(n, s) == ResolveIn(c, s[1..]);
      ResolveAppend(c, s[1..], t);
      assert ResolveIn(n, s + t) == ResolveIn(c, s[1..] + t);
    } else {
      assert s + t == t;
    }
  }

  /** Below a well-formed tree every directory is well-formed. */
  lemma {:induction false} ResolvedWellFormed(n: Node, trail: seq<string>)
    requires n.Dir? ==> WellFormed(n.children)
    requires ResolveIn(n, trail).Some?
    ensures ResolveIn(n, trail).value.Dir? ==> WellFormed(ResolveIn(n, trail).value.children)
    decreases |trail|
  {
    if trail != [] {
      var c := Child(n.children, trail[0]).value;
      ResolvedWellFormed(c, trail[1..]);
    }
  }

  /** `walkDirSync` returns, for a well-formed tree, only paths that name files: never a
      directory, and never a path that names nothing. */
  lemma WalkFindsOnlyFiles(fs: seq<Node>, dir: string)
    requires WellFormed(fs) && Listing(fs, dir).Some?
    ensures forall p | p in Files(dir, Listing(fs, dir).value) :: Resolve(fs, p).Some? && Resolve(fs, p).value.File?
  {
    var root := Dir("", fs);
    var d := Resolve(fs, dir).value;
    var cs := d.children;
    ResolvedWellFormed(root, Paths.Segments(dir));
    FilesFollowTrails(dir, cs);
    TrailsReachFiles(d.name, cs);
    forall p | p in Files(dir, cs)
      ensures Resolve(fs, p).Some? && Resolve(fs, p).value.File?
    {
      var i :| 0 <= i < |Files(dir, cs)| && Files(dir, cs)[i] == p;
      ResolveAppend(root, Paths.Segments(dir), FileTrails(cs)[i]);
    }
  }

  /** Every walked path is a name joined to the path of the directory that holds it. */
  lemma {:induction false} FilesAreJoins(dir: string, cs: seq<Node>)
    requires WellFormed(cs)
    ensures forall p | p in Files(dir, cs) :: exists d: string, name: string ::
      Paths.IsEntryName(name) && p == Paths.Join(d, name)
    decreases cs
  {
    if cs != [] {
      var front, last := cs[..|cs| - 1], cs[|cs| - 1];
      assert WellFormed(front) by {
        assert forall i | 0 <= i < |front| :: front[i] == cs[i];
      }
      FilesAreJoins(dir, front);
      match last
      case File(name, _) =>
        assert Paths.IsEntryName(name) && NodeFiles(dir, last) == [Paths.Join(dir, name)];
      case Dir(name, kids) =>
        assert WellFormed(kids);
        FilesAreJoins(Paths.Join(dir, name), kids);
        assert Files(dir, cs) == Files(dir, front) + Files(Paths.Join(dir, name), kids);
    }
  }

  /** A trail that resolves passes through entries that resolve. */
  lemma {:induction false} PrefixResolves(n: Node, s: seq<string>, t: seq<string>)
    requires ResolveIn(n, s + t).Some?
    ensures ResolveIn(n, s).Some?
    decreases |s|
  {
    if s != [] {
      assert (s + t)[0] == s[0] && (s + t)[1..] == s[1..] + t;
      PrefixResolves(Child(n.children, s[0]).value, s[1..], t);
    }
  }

  /** The folder of every walked file can itself be listed: `path.dirname` of the path names
      a directory. */
  lemma ParentsListable(fs: seq<Node>, dir: string)
    requires WellFormed(fs) && Listing(fs, dir).Some?
    ensures forall p | p in Files(dir, Listing(fs, dir).value) :: Listing(fs, Paths.Dirname(p)).Some?
  {
    forall p | p in Files(dir, Listing(fs, dir).value)
      ensures Listing(fs, Paths.Dirname(p)).Some?
    {
      ParentListable(fs, dir, p);
    }
  }

  lemma ParentListable(fs: seq<Node>, dir: string, p: string)
    requires WellFormed(fs) && Listing(fs, dir).Some?
    requires p in Files(dir, Listing(fs, dir).value)
    ensures Listing(fs, Paths.Dirname(p)).Some?
  {
    var cs := Listing(fs, dir).value;
    var root := Dir("", fs);
    ResolvedWellFormed(root, Paths.Segments(dir));
    WalkFindsOnlyFiles(fs, dir);
    FilesAreJoins(dir, cs);
    var d: string, name: string :| Paths.IsEntryName(name) && p == Paths.Join(d, name);
    Paths.SegmentsOfJoin(d, name);
    Paths.DirnameOfJoin(d, name);
    var s := Paths.Segments(d);
    PrefixResolves(root, s, [name]);
    ResolveAppend(root, s, [name]);
  }
}
