/** The cycle tracker of the reference resolver: a live stack of path
    segments, the set of every '/'-joined path ever entered, and the set of
    paths whose entry was a repeat. Only the stack shrinks; the two sets are
    never cleared, so any path entered a second time, on any branch, counts
    as circular. */
module CircularReferenceTracker {
  import opened Util

  /** The path string `currentPath.join('/')`. */
  function FullPath(segments: seq<string>): string {
    Join(segments, "/")
  }

  /** One call of `enter`: the full path it computed and what it returned. */
  datatype Entry = Entry(fullPath: string, circular: bool)

  /** Every full path named in a history of `enter` calls. */
  ghost function PathsOf(h: seq<Entry>): set<string> {
    if h == [] then {} else PathsOf(h[..|h| - 1]) + {h[|h| - 1].fullPath}
  }

  /** The full paths of the `enter` calls in a history that returned true. */
  ghost function CircularOf(h: seq<Entry>): set<string> {
    if h == [] then {}
    else CircularOf(h[..|h| - 1]) + (if h[|h| - 1].circular then {h[|h| - 1].fullPath} else {})
  }

  /** Each recorded result is "this full path was entered before". */
  ghost predicate Consistent(h: seq<Entry>) {
    forall i :: 0 <= i < |h| ==> h[i].circular == (h[i].fullPath in PathsOf(h[..i]))
  }

  lemma {:induction false} PathsOfMeans(h: seq<Entry>, p: string)
    ensures p in PathsOf(h) <==> exists j :: 0 <= j < |h| && h[j].fullPath == p
  {
    if h != [] {
      PathsOfMeans(h[..|h| - 1], p);
      if p in PathsOf(h[..|h| - 1]) {
        var j :| 0 <= j < |h| - 1 && h[..|h| - 1][j].fullPath == p;
        assert h[j].fullPath == p;
      }
    }
  }

  lemma {:induction false} CircularOfMeans(h: seq<Entry>, p: string)
    ensures p in CircularOf(h) <==> exists i :: 0 <= i < |h| && h[i].circular && h[i].fullPath == p
  {
    if h != [] {
      CircularOfMeans(h[..|h| - 1], p);
      if p in CircularOf(h[..|h| - 1]) {
        var i :| 0 <= i < |h| - 1 && h[..|h| - 1][i].circular && h[..|h| - 1][i].fullPath == p;
        assert h[i].circular && h[i].fullPath == p;
      }
    }
  }

  /** `isCircular(p)` holds exactly when p was entered at least twice: a path
      is flagged by its second entry, whichever branch it came from. */
  lemma CircularMeansEnteredTwice(h: seq<Entry>, p: string)
    requires Consistent(h)
    ensures p in CircularOf(h) <==>
              exists j, i :: 0 <= j < i < |h| && h[j].fullPath == p && h[i].fullPath == p
  {
    CircularOfMeans(h, p);
    if p in CircularOf(h) {
      var i :| 0 <= i < |h| && h[i].circular && h[i].fullPath == p;
      PathsOfMeans(h[..i], p);
      var j :| 0 <= j < i && h[..i][j].fullPath == p;
      assert h[j].fullPath == p;
    }
    if exists j, i :: 0 <= j < i < |h| && h[j].fullPath == p && h[i].fullPath == p {
      var j, i :| 0 <= j < i < |h| && h[j].fullPath == p && h[i].fullPath == p;
      PathsOfMeans(h[..i], p);
      assert h[..i][j].fullPath == p;
      assert h[i].circular;
    }
  }

  /** Appending an entry that records "seen before" keeps a history consistent. */
  lemma ConsistentSnoc(h: seq<Entry>, e: Entry)
    requires Consistent(h)
    requires e.circular == (e.fullPath in PathsOf(h))
    ensures Consistent(h + [e])
    ensures PathsOf(h + [e]) == PathsOf(h) + {e.fullPath}
    ensures CircularOf(h + [e]) == CircularOf(h) + (if e.circular then {e.fullPath} else {})
  {
    var h' := h + [e];
    assert h'[..|h|] == h;
    forall i | 0 <= i < |h'| ensures h'[i].circular == (h'[i].fullPath in PathsOf(h'[..i])) {
      if i < |h| {
        assert h'[..i] == h[..i];
      }
    }
  }

  /** Repeats are a subset of what was entered: `circularPaths ⊆ visitedPaths`. */
  lemma {:induction false} CircularAreVisited(h: seq<Entry>)
    ensures CircularOf(h) <= PathsOf(h)
  {
    if h != [] {
      CircularAreVisited(h[..|h| - 1]);
    }
  }

  class Tracker {
    var visitedPaths: set<string>
    var currentPath: seq<string>
    var circularPaths: set<string>
    /** Every `enter` so far, in order. */
    ghost var history: seq<Entry>

    ghost predicate Valid()
      reads this
    {
      && Consistent(history)
      && visitedPaths == PathsOf(history)
      && circularPaths == CircularOf(history)
    }

    constructor ()
      ensures Valid()
      ensures currentPath == [] && visitedPaths == {} && circularPaths == {} && history == []
    {
      visitedPaths := {};
      currentPath := [];
      circularPaths := {};
      history := [];
    }

    /** Pushes one segment; reports whether the joined path was seen before. */
    method Enter(path: string) returns (circular: bool)
      requires Valid()
      modifies this
      ensures Valid()
      ensures currentPath == old(currentPath) + [path]
      ensures circular == (FullPath(currentPath) in old(visitedPaths))
      ensures visitedPaths == old(visitedPaths) + {FullPath(currentPath)}
      ensures circularPaths == old(circularPaths) + (if circular then {FullPath(currentPath)} else {})
      ensures history == old(history) + [Entry(FullPath(currentPath), circular)]
    {
      currentPath := currentPath + [path];
      var fullPath := FullPath(currentPath);
      ghost var entry := Entry(fullPath, fullPath in visitedPaths);
      ConsistentSnoc(history, entry);
      if fullPath in visitedPaths {
        circularPaths := circularPaths + {fullPath};
        circular := true;
        assert visitedPaths == PathsOf(history + [entry]);
      } else {
        visitedPaths := visitedPaths + {fullPath};
        circular := false;
      }
      history := history + [entry];
    }

    /** Pops the last segment (a no-op on an empty stack); the two sets stay. */
    method Exit()
      requires Valid()
      modifies this
      ensures Valid()
      ensures currentPath == if old(currentPath) == [] then [] else old(currentPath)[..|old(currentPath)| - 1]
      ensures visitedPaths == old(visitedPaths) && circularPaths == old(circularPaths)
      ensures history == old(history)
    {
      if currentPath != [] {
        currentPath := currentPath[..|currentPath| - 1];
      }
    }

    method IsCircular(path: string) returns (b: bool)
      requires Valid()
      ensures b == (path in circularPaths)
      ensures b <==> exists j, i :: 0 <= j < i < |history| && history[j].fullPath == path && history[i].fullPath == path
    {
      b := path in circularPaths;
      CircularMeansEnteredTwice(history, path);
    }

    method GetCurrentPath() returns (p: string)
      ensures p == FullPath(currentPath)
      ensures currentPath == [] ==> p == ""
      ensures |currentPath| == 1 ==> p == currentPath[0]
    {
      p := FullPath(currentPath);
    }
  }

  /** Path identity is the joined string: ["a", "b"] and ["a/b"] are one path. */
  lemma SegmentsCollide()
    ensures FullPath(["a", "b"]) == FullPath(["a/b"])
  {
  }

  /** A segment repeated deeper on the live stack is not a repeat (the joined
      path differs); after every segment is exited, entering the first one
      again is, and isCircular then holds for it. */
  method RepeatOnlyAfterExit() returns (earth: bool, moon: bool, earthAgain: bool, revisit: bool, flagged: bool)
    ensures !earth && !moon && !earthAgain
    ensures revisit && flagged
  {
    assert FullPath(["Earth"]) == "Earth";
    assert FullPath(["Earth", "Moon"]) == "Earth/Moon";
    assert FullPath(["Earth", "Moon", "Earth"]) == "Earth/Moon/Earth";
    var t := new Tracker();
    earth := t.Enter("Earth");
    assert t.currentPath == ["Earth"];
    moon := t.Enter("Moon");
    assert t.currentPath == ["Earth", "Moon"];
    earthAgain := t.Enter("Earth");
    assert t.currentPath == ["Earth", "Moon", "Earth"];
    assert t.visitedPaths == {"Earth", "Earth/Moon", "Earth/Moon/Earth"};
    t.Exit();
    t.Exit();
    t.Exit();
    assert t.currentPath == [];
    revisit := t.Enter("Earth");
    flagged := t.IsCircular("Earth");
    t.Exit();
  }

  lemma JoinedTwo(a: string, b: string)
    ensures FullPath([a, b]) == a + "/" + b
  {
    assert [a, b][1..] == [b];
    assert Join([a, b], "/") == a + "/" + Join([b], "/");
  }

  lemma JoinedThree(a: string, b: string, c: string)
    ensures FullPath([a, b, c]) == a + "/" + b + "/" + c
  {
    assert [a, b, c][1..] == [b, c];
    JoinedTwo(b, c);
    assert Join([a, b, c], "/") == a + "/" + Join([b, c], "/");
  }

  /** The joined paths of the galaxy example. */
  lemma GalaxyPaths()
    ensures FullPath(["MilkyWay"]) == "MilkyWay" && FullPath(["MilkyWay", "Earth"]) == "MilkyWay/Earth"
    ensures FullPath(["MilkyWay", "AndromedaGalaxy"]) == "MilkyWay/AndromedaGalaxy"
    ensures FullPath(["MilkyWay", "AndromedaGalaxy", "Earth"]) == "MilkyWay/AndromedaGalaxy/Earth"
  {
    JoinedTwo("MilkyWay", "Earth");
    JoinedTwo("MilkyWay", "AndromedaGalaxy");
    JoinedThree("MilkyWay", "AndromedaGalaxy", "Earth");
  }

  /** Enters MilkyWay, then Earth, exits Earth and enters AndromedaGalaxy:
      the three joined paths are visited and none is circular. */
  method GalaxyVisited() returns (t: Tracker)
    ensures fresh(t) && t.Valid() && t.currentPath == ["MilkyWay", "AndromedaGalaxy"]
    ensures t.visitedPaths == {"MilkyWay", "MilkyWay/Earth", "MilkyWay/AndromedaGalaxy"}
    ensures t.circularPaths == {}
  {
    GalaxyPaths();
    t := new Tracker();
    var a := t.Enter("MilkyWay");
    var b := t.Enter("Earth");
    t.Exit();
    var c := t.Enter("AndromedaGalaxy");
  }

  /** The same segment under another prefix is a new path, and the current
      path is the live stack joined by '/'. */
  method SameSegmentOtherPrefix() returns (again: bool, path: string)
    ensures !again && path == "MilkyWay/AndromedaGalaxy/Earth"
  {
    GalaxyPaths();
    var t := GalaxyVisited();
    again := t.Enter("Earth");
    assert t.currentPath == ["MilkyWay", "AndromedaGalaxy", "Earth"];
    path := t.GetCurrentPath();
  }
}
