/** Which local modules a definition's cache key covers (localReplaceDirs, cmd/lath/replaces.go). */
module ReplaceWalk {
  import opened Wrappers
  import opened Sorting

  type Dir = string

  /** What parsing each module file yields: its local targets, or none when it cannot be read. */
  type Graph = map<Dir, Option<seq<Dir>>>

  const MAX_REPLACE_DEPTH: nat := 3

  /** A directory without a module file has no targets. */
  function Parse(g: Graph, d: Dir): Option<seq<Dir>> {
    if d in g then g[d] else Some([])
  }

  function Targets(g: Graph, d: Dir): seq<Dir> {
    match Parse(g, d)
    case Some(ts) => ts
    case None => []
  }

  // ----- The walk -----

  /** The directories marked, and those at which the depth guard turned back. */
  datatype Trail = Trail(seen: set<Dir>, cut: set<Dir>)

  function Visit(g: Graph, dir: Dir, depth: nat, seen: set<Dir>): Option<Trail>
    requires depth <= MAX_REPLACE_DEPTH + 1
    decreases MAX_REPLACE_DEPTH + 1 - depth, 1, 0
  {
    if depth > MAX_REPLACE_DEPTH then Some(Trail(seen, {dir}))
    else
      match Parse(g, dir)
      case None => None
      case Some(ts) => VisitEach(g, ts, depth, seen)
  }

  function VisitEach(g: Graph, ts: seq<Dir>, depth: nat, seen: set<Dir>): Option<Trail>
    requires depth <= MAX_REPLACE_DEPTH
    decreases MAX_REPLACE_DEPTH + 1 - depth, 0, |ts|
  {
    if ts == [] then Some(Trail(seen, {}))
    else if ts[0] in seen then VisitEach(g, ts[1..], depth, seen)
    else
      match Visit(g, ts[0], depth + 1, seen + {ts[0]})
      case None => None
      case Some(a) => WithCut(a.cut, VisitEach(g, ts[1..], depth, a.seen))
  }

  function WithCut(cut: set<Dir>, r: Option<Trail>): Option<Trail> {
    match r
    case None => None
    case Some(t) => Some(Trail(t.seen, cut + t.cut))
  }

  /** The recursive closure of `localReplaceDirs`, over its shared `seen` map. */
  class Walker {
    var seen: set<Dir>

    constructor ()
      ensures seen == {}
    {
      seen := {};
    }

    method Walk(g: Graph, dir: Dir, depth: nat) returns (ok: bool, ghost cut: set<Dir>)
      requires depth <= MAX_REPLACE_DEPTH + 1
      modifies this
      ensures (if ok then Some(Trail(seen, cut)) else None) == Visit(g, dir, depth, old(seen))
      decreases MAX_REPLACE_DEPTH + 1 - depth
    {
      if depth > MAX_REPLACE_DEPTH {
        return true, {dir};
      }
      var targets := Parse(g, dir);
      if targets.None? {
        return false, {};
      }
      var ts := targets.value;
      cut := {};
      ghost var whole := VisitEach(g, ts, depth, seen);
      assert ts[0..] == ts && (whole.Some? ==> {} + whole.value.cut == whole.value.cut);
      for i := 0 to |ts|
        invariant whole == WithCut(cut, VisitEach(g, ts[i..], depth, seen))
      {
        assert ts[i..][1..] == ts[i + 1..];
        if ts[i] in seen {
          continue;
        }
        seen := seen + {ts[i]};
        var below;
        ghost var more;
        below, more := Walk(g, ts[i], depth + 1);
        if !below {
          return false, {};
        }
        ghost var rest := VisitEach(g, ts[i + 1..], depth, seen);
        assert rest.Some? ==> cut + (more + rest.value.cut) == (cut + more) + rest.value.cut;
        cut := cut + more;
      }
      return true, cut;
    }
  }

  /** The result, in sorted order and without repetition; none when some module file is unreadable. */
  method LocalReplaceDirs(g: Graph, defDir: Dir) returns (r: Option<seq<Dir>>)
    ensures r.None? <==> Visit(g, defDir, 0, {}).None?
    ensures r.Some? ==> && Sorted(r.value) && NoRepeats(r.value)
                        && forall d :: d in r.value <==> d in Visit(g, defDir, 0, {}).value.seen
  {
    var walker := new Walker();
    var ok, cut := walker.Walk(g, defDir, 0);
    if !ok {
      return None;
    }
    var out := Elements(walker.seen);
    SortSorts(out);
    ListsSet(Sort(out), walker.seen);
    return Some(Sort(out));
  }

  // ----- Replace hops -----

  /** A path that follows replace lines. */
  ghost predicate Chain(g: Graph, p: seq<Dir>) {
    p != [] && forall i :: 0 <= i < |p| - 1 ==> p[i + 1] in Targets(g, p[i])
  }

  ghost predicate Leads(g: Graph, p: seq<Dir>, from: Dir, to: Dir) {
    Chain(g, p) && p[0] == from && p[|p| - 1] == to
  }

  /** `to` is one or more, and at most `hops`, replace lines away. */
  ghost predicate Within(g: Graph, from: Dir, to: Dir, hops: nat) {
    exists p :: Leads(g, p, from, to) && 2 <= |p| <= hops + 1
  }

  ghost predicate Reachable(g: Graph, from: Dir, to: Dir) {
    exists p :: Leads(g, p, from, to) && 2 <= |p|
  }

  ghost predicate Closed(g: Graph, d: Dir, seen: set<Dir>) {
    forall t <- Targets(g, d) :: t in seen
  }

  // ----- What the walk finishes -----

  /** Marks are never lost, and each new one was explored or cut. */
  lemma {:induction false} VisitFinishes(g: Graph, dir: Dir, depth: nat, seen: set<Dir>)
    requires depth <= MAX_REPLACE_DEPTH + 1 && Visit(g, dir, depth, seen).Some?
    ensures var t := Visit(g, dir, depth, seen).value;
            && seen <= t.seen
            && (dir in t.cut || Closed(g, dir, t.seen))
            && (depth == 0 ==> Closed(g, dir, t.seen))
            && forall x <- t.seen - seen :: x in t.cut || Closed(g, x, t.seen)
    decreases MAX_REPLACE_DEPTH + 1 - depth, 1, 0
  {
    if depth <= MAX_REPLACE_DEPTH {
      EachFinishes(g, Parse(g, dir).value, depth, seen);
    }
  }

  lemma {:induction false} EachFinishes(g: Graph, ts: seq<Dir>, depth: nat, seen: set<Dir>)
    requires depth <= MAX_REPLACE_DEPTH && VisitEach(g, ts, depth, seen).Some?
    ensures var t := VisitEach(g, ts, depth, seen).value;
            && seen <= t.seen
            && (forall x <- ts :: x in t.seen)
            && forall x <- t.seen - seen :: x in t.cut || Closed(g, x, t.seen)
    decreases MAX_REPLACE_DEPTH + 1 - depth, 0, |ts|
  {
    if ts != [] {
      if ts[0] in seen {
        EachFinishes(g, ts[1..], depth, seen);
      } else {
        VisitFinishes(g, ts[0], depth + 1, seen + {ts[0]});
        var a := Visit(g, ts[0], depth + 1, seen + {ts[0]}).value;
        EachFinishes(g, ts[1..], depth, a.seen);
      }
    }
  }

  /** Everything marked below `path` is on a chain that extends it by at most the hops left. */
  lemma {:induction false} VisitIsNear(g: Graph, path: seq<Dir>, depth: nat, seen: set<Dir>)
    requires depth <= MAX_REPLACE_DEPTH + 1 && |path| == depth + 1 && Chain(g, path)
    requires Visit(g, path[depth], depth, seen).Some?
    ensures forall x <- Visit(g, path[depth], depth, seen).value.seen - seen ::
              Within(g, path[0], x, MAX_REPLACE_DEPTH + 1)
    decreases MAX_REPLACE_DEPTH + 1 - depth, 1, 0
  {
    if depth <= MAX_REPLACE_DEPTH {
      EachIsNear(g, path, Parse(g, path[depth]).value, depth, seen);
    }
  }

  lemma {:induction false} EachIsNear(g: Graph, path: seq<Dir>, ts: seq<Dir>, depth: nat, seen: set<Dir>)
    requires depth <= MAX_REPLACE_DEPTH && |path| == depth + 1 && Chain(g, path)
    requires forall t <- ts :: t in Targets(g, path[depth])
    requires VisitEach(g, ts, depth, seen).Some?
    ensures forall x <- VisitEach(g, ts, depth, seen).value.seen - seen :: Within(g, path[0], x, MAX_REPLACE_DEPTH + 1)
    decreases MAX_REPLACE_DEPTH + 1 - depth, 0, |ts|
  {
    if ts != [] {
      if ts[0] in seen {
        EachIsNear(g, path, ts[1..], depth, seen);
      } else {
        var longer := path + [ts[0]];
        assert Leads(g, longer, path[0], ts[0]);
        assert Within(g, path[0], ts[0], MAX_REPLACE_DEPTH + 1);
        assert longer[0] == path[0] && longer[depth + 1] == ts[0];
        VisitIsNear(g, longer, depth + 1, seen + {ts[0]});
        var a := Visit(g, ts[0], depth + 1, seen + {ts[0]}).value;
        EachIsNear(g, path, ts[1..], depth, a.seen);
        var b := VisitEach(g, ts[1..], depth, a.seen).value;
        assert VisitEach(g, ts, depth, seen).value.seen == b.seen;
        forall x | x in b.seen - seen ensures Within(g, path[0], x, MAX_REPLACE_DEPTH + 1) {
          assert x == ts[0] || x in a.seen - (seen + {ts[0]}) || x in b.seen - a.seen;
        }
      }
    }
  }

  /** No simple chain from the definition is longer than the walk is deep, and none returns to it. */
  ghost predicate Shallow(g: Graph, defDir: Dir) {
    && (forall p :: Chain(g, p) && p[0] == defDir && NoRepeats(p) ==> |p| <= MAX_REPLACE_DEPTH + 2)
    && !Reachable(g, defDir, defDir)
  }

  /** The walk stands at the end of `path`, a simple chain whose later directories are all marked. */
  ghost predicate Standing(g: Graph, path: seq<Dir>, depth: nat, seen: set<Dir>) {
    && |path| == depth + 1 && Chain(g, path) && NoRepeats(path) && Shallow(g, path[0])
    && forall i :: 0 < i < |path| ==> path[i] in seen
  }

  lemma {:induction false} StepDown(g: Graph, path: seq<Dir>, depth: nat, seen: set<Dir>, u: Dir)
    requires Standing(g, path, depth, seen) && u in Targets(g, path[depth])
    ensures u != path[0]
    ensures u !in path ==> Standing(g, path + [u], depth + 1, seen + {u})
  {
    var longer := path + [u];
    ChainGrows(g, path, u);
    assert Leads(g, longer, path[0], u);
    if u !in path {
      assert NoRepeats(longer);
    }
  }

  lemma ChainGrows(g: Graph, path: seq<Dir>, u: Dir)
    requires Chain(g, path) && u in Targets(g, path[|path| - 1])
    ensures Chain(g, path + [u])
  {
  }

  lemma {:induction false} VisitCutsNothing(g: Graph, path: seq<Dir>, depth: nat, seen: set<Dir>)
    requires depth <= MAX_REPLACE_DEPTH + 1 && Standing(g, path, depth, seen)
    requires Visit(g, path[depth], depth, seen).Some?
    ensures var t := Visit(g, path[depth], depth, seen).value; forall d <- t.cut :: Closed(g, d, t.seen)
    decreases MAX_REPLACE_DEPTH + 1 - depth, 1, 0
  {
    if depth <= MAX_REPLACE_DEPTH {
      EachCutsNothing(g, path, Parse(g, path[depth]).value, depth, seen);
    } else {
      forall u | u in Targets(g, path[depth]) ensures u in seen {
        StepDown(g, path, depth, seen, u);
      }
    }
  }

  lemma {:induction false} EachCutsNothing(g: Graph, path: seq<Dir>, ts: seq<Dir>, depth: nat, seen: set<Dir>)
    requires depth <= MAX_REPLACE_DEPTH && Standing(g, path, depth, seen)
    requires forall t <- ts :: t in Targets(g, path[depth])
    requires VisitEach(g, ts, depth, seen).Some?
    ensures var t := VisitEach(g, ts, depth, seen).value; forall d <- t.cut :: Closed(g, d, t.seen)
    decreases MAX_REPLACE_DEPTH + 1 - depth, 0, |ts|
  {
    if ts != [] {
      if ts[0] in seen {
        EachCutsNothing(g, path, ts[1..], depth, seen);
      } else {
        StepDown(g, path, depth, seen, ts[0]);
        var seen' := seen + {ts[0]};
        VisitCutsNothing(g, path + [ts[0]], depth + 1, seen');
        VisitFinishes(g, ts[0], depth + 1, seen');
        var a := Visit(g, ts[0], depth + 1, seen').value;
        EachFinishes(g, ts[1..], depth, a.seen);
        EachCutsNothing(g, path, ts[1..], depth, a.seen);
      }
    }
  }

  // ----- What the walk returns -----

  /** Every direct replace is covered, and nothing further than four replace lines is. */
  lemma WalkBounds(g: Graph, defDir: Dir)
    requires Visit(g, defDir, 0, {}).Some?
    ensures var seen := Visit(g, defDir, 0, {}).value.seen;
            && (forall t <- Targets(g, defDir) :: t in seen)
            && forall x <- seen :: Within(g, defDir, x, 4)
  {
    VisitFinishes(g, defDir, 0, {});
    VisitIsNear(g, [defDir], 0, {});
    assert Visit(g, defDir, 0, {}).value.seen - {} == Visit(g, defDir, 0, {}).value.seen;
  }

  ghost predicate Complete(g: Graph, defDir: Dir, seen: set<Dir>) {
    forall x :: Reachable(g, defDir, x) <==> x in seen
  }

  lemma {:induction false} ChainStaysIn(g: Graph, p: seq<Dir>, seen: set<Dir>, n: nat)
    requires Chain(g, p) && 0 < n < |p| && Closed(g, p[0], seen) && forall d <- seen :: Closed(g, d, seen)
    ensures p[n] in seen
  {
    if n > 1 {
      ChainStaysIn(g, p, seen, n - 1);
    }
  }

  /** The walk is the transitive closure exactly when no directory it turned back at leads elsewhere. */
  lemma CompleteIffCutsAreClosed(g: Graph, defDir: Dir)
    requires Visit(g, defDir, 0, {}).Some?
    ensures var t := Visit(g, defDir, 0, {}).value;
            Complete(g, defDir, t.seen) <==> forall d <- t.cut :: Closed(g, d, t.seen)
  {
    var t := Visit(g, defDir, 0, {}).value;
    WalkBounds(g, defDir);
    VisitFinishes(g, defDir, 0, {});
    CutsAreMarked(g, defDir, 0, {});
    if forall d <- t.cut :: Closed(g, d, t.seen) {
      forall x | Reachable(g, defDir, x) ensures x in t.seen {
        var p :| Leads(g, p, defDir, x) && 2 <= |p|;
        ChainStaysIn(g, p, t.seen, |p| - 1);
      }
      forall x | x in t.seen ensures Reachable(g, defDir, x) {
        assert Within(g, defDir, x, MAX_REPLACE_DEPTH + 1);
      }
    }
    if Complete(g, defDir, t.seen) {
      forall d, u | d in t.cut && u in Targets(g, d) ensures u in t.seen {
        assert Within(g, defDir, d, MAX_REPLACE_DEPTH + 1);
        var p :| Leads(g, p, defDir, d) && 2 <= |p| <= MAX_REPLACE_DEPTH + 2;
        assert Leads(g, p + [u], defDir, u);
      }
    }
  }

  /** The guard only ever turns back at a directory that has just been marked. */
  lemma {:induction false} CutsAreMarked(g: Graph, dir: Dir, depth: nat, seen: set<Dir>)
    requires depth <= MAX_REPLACE_DEPTH + 1 && Visit(g, dir, depth, seen).Some?
    requires depth > 0 ==> dir in seen
    ensures Visit(g, dir, depth, seen).value.cut <= Visit(g, dir, depth, seen).value.seen
    decreases MAX_REPLACE_DEPTH + 1 - depth, 1, 0
  {
    if depth <= MAX_REPLACE_DEPTH {
      EachCutsMarked(g, Parse(g, dir).value, depth, seen);
    }
  }

  lemma {:induction false} EachCutsMarked(g: Graph, ts: seq<Dir>, depth: nat, seen: set<Dir>)
    requires depth <= MAX_REPLACE_DEPTH && VisitEach(g, ts, depth, seen).Some?
    ensures VisitEach(g, ts, depth, seen).value.cut <= VisitEach(g, ts, depth, seen).value.seen
    decreases MAX_REPLACE_DEPTH + 1 - depth, 0, |ts|
  {
    if ts != [] {
      if ts[0] in seen {
        EachCutsMarked(g, ts[1..], depth, seen);
      } else {
        CutsAreMarked(g, ts[0], depth + 1, seen + {ts[0]});
        var a := Visit(g, ts[0], depth + 1, seen + {ts[0]}).value;
        EachCutsMarked(g, ts[1..], depth, a.seen);
        EachFinishes(g, ts[1..], depth, a.seen);
      }
    }
  }

  /** On a shallow graph that does not lead back to the definition, the walk misses nothing. */
  lemma ShallowIsComplete(g: Graph, defDir: Dir)
    requires Visit(g, defDir, 0, {}).Some? && Shallow(g, defDir)
    ensures Complete(g, defDir, Visit(g, defDir, 0, {}).value.seen)
  {
    VisitCutsNothing(g, [defDir], 0, {});
    CompleteIffCutsAreClosed(g, defDir);
  }

  /** A walk that succeeds has read every directory it did not turn back at. */
  lemma {:induction false} VisitReads(g: Graph, dir: Dir, depth: nat, seen: set<Dir>)
    requires depth <= MAX_REPLACE_DEPTH + 1 && Visit(g, dir, depth, seen).Some?
    ensures dir in Visit(g, dir, depth, seen).value.cut || Parse(g, dir).Some?
    ensures depth <= MAX_REPLACE_DEPTH ==> Parse(g, dir).Some?
    ensures var t := Visit(g, dir, depth, seen).value;
            forall x <- t.seen - seen :: x in t.cut || Parse(g, x).Some?
    decreases MAX_REPLACE_DEPTH + 1 - depth, 1, 0
  {
    if depth <= MAX_REPLACE_DEPTH {
      EachReads(g, Parse(g, dir).value, depth, seen);
    }
  }

  lemma {:induction false} EachReads(g: Graph, ts: seq<Dir>, depth: nat, seen: set<Dir>)
    requires depth <= MAX_REPLACE_DEPTH && VisitEach(g, ts, depth, seen).Some?
    ensures var t := VisitEach(g, ts, depth, seen).value;
            forall x <- t.seen - seen :: x in t.cut || Parse(g, x).Some?
    decreases MAX_REPLACE_DEPTH + 1 - depth, 0, |ts|
  {
    if ts != [] {
      if ts[0] in seen {
        EachReads(g, ts[1..], depth, seen);
      } else {
        VisitReads(g, ts[0], depth + 1, seen + {ts[0]});
        EachReads(g, ts[1..], depth, Visit(g, ts[0], depth + 1, seen + {ts[0]}).value.seen);
      }
    }
  }

  /** When every module file can be read, so can the walk's. */
  lemma {:induction false} VisitSucceeds(g: Graph, dir: Dir, depth: nat, seen: set<Dir>)
    requires depth <= MAX_REPLACE_DEPTH + 1 && forall d <- g :: g[d].Some?
    ensures Visit(g, dir, depth, seen).Some?
    decreases MAX_REPLACE_DEPTH + 1 - depth, 1, 0
  {
    if depth <= MAX_REPLACE_DEPTH {
      EachSucceeds(g, Parse(g, dir).value, depth, seen);
    }
  }

  lemma {:induction false} EachSucceeds(g: Graph, ts: seq<Dir>, depth: nat, seen: set<Dir>)
    requires depth <= MAX_REPLACE_DEPTH && forall d <- g :: g[d].Some?
    ensures VisitEach(g, ts, depth, seen).Some?
    decreases MAX_REPLACE_DEPTH + 1 - depth, 0, |ts|
  {
    if ts != [] {
      if ts[0] in seen {
        EachSucceeds(g, ts[1..], depth, seen);
      } else {
        VisitSucceeds(g, ts[0], depth + 1, seen + {ts[0]});
        EachSucceeds(g, ts[1..], depth, Visit(g, ts[0], depth + 1, seen + {ts[0]}).value.seen);
      }
    }
  }

  // ----- Where it does miss something -----

  function LongWayGraph(): Graph {
    map["def" := Some(["v1", "v4"]), "v1" := Some(["v2"]), "v2" := Some(["v3"]), "v3" := Some(["v4"]),
        "v4" := Some(["v5"])]
  }

  /** A module two replace lines away is missed when a longer way to its parent is walked first. */
  lemma LongWayHidesModule() returns (g: Graph, missed: Dir)
    ensures g == LongWayGraph() && Visit(g, "def", 0, {}).Some?
    ensures Within(g, "def", missed, 2) && missed !in Visit(g, "def", 0, {}).value.seen
  {
    g, missed := LongWayGraph(), "v5";
    assert Leads(g, ["def", "v4", "v5"], "def", missed);
    LongWayWalk();
  }

  lemma LongWayWalk()
    ensures Visit(LongWayGraph(), "def", 0, {}) == Some(Trail({"v1", "v2", "v3", "v4"}, {"v4"}))
  {
    var g := LongWayGraph();
    var s1, s2, s3, s4 := {"v1"}, {"v1", "v2"}, {"v1", "v2", "v3"}, {"v1", "v2", "v3", "v4"};
    assert {"v4"} + {} == {"v4"};
    assert s1 + {"v2"} == s2 && s2 + {"v3"} == s3 && s3 + {"v4"} == s4;
    assert VisitEach(g, ["v4"], 3, s3) == WithCut({"v4"}, Some(Trail(s4, {})));
    assert Visit(g, "v3", 3, s3) == Some(Trail(s4, {"v4"}));
    assert VisitEach(g, ["v3"], 2, s2) == WithCut({"v4"}, Some(Trail(s4, {})));
    assert Visit(g, "v2", 2, s2) == Some(Trail(s4, {"v4"}));
    assert VisitEach(g, ["v2"], 1, s1) == WithCut({"v4"}, Some(Trail(s4, {})));
    assert Visit(g, "v1", 1, s1) == Some(Trail(s4, {"v4"}));
    assert VisitEach(g, ["v4"], 0, s4) == Some(Trail(s4, {}));
    assert ["v1", "v4"][1..] == ["v4"] && {} + {"v1"} == s1;
    assert Visit(g, "def", 0, {}) == WithCut({"v4"}, Some(Trail(s4, {})));
  }

  /** The same replace lines, with the definition's two in the other order. */
  function SwappedGraph(): Graph {
    LongWayGraph()["def" := Some(["v4", "v1"])]
  }

  ghost predicate SameLines(g: Graph, g': Graph) {
    forall d, t :: t in Targets(g, d) <==> t in Targets(g', d)
  }

  lemma SwappedWalk()
    ensures Visit(SwappedGraph(), "def", 0, {}) == Some(Trail({"v4", "v5", "v1", "v2", "v3"}, {}))
  {
    var g := SwappedGraph();
    var none: set<Dir> := {};
    assert none + none == none;
    var s1, s2, s3 := {"v4"}, {"v4", "v5"}, {"v4", "v5", "v1"};
    var s4, s5 := {"v4", "v5", "v1", "v2"}, {"v4", "v5", "v1", "v2", "v3"};
    assert s1 + {"v5"} == s2 && s2 + {"v1"} == s3 && s3 + {"v2"} == s4 && s4 + {"v3"} == s5;
    assert Visit(g, "v5", 2, s2) == Some(Trail(s2, none));
    assert VisitEach(g, [], 1, s2) == Some(Trail(s2, none));
    assert VisitEach(g, ["v5"], 1, s1) == WithCut(none, Some(Trail(s2, {})));
    assert Visit(g, "v4", 1, s1) == Some(Trail(s2, none));
    assert VisitEach(g, ["v4"], 3, s5) == Some(Trail(s5, none));
    assert VisitEach(g, ["v3"], 2, s4) == WithCut(none, Some(Trail(s5, {})));
    assert VisitEach(g, ["v2"], 1, s3) == WithCut(none, Some(Trail(s5, {})));
    assert VisitEach(g, ["v1"], 0, s2) == WithCut(none, Some(Trail(s5, {})));
    assert ["v4", "v1"][1..] == ["v1"] && {} + {"v4"} == s1;
    assert Visit(g, "def", 0, {}) == WithCut(none, Some(Trail(s5, {})));
  }

  /**
   * No condition on the set of replace lines alone says when the walk is complete: of two graphs with
   * the same lines, in another order, one is covered and the other is not.
   */
  lemma OrderDecides() returns (g: Graph, g': Graph)
    ensures SameLines(g, g') && Visit(g, "def", 0, {}).Some? && Visit(g', "def", 0, {}).Some?
    ensures !Complete(g, "def", Visit(g, "def", 0, {}).value.seen)
    ensures Complete(g', "def", Visit(g', "def", 0, {}).value.seen)
  {
    var missed;
    g, missed := LongWayHidesModule();
    g' := SwappedGraph();
    SwappedWalk();
    CompleteIffCutsAreClosed(g', "def");
    var p :| Leads(g, p, "def", missed) && 2 <= |p| <= 3;
    assert Reachable(g, "def", missed);
  }

  function CycleGraph(): Graph {
    map["def" := Some(["a", "b"]), "a" := Some(["def"]), "b" := Some(["c"]), "c" := Some(["d"])]
  }

  /**
   * Through a cycle on the definition itself the walk misses a module although no simple chain is
   * longer than four replace lines: the definition is not marked when the walk starts.
   */
  lemma CycleHidesModule() returns (g: Graph, missed: Dir)
    ensures Visit(g, "def", 0, {}).Some?
    ensures forall p :: Chain(g, p) && p[0] == "def" && NoRepeats(p) ==> |p| <= MAX_REPLACE_DEPTH + 2
    ensures Within(g, "def", missed, 3) && missed !in Visit(g, "def", 0, {}).value.seen
  {
    g, missed := CycleGraph(), "d";
    assert Leads(g, ["def", "b", "c", "d"], "def", missed);
    CycleWalk();
    forall p | Chain(g, p) && p[0] == "def" && NoRepeats(p) ensures |p| <= MAX_REPLACE_DEPTH + 2 {
      CycleChainsAreShort(p);
    }
  }

  lemma CycleWalk()
    ensures Visit(CycleGraph(), "def", 0, {}) == Some(Trail({"a", "def", "b", "c"}, {"c"}))
  {
    var g := CycleGraph();
    var s1, s2, s3, s4 := {"a"}, {"a", "def"}, {"a", "def", "b"}, {"a", "def", "b", "c"};
    assert {"c"} + {} == {"c"};
    assert s1 + {"def"} == s2 && s2 + {"b"} == s3 && s3 + {"c"} == s4;
    assert VisitEach(g, ["c"], 3, s3) == WithCut({"c"}, Some(Trail(s4, {})));
    assert Visit(g, "b", 3, s3) == Some(Trail(s4, {"c"}));
    assert VisitEach(g, ["b"], 2, s2) == WithCut({"c"}, Some(Trail(s4, {})));
    assert ["a", "b"][1..] == ["b"];
    assert VisitEach(g, ["a", "b"], 2, s2) == VisitEach(g, ["b"], 2, s2);
    assert Visit(g, "def", 2, s2) == Some(Trail(s4, {"c"}));
    assert VisitEach(g, ["def"], 1, s1) == WithCut({"c"}, Some(Trail(s4, {})));
    assert Visit(g, "a", 1, s1) == Some(Trail(s4, {"c"}));
    assert VisitEach(g, ["b"], 0, s4) == Some(Trail(s4, {}));
    assert {} + {"a"} == s1;
    assert Visit(g, "def", 0, {}) == WithCut({"c"}, Some(Trail(s4, {})));
  }

  lemma CycleChainsAreShort(p: seq<Dir>)
    requires Chain(CycleGraph(), p) && p[0] == "def" && NoRepeats(p)
    ensures |p| <= MAX_REPLACE_DEPTH + 2
  {
    var all := {"def", "a", "b", "c", "d"};
    assert forall d <- all :: Closed(CycleGraph(), d, all);
    forall i | 0 <= i < |p| ensures p[i] in all {
      if i > 0 {
        ChainStaysIn(CycleGraph(), p, all, i);
      }
    }
    SimpleIsShort(p, all);
    assert |all| <= 5;
  }

  lemma {:induction false} SimpleIsShort(p: seq<Dir>, s: set<Dir>)
    requires NoRepeats(p) && forall i :: 0 <= i < |p| ==> p[i] in s
    ensures |p| <= |s|
  {
    if p != [] {
      SimpleIsShort(p[1..], s - {p[0]});
    }
  }
}
