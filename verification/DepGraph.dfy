/**
 The import graph of ci/travis/py_dep_analysis.py: how it is built, the depth-first search that
 answers whether one module depends on another, and the search for circular imports.
 */
module DepGraph {
  import opened Base
  import opened Graphs

  predicate StartsWith(s: string, prefix: string) {
    prefix <= s
  }

  /** One import found in a source file; `isFile` is what the file system says about module/name.py. */
  datatype ImportStmt =
    | Import(name: string)
    | ImportFrom(base: Option<string>, name: string, isFile: bool)

  datatype SourceFile = SourceFile(name: string, imports: seq<ImportStmt>)

  /** Drops a final ".py", which in the original's pattern may sit before one last newline. */
  function StripPy(f: string): string {
    if |f| >= 3 && f[|f| - 3..] == ".py" then f[..|f| - 3]
    else if |f| >= 4 && f[|f| - 4..] == ".py\n" then f[..|f| - 4] + "\n"
    else f
  }

  function FullModulePath(base: string, f: string): string {
    if f == "__init__.py" then base
    else if base == "" then StripPy(f)
    else base + "." + StripPy(f)
  }

  /** The module an import makes its file depend on, if any. */
  function Target(s: ImportStmt): Option<string> {
    match s
    case Import(name) => if StartsWith(name, "ray") then Some(name) else None
    case ImportFrom(base, name, isFile) =>
      if base.None? || base.value == "" || !StartsWith(base.value, "ray") then None
      else if base.value != "ray._raylet" && isFile then Some(FullModulePath(base.value, name))
      else Some(base.value)
  }

  /** File `a` among `files` has an import whose target is `b`. */
  ghost predicate Imports(files: seq<SourceFile>, a: string, b: string) {
    exists i, j :: 0 <= i < |files| && 0 <= j < |files[i].imports|
      && files[i].name == a && Target(files[i].imports[j]) == Some(b)
  }

  function AddEdge(e: Edges, a: int, b: int): (r: Edges)
    ensures r.Keys == e.Keys + {a}
    ensures forall x, y :: HasEdge(r, x, y) <==> HasEdge(e, x, y) || (x == a && y == b)
    ensures (forall x :: x in e ==> Distinct(e[x])) ==> forall x :: x in r ==> Distinct(r[x])
  {
    var children := if a in e then e[a] else [];
    if b in children then e else e[a := children + [b]]
  }

  lemma EdgeBetween(e: Edges, ids: map<string, int>, src: string, dep: string)
    requires src in ids && dep in ids
    requires forall a, b :: a in ids && b in ids && ids[a] == ids[b] ==> a == b
    ensures forall a, b :: a in ids && b in ids ==>
              (HasEdge(AddEdge(e, ids[src], ids[dep]), ids[a], ids[b]) <==>
                HasEdge(e, ids[a], ids[b]) || (a == src && b == dep))
  {}

  class Graph {
    var edges: Edges
    var ids: map<string, int>
    var names: seq<string>  // the keys of ids in insertion order
    var invIds: map<int, string>

    /** Ids number the modules in order of first sight, and every edge joins known modules. */
    ghost predicate Valid()
      reads this
    {
      && Distinct(names)
      && (forall m :: m in ids <==> m in names)
      && (forall i :: 0 <= i < |names| ==> ids[names[i]] == i)
      && (forall a :: a in edges ==> 0 <= a < |names| && Distinct(edges[a]))
      && (forall a, b :: HasEdge(edges, a, b) ==> 0 <= b < |names|)
    }

    ghost predicate DependsDirectly(a: string, b: string)
      reads this
    {
      a in ids && b in ids && HasEdge(edges, ids[a], ids[b])
    }

    constructor ()
      ensures Valid() && names == [] && edges == map[]
    {
      edges, ids, names, invIds := map[], map[], [], map[];
    }

    method Register(m: string)
      requires Valid()
      modifies this
      ensures Valid() && edges == old(edges)
      ensures names == if m in old(ids) then old(names) else old(names) + [m]
      ensures m in ids && forall k :: k in old(ids) ==> k in ids && ids[k] == old(ids[k])
      ensures forall a, b :: DependsDirectly(a, b) <==> old(DependsDirectly(a, b))
    {
      if m !in ids {
        assert |ids| == |names| by { IdCount(); }
        assert forall a, b :: HasEdge(edges, a, b) ==> a != |names| && b != |names|;
        ids := ids[m := |ids|];
        names := names + [m];
      }
    }

    lemma IdsInjective()
      requires Valid()
      ensures forall a, b :: a in ids && b in ids && ids[a] == ids[b] ==> a == b
      ensures forall a :: a in ids ==> 0 <= ids[a] < |names| && names[ids[a]] == a
    {
      forall a | a in ids
        ensures 0 <= ids[a] < |names| && names[ids[a]] == a
      {
        var i :| 0 <= i < |names| && names[i] == a;
      }
    }

    /** The id handed out next, the size of the id table, is one past the last id. */
    lemma IdCount()
      requires Valid()
      ensures |ids| == |names|
    {
      CountDistinct(names);
      assert ids.Keys == set i | 0 <= i < |names| :: names[i];
      assert |ids| == |ids.Keys|;
    }

    /** Returns false where the original raises KeyError because src has no id. */
    method NewDep(src: string, dep: string) returns (ok: bool)
      requires Valid()
      modifies this
      ensures Valid()
      ensures ok <==> src in old(ids) || src == dep
      ensures names == if dep in old(ids) then old(names) else old(names) + [dep]
      ensures forall k :: k in old(ids) ==> k in ids && ids[k] == old(ids[k])
      ensures forall a, b :: DependsDirectly(a, b) <==>
                (old(DependsDirectly(a, b)) || (ok && a == src && b == dep))
    {
      Register(dep);
      if src !in ids {
        return false;
      }
      var srcId, depId := ids[src], ids[dep];
      IdsInjective();
      EdgeBetween(edges, ids, src, dep);
      edges := AddEdge(edges, srcId, depId);
      ok := true;
    }

    /** The graph holds the imports of `files` and nothing else. */
    ghost predicate Records(files: seq<SourceFile>)
      reads this
    {
      && (forall a, b :: DependsDirectly(a, b) <==> Imports(files, a, b))
      && (forall i :: 0 <= i < |files| ==> files[i].name in ids)
    }

    /** Gives one file an id and adds its imports. */
    method ProcessFile(f: SourceFile, ghost before: seq<SourceFile>)
      requires Valid() && Records(before)
      modifies this
      ensures Valid() && Records(before + [f])
    {
      Register(f.name);
      for j := 0 to |f.imports|
        invariant Valid() && f.name in ids && forall i :: 0 <= i < |before| ==> before[i].name in ids
        invariant forall a, b :: DependsDirectly(a, b) <==>
                    (Imports(before, a, b) || Imports([SourceFile(f.name, f.imports[..j])], a, b))
      {
        ImportsSnoc(f.name, f.imports[..j], f.imports[j]);
        assert f.imports[..j + 1] == f.imports[..j] + [f.imports[j]];
        var target := Target(f.imports[j]);
        if target.Some? {
          var ok := NewDep(f.name, target.value);
          assert ok;
        }
      }
      assert f.imports[..|f.imports|] == f.imports;
      ImportsConcat(before, f);
    }

    /** Walks over all files. */
    method Build(files: seq<SourceFile>)
      requires Valid() && names == [] && edges == map[]
      modifies this
      ensures Valid() && Records(files)
      ensures forall m :: m in ids ==> ids[m] in invIds && invIds[ids[m]] == m
      ensures forall i :: i in invIds ==> invIds[i] in ids && ids[invIds[i]] == i
    {
      assert Records(files[..0]);
      for i := 0 to |files|
        invariant Valid() && Records(files[..i])
      {
        ProcessFile(files[i], files[..i]);
        assert files[..i + 1] == files[..i] + [files[i]];
      }
      assert files[..|files|] == files;
      IndexIds();
    }

    /** The reverse index is the inverse of the id table, both ways. */
    method IndexIds()
      requires Valid()
      modifies this`invIds
      ensures Valid() && forall files :: old(Records(files)) ==> Records(files)
      ensures forall m :: m in ids ==> ids[m] in invIds && invIds[ids[m]] == m
      ensures forall i :: i in invIds ==> invIds[i] in ids && ids[invIds[i]] == i
    {
      IdsInjective();
      invIds := map m | m in ids :: ids[m] := m;
    }
  }

  lemma {:induction false} CountDistinct(s: seq<string>)
    requires Distinct(s)
    ensures |set i | 0 <= i < |s| :: s[i]| == |s|
  {
    if s != [] {
      var t := s[..|s| - 1];
      CountDistinct(t);
      var a, b := set i | 0 <= i < |s| :: s[i], set i | 0 <= i < |t| :: t[i];
      assert a == b + {s[|s| - 1]};
      assert s[|s| - 1] !in b;
    }
  }

  lemma ImportsSnoc(name: string, done: seq<ImportStmt>, here: ImportStmt)
    ensures forall a, b :: Imports([SourceFile(name, done + [here])], a, b) <==>
              Imports([SourceFile(name, done)], a, b) || (a == name && Target(here) == Some(b))
  {
    forall a, b
      ensures Imports([SourceFile(name, done + [here])], a, b) <==>
              Imports([SourceFile(name, done)], a, b) || (a == name && Target(here) == Some(b))
    {
      var more, less := [SourceFile(name, done + [here])], [SourceFile(name, done)];
      if Imports(less, a, b) {
        var i, j :| 0 <= i < |less| && 0 <= j < |less[i].imports|
          && less[i].name == a && Target(less[i].imports[j]) == Some(b);
        assert more[i].imports[j] == less[i].imports[j];
      }
      if Target(here) == Some(b) {
        assert more[0].imports[|done|] == here;
      }
      if Imports(more, a, b) {
        var i, j :| 0 <= i < |more| && 0 <= j < |more[i].imports|
          && more[i].name == a && Target(more[i].imports[j]) == Some(b);
        assert j < |done| ==> less[0].imports[j] == more[i].imports[j];
      }
    }
  }

  lemma ImportsConcat(files: seq<SourceFile>, f: SourceFile)
    ensures forall a, b :: Imports(files + [f], a, b) <==> Imports(files, a, b) || Imports([f], a, b)
  {
    forall a, b
      ensures Imports(files + [f], a, b) <==> Imports(files, a, b) || Imports([f], a, b)
    {
      var all := files + [f];
      if Imports(files, a, b) {
        var i, j :| 0 <= i < |files| && 0 <= j < |files[i].imports|
          && files[i].name == a && Target(files[i].imports[j]) == Some(b);
        assert all[i] == files[i];
      }
      if Imports([f], a, b) {
        var j :| 0 <= j < |f.imports| && f.name == a && Target(f.imports[j]) == Some(b);
        assert all[|files|] == f;
      }
      if Imports(all, a, b) {
        var i, j :| 0 <= i < |all| && 0 <= j < |all[i].imports|
          && all[i].name == a && Target(all[i].imports[j]) == Some(b);
        assert i < |files| ==> files[i] == all[i];
        assert i == |files| ==> [f][0] == all[i];
      }
    }
  }

  // ---------------------------------------------------------------- does tid depend on qid?

  class Marks {
    var marked: set<int>
    constructor ()
      ensures marked == {}
    {
      marked := {};
    }
  }

  /** Every child of `n` is marked, and none of them is `q`. */
  ghost predicate Exhausted(e: Edges, marked: set<int>, q: int, n: int) {
    forall c :: HasEdge(e, n, c) ==> c in marked && c != q
  }

  /** A search that ran dry leaves no path: the walk can never leave the exhausted nodes. */
  lemma {:induction false} ExhaustedHasNoPath(e: Edges, before: set<int>, after: set<int>, t: int, q: int, p: seq<int>)
    requires forall n :: n == t || n in after - before ==> Exhausted(e, after, q, n)
    requires IsPathAvoiding(e, before, t, q, p)
    ensures false
    decreases |p|
  {
    assert HasEdge(e, p[0], p[1]);
    assert Exhausted(e, after, q, t);
    if |p| > 2 {
      assert p[1] in after - before;
      var rest := p[1..];
      SubWalk(e, p, 1, |p|);
      assert forall i :: 1 <= i < |rest| - 1 ==> rest[i] == p[i + 1];
      ExhaustedHasNoPath(e, before, after, p[1], q, rest);
    }
  }

  lemma PrependToPath(e: Edges, avoid: set<int>, more: set<int>, t: int, c: int, q: int, ds: seq<int>)
    requires HasEdge(e, t, c) && c !in avoid && c in more && avoid <= more
    requires IsPathAvoiding(e, more, c, q, ds) && Distinct(ds[1..|ds| - 1])
    ensures IsPathAvoiding(e, avoid, t, q, [t] + ds) && Distinct(([t] + ds)[1..|ds|])
  {
    var p := [t] + ds;
    forall i | 0 <= i < |p| - 1
      ensures HasEdge(e, p[i], p[i + 1])
    {
      assert i > 0 ==> p[i] == ds[i - 1];
    }
    var mid := p[1..|ds|];
    assert forall i :: 0 < i < |mid| ==> mid[i] == ds[i] && ds[i] in ds[1..|ds| - 1];
    forall i, j | 0 <= i < j < |mid|
      ensures mid[i] != mid[j]
    {
      if i > 0 {
        assert mid[i] == ds[1..|ds| - 1][i - 1] && mid[j] == ds[1..|ds| - 1][j - 1];
      }
    }
  }

  /**
   The search shares `visited` with all its recursive calls. It answers with a path exactly when
   `qid` has outgoing edges and some path avoids the nodes already visited; the start itself is
   never marked, so only the nodes in between are promised to be distinct.
   */
  method Depends(graph: Graph, visited: Marks, tid: int, qid: int) returns (path: seq<int>)
    modifies visited
    ensures old(visited.marked) <= visited.marked
    ensures path != [] <==> qid in graph.edges && HasPathAvoiding(graph.edges, old(visited.marked), tid, qid)
    ensures path != [] ==> IsPathAvoiding(graph.edges, old(visited.marked), tid, qid, path)
    ensures path != [] ==> Distinct(path[1..|path| - 1]) && qid !in path[1..|path| - 1]
    ensures path == [] && qid in graph.edges ==>
              forall n :: n == tid || n in visited.marked - old(visited.marked) ==>
                Exhausted(graph.edges, visited.marked, qid, n)
    decreases Children(graph.edges) - visited.marked
  {
    var e := graph.edges;
    if tid !in e || qid !in e {
      if HasPathAvoiding(e, visited.marked, tid, qid) {
        var p :| IsPathAvoiding(e, visited.marked, tid, qid, p);
        assert HasEdge(e, p[0], p[1]);
      }
      return [];
    }
    if qid in e[tid] {
      assert IsPathAvoiding(e, visited.marked, tid, qid, [tid, qid]);
      return [tid, qid];
    }
    ghost var before := visited.marked;
    for i := 0 to |e[tid]|
      invariant before <= visited.marked
      invariant forall k :: 0 <= k < i ==> e[tid][k] in visited.marked
      invariant forall n :: n in visited.marked - before ==> Exhausted(e, visited.marked, qid, n)
    {
      var c := e[tid][i];
      if c in visited.marked {
        continue;
      }
      ghost var entry := visited.marked;
      visited.marked := visited.marked + {c};
      assert HasEdge(e, tid, c) && c in Children(e);
      ghost var entered := visited.marked;
      var ds := Depends(graph, visited, c, qid);
      if ds != [] {
        PrependToPath(e, before, entry + {c}, tid, c, qid, ds);
        path := [tid] + ds;
        assert path[1..|path| - 1] == [c] + ds[1..|ds| - 1];
        return;
      }
      forall n | n in visited.marked - before
        ensures Exhausted(e, visited.marked, qid, n)
      {
        if n in entry {
          assert Exhausted(e, entry, qid, n);
        } else {
          assert n == c || n in visited.marked - entered;
        }
      }
    }
    if HasPathAvoiding(e, before, tid, qid) {
      var p :| IsPathAvoiding(e, before, tid, qid, p);
      ExhaustedHasNoPath(e, before, visited.marked, tid, qid, p);
    }
    return [];
  }

  /** The answer the search gives from an empty visited map. */
  ghost predicate Answer(e: Edges, tid: int, qid: int) {
    qid in e && HasPathAvoiding(e, {}, tid, qid)
  }

  /** The promise to tell whether a path exists is kept from every start exactly when the queried module imports something or nobody imports it. */
  lemma AnswerIsRightIff(e: Edges, qid: int)
    ensures (forall tid :: Answer(e, tid, qid) <==> HasPathAvoiding(e, {}, tid, qid))
       <==> (qid in e || forall a :: !HasEdge(e, a, qid))
  {
    if qid !in e {
      if a: int :| HasEdge(e, a, qid) {
        assert IsPathAvoiding(e, {}, a, qid, [a, qid]);
        assert HasPathAvoiding(e, {}, a, qid) && !Answer(e, a, qid);
      } else {
        forall tid
          ensures !HasPathAvoiding(e, {}, tid, qid)
        {
          if p: seq<int> :| IsPathAvoiding(e, {}, tid, qid, p) {
            assert HasEdge(e, p[|p| - 2], p[|p| - 1]);
          }
        }
      }
    }
  }

  /** A module that imports nothing is never reported, though 0 imports it directly here. */
  lemma LeafQueryIsMissed()
    ensures var e: Edges := map[0 := [1]]; HasPathAvoiding(e, {}, 0, 1) && !Answer(e, 0, 1)
  {
    var e: Edges := map[0 := [1]];
    assert IsPathAvoiding(e, {}, 0, 1, [0, 1]);
  }

  const REGRESSION_TESTS := "ray.rllib.tests.run_regression_tests"
  const EXAMPLES := "//python/ray/rllib:examples/"

  /** A source of a test: its label and the module path of that label. */
  datatype TestSource = TestSource(src: string, modulePath: string)

  /** Source `i` is examined, has an id, and the search from it succeeds. */
  ghost predicate Hits(graph: Graph, srcs: seq<TestSource>, query: string, i: nat)
    requires i < |srcs|
    reads graph
  {
    && (forall j :: 0 <= j <= i ==> srcs[j].src != REGRESSION_TESTS)
    && srcs[i].modulePath in graph.ids && query in graph.ids
    && Answer(graph.edges, graph.ids[srcs[i].modulePath], graph.ids[query])
  }

  ghost predicate IsFirstHit(graph: Graph, srcs: seq<TestSource>, query: string, i: nat, branch: seq<int>)
    requires i < |srcs| && Hits(graph, srcs, query, i)
    reads graph
  {
    && (forall j :: 0 <= j < i ==> !Hits(graph, srcs, query, j))
    && IsPathAvoiding(graph.edges, {}, graph.ids[srcs[i].modulePath], graph.ids[query], branch)
  }

  /** The first source from which the file is found decides; a regression-test source ends the scan. */
  method TestDependsOnFile(graph: Graph, test: string, srcs: seq<TestSource>, query: string) returns (branch: seq<int>)
    ensures branch != [] <==> !StartsWith(test, EXAMPLES) && exists i :: 0 <= i < |srcs| && Hits(graph, srcs, query, i)
    ensures branch != [] ==>
              exists i :: 0 <= i < |srcs| && Hits(graph, srcs, query, i) && IsFirstHit(graph, srcs, query, i, branch)
  {
    if query !in graph.ids {
      return [];
    }
    if StartsWith(test, EXAMPLES) {
      return [];
    }
    for i := 0 to |srcs|
      invariant forall j :: 0 <= j < i ==> srcs[j].src != REGRESSION_TESTS
      invariant forall j :: 0 <= j < i ==> !Hits(graph, srcs, query, j)
    {
      if srcs[i].src == REGRESSION_TESTS {
        return [];
      }
      if srcs[i].modulePath !in graph.ids {
        continue;
      }
      var visited := new Marks();
      branch := Depends(graph, visited, graph.ids[srcs[i].modulePath], graph.ids[query]);
      if branch != [] {
        assert Hits(graph, srcs, query, i) && IsFirstHit(graph, srcs, query, i, branch);
        return;
      }
    }
    return [];
  }

  // ---------------------------------------------------------------- circular imports

  class Branch {
    var nodes: seq<int>
    constructor ()
      ensures nodes == []
    {
      nodes := [];
    }
  }

  /** `b` continues `from` as a walk out of `id` whose last node already occurs before it. */
  ghost predicate ClosesCircle(e: Edges, id: int, from: seq<int>, b: seq<int>) {
    && |b| > |from| && b[..|from|] == from
    && IsWalk(e, [id] + b[|from|..])
    && b[|b| - 1] in b[..|b| - 1]
  }

  /** No walk out of `id` meets `from` or meets a node twice. */
  ghost predicate NoCircle(e: Edges, id: int, from: seq<int>) {
    forall w :: IsWalk(e, [id] + w) ==> Distinct(w) && Disjoint(w, from)
  }

  /** All children lead nowhere circular, so neither does the parent. */
  lemma NoCircleFromChildren(e: Edges, id: int, from: seq<int>)
    requires forall c :: HasEdge(e, id, c) ==> c !in from && NoCircle(e, c, from + [c])
    ensures NoCircle(e, id, from)
  {
    forall w | IsWalk(e, [id] + w)
      ensures Distinct(w) && Disjoint(w, from)
    {
      if w != [] {
        var c, tail := w[0], w[1..];
        assert ([id] + w)[0] == id && ([id] + w)[1] == c;
        assert HasEdge(e, id, c);
        SubWalk(e, [id] + w, 1, |w| + 1);
        assert ([id] + w)[1..|w| + 1] == [c] + tail;
        assert Distinct(tail) && Disjoint(tail, from + [c]);
        assert forall i :: 0 < i < |w| ==> w[i] == tail[i - 1] && tail[i - 1] in tail;
      }
    }
  }

  function Unused(e: Edges, nodes: seq<int>): set<int> {
    Children(e) - set x | x in nodes
  }

  lemma UnusedShrinks(e: Edges, nodes: seq<int>, c: int)
    requires c in Children(e) && c !in nodes
    ensures Unused(e, nodes + [c]) < Unused(e, nodes)
  {
    assert c in Unused(e, nodes) && c !in Unused(e, nodes + [c]);
  }

  lemma ExtendCircle(e: Edges, id: int, c: int, from: seq<int>, b: seq<int>)
    requires HasEdge(e, id, c) && ClosesCircle(e, c, from + [c], b)
    ensures ClosesCircle(e, id, from, b)
  {
    var n := |from|;
    assert b[n] == b[..n + 1][n] == c && b[..n] == b[..n + 1][..n] == from;
    var tail := [c] + b[n + 1..];
    assert b[n..] == tail;
    assert IsWalk(e, [id, c]);
    JoinWalks(e, [id, c], tail);
    assert [id, c] + tail[1..] == [id] + b[n..];
  }

  method FindCircularDepImpl(graph: Graph, id: int, branch: Branch) returns (found: bool)
    modifies branch
    ensures found ==> ClosesCircle(graph.edges, id, old(branch.nodes), branch.nodes)
    ensures found && Distinct(old(branch.nodes)) ==> Distinct(branch.nodes[..|branch.nodes| - 1])
    ensures !found ==> branch.nodes == old(branch.nodes) && NoCircle(graph.edges, id, old(branch.nodes))
    decreases Unused(graph.edges, branch.nodes)
  {
    var e := graph.edges;
    ghost var from := branch.nodes;
    if id !in e {
      NoCircleFromChildren(e, id, from);
      return false;
    }
    for i := 0 to |e[id]|
      invariant branch.nodes == from
      invariant forall k :: 0 <= k < i ==> e[id][k] !in from && NoCircle(e, e[id][k], from + [e[id][k]])
    {
      var c := e[id][i];
      assert HasEdge(e, id, c) && c in Children(e);
      branch.nodes := branch.nodes + [c];
      assert branch.nodes[|from|..] == [c] && [id] + [c] == [id, c];
      if c in branch.nodes[..|branch.nodes| - 1] {
        return true;
      }
      assert branch.nodes[..|branch.nodes| - 1] == from;
      UnusedShrinks(e, from, c);
      assert Distinct(from) ==> Distinct(from + [c]);
      var deeper := FindCircularDepImpl(graph, c, branch);
      if deeper {
        ExtendCircle(e, id, c, from, branch.nodes);
        return true;
      }
      branch.nodes := branch.nodes[..|branch.nodes| - 1];
    }
    NoCircleFromChildren(e, id, from);
    return false;
  }

  /** From an empty branch, success means exactly that a cycle can be reached. */
  lemma CircleIffCycleReachable(e: Edges, id: int)
    ensures NoCircle(e, id, []) <==> !CycleReachable(e, id)
    ensures forall b :: ClosesCircle(e, id, [], b) ==> CycleReachable(e, id)
  {
    RepetitionIsReachableCycle(e, id);
    forall b | ClosesCircle(e, id, [], b)
      ensures HasRepeatingWalk(e, id)
    {
      assert b[0..] == b;
      assert IsWalk(e, [id] + b) && !Distinct(b) by {
        var k :| 0 <= k < |b| - 1 && b[k] == b[|b| - 1];
      }
    }
  }

  ghost predicate OnCircle(circles: map<string, seq<int>>, m: string, x: int) {
    m in circles && x in circles[m]
  }

  /** The node at which circle `b` closes lies on `c`. */
  ghost predicate ClosesOn(b: seq<int>, c: seq<int>) {
    |b| > 0 && b[|b| - 1] in c
  }

  /** Some circle out of `id` closes on a recorded one. */
  ghost predicate Covered(e: Edges, id: int, circles: map<string, seq<int>>) {
    exists b, m :: ClosesCircle(e, id, [], b) && m in circles && ClosesOn(b, circles[m])
  }

  /** What the scan over the first `i` ids has established. */
  ghost predicate Scanned(e: Edges, ids: map<string, int>, i: nat, known: set<int>, circles: map<string, seq<int>>) {
    && (forall m :: m in circles ==> m in ids && ids[m] < i && ClosesCircle(e, ids[m], [], circles[m]))
    && (forall m, x :: OnCircle(circles, m, x) ==> x in known)
    && (forall x :: x in known ==> exists m :: OnCircle(circles, m, x))
    && (forall m, n :: m in circles && n in circles && ids[m] < ids[n] ==> !ClosesOn(circles[n], circles[m]))
    && (forall k :: 0 <= k < i && CycleReachable(e, k) ==> Covered(e, k, circles))
  }

  lemma SkipCircle(e: Edges, ids: map<string, int>, i: nat, known: set<int>, circles: map<string, seq<int>>, b: seq<int>)
    requires Scanned(e, ids, i, known, circles)
    requires ClosesCircle(e, i, [], b) && b[|b| - 1] in known
    ensures Scanned(e, ids, i + 1, known, circles)
  {
    var o :| OnCircle(circles, o, b[|b| - 1]);
    assert ClosesOn(b, circles[o]);
  }

  lemma RecordCircle(e: Edges, ids: map<string, int>, i: nat, known: set<int>, circles: map<string, seq<int>>, m: string, b: seq<int>)
    requires Scanned(e, ids, i, known, circles)
    requires m in ids && ids[m] == i
    requires ClosesCircle(e, i, [], b) && b[|b| - 1] !in known
    ensures Scanned(e, ids, i + 1, known + (set n | n in b), circles[m := b])
  {
    var now, known' := circles[m := b], known + (set n | n in b);
    assert m !in circles;
    assert ClosesOn(b, now[m]);
    forall k | 0 <= k <= i && CycleReachable(e, k)
      ensures Covered(e, k, now)
    {
      if k < i {
        var c, o :| ClosesCircle(e, k, [], c) && o in circles && ClosesOn(c, circles[o]);
        assert now[o] == circles[o];
      }
    }
    forall x | x in known'
      ensures exists o :: OnCircle(now, o, x)
    {
      if x in b {
        assert OnCircle(now, m, x);
      } else {
        var o :| OnCircle(circles, o, x);
        assert OnCircle(now, o, x);
      }
    }
    var last := b[|b| - 1];
    forall n | n in circles
      ensures !ClosesOn(b, circles[n])
    {
      assert !OnCircle(circles, n, last);
    }
    forall n, x | OnCircle(now, n, x)
      ensures x in known'
    {
      assert n != m ==> OnCircle(circles, n, x);
    }
  }

  /**
   One circle per closing node: empty exactly for an acyclic graph, no circle closes on an earlier
   one, and every module that reaches a cycle has a walk that closes on a recorded circle.
   */
  method FindCircularDep(graph: Graph) returns (circles: map<string, seq<int>>)
    requires graph.Valid()
    ensures forall m :: m in circles ==> m in graph.ids && ClosesCircle(graph.edges, graph.ids[m], [], circles[m])
    ensures circles == map[] <==> Acyclic(graph.edges)
    ensures forall m, n :: m in circles && n in circles && graph.ids[m] < graph.ids[n] ==>
              !ClosesOn(circles[n], circles[m])
    ensures forall m :: m in graph.ids && CycleReachable(graph.edges, graph.ids[m]) ==>
              Covered(graph.edges, graph.ids[m], circles)
  {
    var known: set<int> := {};
    circles := map[];
    graph.IdsInjective();
    for i := 0 to |graph.names|
      invariant Scanned(graph.edges, graph.ids, i, known, circles)
    {
      var m := graph.names[i];
      var branch := new Branch();
      var found := FindCircularDepImpl(graph, graph.ids[m], branch);
      if !found {
        NoneFound(graph.edges, graph.ids, i, known, circles);
      } else {
        var b := branch.nodes;
        if b[|b| - 1] in known {
          SkipCircle(graph.edges, graph.ids, i, known, circles, b);
          continue;
        }
        RecordCircle(graph.edges, graph.ids, i, known, circles, m, b);
        known := known + (set n | n in b);
        circles := circles[m := b];
      }
    }
    ScanResult(graph, known, circles);
  }

  lemma NoneFound(e: Edges, ids: map<string, int>, i: nat, known: set<int>, circles: map<string, seq<int>>)
    requires Scanned(e, ids, i, known, circles) && NoCircle(e, i, [])
    ensures Scanned(e, ids, i + 1, known, circles)
  {
    CircleIffCycleReachable(e, i);
  }

  lemma ScanResult(graph: Graph, known: set<int>, circles: map<string, seq<int>>)
    requires graph.Valid() && Scanned(graph.edges, graph.ids, |graph.names|, known, circles)
    ensures circles == map[] <==> Acyclic(graph.edges)
    ensures forall m :: m in graph.ids && CycleReachable(graph.edges, graph.ids[m]) ==>
              Covered(graph.edges, graph.ids[m], circles)
  {
    graph.IdsInjective();
    AcyclicIffNoIdReaches(graph);
    if circles != map[] {
      var m :| m in circles;
      CircleIffCycleReachable(graph.edges, graph.ids[m]);
    }
  }

  /** Every edge starts at a numbered module, so searching from all ids misses no cycle. */
  lemma AcyclicIffNoIdReaches(graph: Graph)
    requires graph.Valid()
    ensures Acyclic(graph.edges) <==> forall k :: 0 <= k < |graph.names| ==> !CycleReachable(graph.edges, k)
    ensures forall k :: CycleReachable(graph.edges, k) ==> !Acyclic(graph.edges)
  {
    var e := graph.edges;
    if c: seq<int> :| IsCycle(e, c) {
      assert HasEdge(e, c[0], c[1]);
      assert IsWalk(e, [c[0]]);
      assert CycleReachable(e, c[0]);
    }
  }
}
