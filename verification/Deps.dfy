/** The link order of library components: a depth-first search over their dependencies. */
module Deps {
  import opened Bytes

  datatype Component = Component(name: string, library: string, deps: seq<string>)

  type Graph = seq<Component>

  /** The first component of that name. */
  function Find(g: Graph, name: string): (r: Option<Component>)
    ensures r.Some? ==> r.value in g && r.value.name == name
    ensures r.None? ==> forall c :: c in g ==> c.name != name
  {
    if g == [] then None else if g[0].name == name then Some(g[0]) else Find(g[1..], name)
  }

  function DepsOf(g: Graph, name: string): (d: seq<string>) {
    match Find(g, name) case None => [] case Some(c) => c.deps
  }

  predicate Edge(g: Graph, a: string, b: string) {
    b in DepsOf(g, a)
  }

  // ------------------------------------------------------------------ reachability

  /** Following `p` from `a` along dependencies ends at `b`. */
  predicate Path(g: Graph, a: string, p: seq<string>, b: string)
    decreases |p|
  {
    if p == [] then a == b else Edge(g, a, p[0]) && Path(g, p[0], p[1..], b)
  }

  ghost predicate Reach(g: Graph, a: string, b: string) {
    exists p :: Path(g, a, p, b)
  }

  lemma ReachSelf(g: Graph, a: string)
    ensures Reach(g, a, a)
  {
    assert Path(g, a, [], a);
  }

  lemma {:induction false} PathSnoc(g: Graph, a: string, p: seq<string>, b: string, c: string)
    requires Path(g, a, p, b) && Edge(g, b, c)
    ensures Path(g, a, p + [c], c)
    decreases |p|
  {
    if p == [] {
      assert [c][1..] == [];
      assert p + [c] == [c];
    } else {
      PathSnoc(g, p[0], p[1..], b, c);
      assert (p + [c])[1..] == p[1..] + [c];
    }
  }

  lemma ReachSnoc(g: Graph, a: string, b: string, c: string)
    requires Reach(g, a, b) && Edge(g, b, c)
    ensures Reach(g, a, c)
  {
    var p :| Path(g, a, p, b);
    PathSnoc(g, a, p, b, c);
  }

  lemma ReachCons(g: Graph, a: string, b: string, c: string)
    requires Edge(g, a, b) && Reach(g, b, c)
    ensures Reach(g, a, c)
  {
    var p :| Path(g, b, p, c);
    assert ([b] + p)[1..] == p;
    assert Path(g, a, [b] + p, c);
  }

  // ------------------------------------------------------------------ what the search keeps

  /** A name is written after all it depends on, but for a dependency that leads back to it. */
  ghost predicate Finished(g: Graph, out: seq<string>) {
    forall i, d :: 0 <= i < |out| && Edge(g, out[i], d) ==> d in out[..i] || Reach(g, d, out[i])
  }

  ghost predicate Sound(g: Graph, visited: set<string>, out: seq<string>) {
    && NoDup(out) && Finished(g, out)
    && (forall x :: x in out ==> x in visited)
    && (forall x, d :: x in out && Edge(g, x, d) ==> d in visited)
  }

  /** Visited but not yet written: the names whose visits are still running. */
  predicate Open(visited: set<string>, out: seq<string>, x: string) {
    x in visited && x !in out
  }

  /** What a visit does: it writes everything it newly marks, all of it reachable from `from`, and
      leaves the running visits running. */
  ghost predicate Extends(g: Graph, v: set<string>, o: seq<string>, v': set<string>, o': seq<string>,
                          from: string -> bool)
  {
    && v <= v' && o <= o'
    && (forall x :: Open(v', o', x) <==> Open(v, o, x))
    && (forall x :: x in v' && x !in v ==> from(x))
  }

  /** The names a graph and a request mention. */
  function Names(g: Graph, wanted: seq<string>): (s: set<string>) {
    (set w | w in wanted) + (set c, d | c in g && d in c.deps :: d)
  }

  lemma DepsAreNames(g: Graph, wanted: seq<string>, a: string, b: string)
    requires Edge(g, a, b)
    ensures b in Names(g, wanted)
  {
    var c := Find(g, a).value;
    assert c in g && b in c.deps;
  }

  lemma FinishOne(g: Graph, visited: set<string>, out: seq<string>, name: string)
    requires Sound(g, visited, out) && Open(visited, out, name)
    requires forall x :: Open(visited, out, x) ==> Reach(g, x, name)
    requires forall d :: Edge(g, name, d) ==> d in visited
    ensures Sound(g, visited, out + [name])
  {
    hide Reach, Edge;
    var o := out + [name];
    forall i, d | 0 <= i < |o| && Edge(g, o[i], d) ensures d in o[..i] || Reach(g, d, o[i]) {
      if i < |out| {
        assert o[..i] == out[..i];
      } else {
        assert o[..i] == out;
        assert d in out || Open(visited, out, d);
      }
    }
  }

  class Search {
    const g: Graph
    var visited: set<string>
    var out: seq<string>

    constructor (comps: Graph)
      ensures g == comps && visited == {} && out == []
    {
      g := comps;
      visited := {};
      out := [];
    }

    method Visit(name: string, ghost names: set<string>)
      requires Sound(g, visited, out)
      requires forall x :: Open(visited, out, x) ==> Reach(g, x, name)
      requires name in names && forall a, b :: Edge(g, a, b) ==> b in names
      modifies this
      ensures Sound(g, visited, out) && name in visited
      ensures Extends(g, old(visited), old(out), visited, out, x => Reach(g, name, x))
      decreases names - visited
    {
      if name in visited {
        return;
      }
      ghost var v0, o0 := visited, out;
      visited := visited + {name};
      ReachSelf(g, name);
      var c := Find(g, name);
      if c.Some? {
        var deps := c.value.deps;
        var i := 0;
        while i < |deps|
          invariant 0 <= i <= |deps|
          invariant Sound(g, visited, out) && v0 + {name} <= visited && o0 <= out
          invariant forall x :: Open(visited, out, x) <==> Open(v0, o0, x) || x == name
          invariant forall x :: x in visited && x !in v0 ==> Reach(g, name, x)
          invariant forall j :: 0 <= j < i ==> deps[j] in visited
        {
          assert Edge(g, name, deps[i]);
          forall x | Open(visited, out, x) ensures Reach(g, x, deps[i]) {
            ReachSnoc(g, x, name, deps[i]);
          }
          ghost var v1 := visited;
          Visit(deps[i], names);
          forall x | x in visited && x !in v0 ensures Reach(g, name, x) {
            if x !in v1 {
              ReachCons(g, name, deps[i], x);
            }
          }
          i := i + 1;
        }
      }
      FinishOne(g, visited, out, name);
      out := out + [name];
    }
  }

  // ------------------------------------------------------------------ the whole search

  function Wanted(g: Graph, requested: seq<string>): (w: seq<string>) {
    if requested == [] then seq(|g|, i requires 0 <= i < |g| => g[i].name) else requested
  }

  ghost predicate Reachable(g: Graph, requested: seq<string>, x: string) {
    exists w :: w in Wanted(g, requested) && Reach(g, w, x)
  }

  function Reversed(s: seq<string>): (r: seq<string>)
    ensures |r| == |s| && forall i :: 0 <= i < |s| ==> r[i] == s[|s| - 1 - i]
  {
    seq(|s|, i requires 0 <= i < |s| => s[|s| - 1 - i])
  }

  /** `a` stands somewhere before `b`. */
  predicate Before(s: seq<string>, a: string, b: string) {
    exists i, j :: 0 <= i < j < |s| && s[i] == a && s[j] == b
  }

  lemma {:induction false} PathStaysVisited(g: Graph, visited: set<string>, a: string, p: seq<string>, b: string)
    requires a in visited && forall x, d :: x in visited && Edge(g, x, d) ==> d in visited
    requires Path(g, a, p, b)
    ensures b in visited
    decreases |p|
  {
    if p != [] {
      PathStaysVisited(g, visited, p[0], p[1..], b);
    }
  }

  lemma ReachStaysVisited(g: Graph, visited: set<string>, a: string, b: string)
    requires a in visited && forall x, d :: x in visited && Edge(g, x, d) ==> d in visited
    requires Reach(g, a, b)
    ensures b in visited
  {
    var p :| Path(g, a, p, b);
    PathStaysVisited(g, visited, a, p, b);
  }

  /** Every edge from a written name goes forward in the reversed list, unless it closes a cycle. */
  lemma ForwardEdge(g: Graph, out: seq<string>, a: string, b: string)
    requires Finished(g, out) && a in out && Edge(g, a, b) && !Reach(g, b, a)
    ensures Before(Reversed(out), a, b)
  {
    var i :| 0 <= i < |out| && out[i] == a;
    var j :| 0 <= j < i && out[..i][j] == b;
    var n := |out| - 1;
    assert Reversed(out)[n - i] == a && Reversed(out)[n - j] == b;
  }

  /** Exactly the names reachable from the request, once each, every name before its dependencies
      save those that lead back to it. */
  ghost predicate LinkOrder(g: Graph, requested: seq<string>, libs: seq<string>) {
    && NoDup(libs)
    && (forall x :: x in libs <==> Reachable(g, requested, x))
    && (forall a, b :: a in libs && Edge(g, a, b) && !Reach(g, b, a) ==> Before(libs, a, b))
  }

  lemma {:induction false} SearchCovers(g: Graph, requested: seq<string>, visited: set<string>, out: seq<string>)
    requires Sound(g, visited, out) && forall x :: !Open(visited, out, x)
    requires forall w :: w in Wanted(g, requested) ==> w in visited
    requires forall x :: x in visited ==> Reachable(g, requested, x)
    ensures forall x :: x in out <==> Reachable(g, requested, x)
  {
    hide Edge, Reach, Wanted, NoDup;
    forall x | x in visited ensures x in out {
      assert !Open(visited, out, x);
    }
    forall x | Reachable(g, requested, x) ensures x in out {
      var w :| w in Wanted(g, requested) && Reach(g, w, x);
      ReachStaysVisited(g, visited, w, x);
    }
  }

  /** What the finished search says of the reversed list. */
  lemma {:induction false} SearchDone(g: Graph, requested: seq<string>, visited: set<string>, out: seq<string>)
    requires Sound(g, visited, out) && forall x :: !Open(visited, out, x)
    requires forall w :: w in Wanted(g, requested) ==> w in visited
    requires forall x :: x in visited ==> Reachable(g, requested, x)
    ensures LinkOrder(g, requested, Reversed(out))
  {
    hide Edge, Reach, Wanted, Reachable, Reversed;
    SearchCovers(g, requested, visited, out);
    ReversedSame(out);
    forall a, b | a in out && Edge(g, a, b) && !Reach(g, b, a) ensures Before(Reversed(out), a, b) {
      ForwardEdge(g, out, a, b);
    }
  }

  method ComputeLibs(g: Graph, requested: seq<string>) returns (libs: seq<string>)
    ensures LinkOrder(g, requested, libs)
  {
    hide LinkOrder, Edge, Reach;
    var wanted := Wanted(g, requested);
    ghost var names := Names(g, wanted);
    forall a, b | Edge(g, a, b) ensures b in names {
      DepsAreNames(g, wanted, a, b);
    }
    var s := new Search(g);
    var i := 0;
    while i < |wanted|
      invariant 0 <= i <= |wanted| && s.g == g
      invariant Sound(g, s.visited, s.out) && forall x :: !Open(s.visited, s.out, x)
      invariant forall j :: 0 <= j < i ==> wanted[j] in s.visited
      invariant forall x :: x in s.visited ==> Reachable(g, requested, x)
    {
      s.Visit(wanted[i], names);
      i := i + 1;
    }
    SearchDone(g, requested, s.visited, s.out);
    libs := Reversed(s.out);
  }

  lemma ReversedSame(s: seq<string>)
    requires NoDup(s)
    ensures NoDup(Reversed(s)) && forall x :: x in Reversed(s) <==> x in s
  {
    forall x | x in s ensures x in Reversed(s) {
      var i :| 0 <= i < |s| && s[i] == x;
      assert Reversed(s)[|s| - 1 - i] == x;
    }
  }

  // ------------------------------------------------------------------ topological order

  /** No name in the list depends on itself, directly or through others. */
  ghost predicate Acyclic(g: Graph, libs: seq<string>) {
    forall a, b :: a in libs && Edge(g, a, b) ==> !Reach(g, b, a)
  }

  ghost predicate Topological(g: Graph, libs: seq<string>) {
    forall a, b :: a in libs && Edge(g, a, b) ==> Before(libs, a, b)
  }

  lemma BeforeTrans(s: seq<string>, a: string, b: string, c: string)
    requires NoDup(s) && Before(s, a, b) && Before(s, b, c)
    ensures Before(s, a, c)
  {
  }

  lemma {:induction false} PathGoesForward(g: Graph, libs: seq<string>, a: string, p: seq<string>, b: string)
    requires NoDup(libs) && Topological(g, libs) && a in libs && Path(g, a, p, b)
    ensures a == b || Before(libs, a, b)
    decreases |p|
  {
    if p != [] {
      assert Before(libs, a, p[0]);
      PathGoesForward(g, libs, p[0], p[1..], b);
      if p[0] != b {
        BeforeTrans(libs, a, p[0], b);
      }
    }
  }

  /** The order puts every component before all its dependencies exactly when there is no cycle:
      no order could do it otherwise. */
  lemma TopologicalIffAcyclic(g: Graph, requested: seq<string>, libs: seq<string>)
    requires LinkOrder(g, requested, libs)
    ensures Topological(g, libs) <==> Acyclic(g, libs)
  {
    if Topological(g, libs) {
      forall a, b | a in libs && Edge(g, a, b) ensures !Reach(g, b, a) {
        if Reach(g, b, a) {
          var p :| Path(g, b, p, a);
          assert Before(libs, a, b);
          PathGoesForward(g, libs, b, p, a);
        }
      }
    }
  }

  // ------------------------------------------------------------------ the library list

  predicate HasLibrary(g: Graph, name: string) {
    var c := Find(g, name);
    c.Some? && c.value.library != "" && c.value.library != "nullptr"
  }

  function Library(g: Graph, name: string): (l: string)
    requires HasLibrary(g, name)
  {
    Find(g, name).value.library
  }

  /** The names that have a library of their own, in order. */
  function Kept(g: Graph, names: seq<string>): (k: seq<string>)
    ensures forall x :: x in k <==> x in names && HasLibrary(g, x)
  {
    if names == [] then []
    else
      var n := |names| - 1;
      Kept(g, names[..n]) + if HasLibrary(g, names[n]) then [names[n]] else []
  }

  lemma {:induction false} KeptInOrder(g: Graph, names: seq<string>, a: string, b: string)
    requires HasLibrary(g, a) && HasLibrary(g, b)
    ensures Before(Kept(g, names), a, b) <==> Before(names, a, b)
    decreases |names|
  {
    hide HasLibrary;
    if names != [] {
      var n := |names| - 1;
      var k := Kept(g, names[..n]);
      KeptInOrder(g, names[..n], a, b);
      assert names == names[..n] + [names[n]];
      BeforeSnoc(names[..n], names[n], a, b);
      if HasLibrary(g, names[n]) {
        BeforeSnoc(k, names[n], a, b);
      } else {
        assert Kept(g, names) == k && names[n] != b;
      }
    }
  }

  lemma BeforeSnoc(s: seq<string>, x: string, a: string, b: string)
    ensures Before(s + [x], a, b) <==> Before(s, a, b) || (a in s && b == x)
  {
    var t := s + [x];
    if Before(s, a, b) {
      var i, j :| 0 <= i < j < |s| && s[i] == a && s[j] == b;
      assert t[i] == a && t[j] == b;
    }
    if a in s && b == x {
      var i :| 0 <= i < |s| && s[i] == a;
      assert t[i] == a && t[|s|] == b;
    }
  }

  /** `--libs`: the archives to link, one per component that has one, in link order. */
  method Libs(g: Graph, components: seq<string>, dir: string) returns (lines: seq<string>, names: seq<string>)
    ensures |lines| == |names| && NoDup(names)
    ensures forall i :: 0 <= i < |names| ==>
              HasLibrary(g, names[i]) && lines[i] == dir + "/lib" + Library(g, names[i]) + ".a"
    ensures var requested := if components == [] then ["all"] else components;
            forall x :: x in names <==> Reachable(g, requested, x) && HasLibrary(g, x)
    ensures forall a, b :: a in names && b in names && Edge(g, a, b) && !Reach(g, b, a) ==> Before(names, a, b)
  {
    var requested := if components == [] then ["all"] else components;
    var libs := ComputeLibs(g, requested);
    lines := [];
    var i := 0;
    while i < |libs|
      invariant 0 <= i <= |libs|
      invariant |lines| == |Kept(g, libs[..i])|
      invariant forall k :: 0 <= k < |lines| ==>
                  lines[k] == dir + "/lib" + Library(g, Kept(g, libs[..i])[k]) + ".a"
    {
      assert libs[..i + 1][..i] == libs[..i];
      var c := Find(g, libs[i]);
      if c.Some? && c.value.library != "" && c.value.library != "nullptr" {
        lines := lines + [dir + "/lib" + c.value.library + ".a"];
      }
      i := i + 1;
    }
    assert libs[..i] == libs;
    names := Kept(g, libs);
    KeptNoDup(g, libs);
    forall a, b | a in names && b in names && Edge(g, a, b) && !Reach(g, b, a) ensures Before(names, a, b) {
      KeptInOrder(g, libs, a, b);
    }
  }

  lemma {:induction false} KeptNoDup(g: Graph, names: seq<string>)
    requires NoDup(names)
    ensures NoDup(Kept(g, names))
    decreases |names|
  {
    hide HasLibrary;
    if names != [] {
      KeptNoDup(g, names[..|names| - 1]);
    }
  }
}
