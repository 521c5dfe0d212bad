/** Ordering structures so that members come first: topo_sort_structure of
    generator/dawn_json_generator.py. Python's sorted is the stable order of SerialStorage, with the
    depth as the serial. */
module StructureOrder {
  import opened SerialStorage

  type Struct = int

  /** The structures in input order, and for each the structures among the types of its members. */
  datatype Graph = Graph(structs: seq<Struct>, members: map<Struct, seq<Struct>>)

  predicate WellFormed(g: Graph) {
    && (forall i :: 0 <= i < |g.structs| ==> g.structs[i] in g.members)
    && (forall s, i :: s in g.members && 0 <= i < |g.members[s]| ==> g.members[s][i] in g.members)
    && (forall s :: s in g.members ==> s in g.structs)
  }

  ghost predicate Ranked(g: Graph, rank: map<Struct, nat>) {
    && (forall s :: s in g.members ==> s in rank)
    && (forall s, i :: s in g.members && 0 <= i < |g.members[s]| ==>
          g.members[s][i] in rank && rank[g.members[s][i]] < rank[s])
  }

  ghost predicate Acyclic(g: Graph) {
    exists rank :: Ranked(g, rank)
  }

  /** A chain of structures, each with a member of the type of the next. */
  predicate Path(g: Graph, p: seq<Struct>) {
    && p != [] && (forall i :: 0 <= i < |p| ==> p[i] in g.members)
    && (forall i :: 0 <= i < |p| - 1 ==> p[i + 1] in g.members[p[i]])
  }

  ghost predicate Longest(g: Graph, s: Struct, d: nat) {
    && (exists p :: Path(g, p) && p[0] == s && |p| == d + 1)
    && (forall p :: Path(g, p) && p[0] == s ==> |p| <= d + 1)
  }

  /** `most` is one more than the longest chain of the members looked at, or 0 if there are none. */
  ghost predicate MostOf(g: Graph, members: seq<Struct>, depths: seq<nat>, most: nat) {
    && |depths| <= |members|
    && (forall i :: 0 <= i < |depths| ==> Longest(g, members[i], depths[i]) && depths[i] + 1 <= most)
    && (most == 0 || exists i :: 0 <= i < |depths| && depths[i] + 1 == most)
  }

  lemma OneMore(g: Graph, members: seq<Struct>, depths: seq<nat>, most: nat, depth: nat)
    requires MostOf(g, members, depths, most) && |depths| < |members| && Longest(g, members[|depths|], depth)
    ensures MostOf(g, members, depths + [depth], if depth + 1 > most then depth + 1 else most)
  {
    var depths' := depths + [depth];
    if depth + 1 > most {
      assert depths'[|depths|] == depth;
    } else {
      var i :| 0 <= i < |depths| && depths[i] + 1 == most;
      assert depths'[i] == depths[i];
    }
  }

  /** The longest chain from s goes on with the longest of the longest chains of its members. */
  lemma LongestFromMembers(g: Graph, s: Struct, depths: seq<nat>, most: nat)
    requires s in g.members && |depths| == |g.members[s]| && MostOf(g, g.members[s], depths, most)
    ensures Longest(g, s, most)
  {
    if most == 0 {
      assert Path(g, [s]);
    } else {
      var i :| 0 <= i < |depths| && depths[i] + 1 == most;
      var p :| Path(g, p) && p[0] == g.members[s][i] && |p| == most;
      ChainOnto(g, s, p);
    }
    forall p | Path(g, p) && p[0] == s ensures |p| <= most + 1 {
      if |p| > 1 {
        RestOfPath(g, p);
        var i :| 0 <= i < |g.members[s]| && g.members[s][i] == p[1];
        assert Longest(g, g.members[s][i], depths[i]);
        assert |p[1..]| <= depths[i] + 1;
      }
    }
  }

  lemma ChainOnto(g: Graph, s: Struct, p: seq<Struct>)
    requires Path(g, p) && s in g.members && p[0] in g.members[s]
    ensures Path(g, [s] + p)
  {
    var q := [s] + p;
    forall i | 0 <= i < |q| - 1 ensures q[i + 1] in g.members[q[i]] {
      if i > 0 { assert p[i - 1 + 1] in g.members[p[i - 1]]; }
    }
  }

  lemma RestOfPath(g: Graph, p: seq<Struct>)
    requires Path(g, p) && |p| > 1
    ensures Path(g, p[1..]) && p[1] in g.members[p[0]]
  {
    var q := p[1..];
    assert p[0 + 1] in g.members[p[0]];
    forall i | 0 <= i < |q| - 1 ensures q[i + 1] in g.members[q[i]] {
      assert p[i + 1 + 1] in g.members[p[i + 1]];
    }
  }

  predicate StillVisited(before: map<Struct, bool>, after: map<Struct, bool>) {
    forall t :: t in before && before[t] ==> t in after && after[t]
  }

  predicate AllVisited(structs: seq<Struct>, visited: map<Struct, bool>) {
    forall t :: t in structs ==> t in visited && visited[t]
  }

  /** The attributes that the sort gives to the structures while it runs. */
  class DepthComputation {
    const g: Graph
    var visited: map<Struct, bool>
    var subdagDepth: map<Struct, nat>

    ghost predicate Valid()
      reads this
    {
      && WellFormed(g) && visited.Keys == subdagDepth.Keys == g.members.Keys
      && forall s :: s in g.members && visited[s] ==> Longest(g, s, subdagDepth[s])
    }

    constructor (g: Graph)
      requires WellFormed(g)
      ensures Valid() && this.g == g
    {
      this.g := g;
      visited := map s | s in g.members :: false;
      subdagDepth := map s | s in g.members :: 0;
    }

    method ComputeDepth(s: Struct, ghost rank: map<Struct, nat>) returns (d: nat)
      requires Valid() && s in g.members && Ranked(g, rank)
      modifies this
      ensures Valid() && visited[s] && d == subdagDepth[s] && Longest(g, s, d)
      ensures StillVisited(old(visited), visited)
      decreases rank[s]
    {
      if visited[s] {
        return subdagDepth[s];
      }
      var maxDependentDepth := 0;
      ghost var depths: seq<nat> := [];
      for i := 0 to |g.members[s]|
        invariant Valid() && |depths| == i && MostOf(g, g.members[s], depths, maxDependentDepth)
        invariant StillVisited(old(visited), visited)
      {
        var depth := ComputeDepth(g.members[s][i], rank);
        OneMore(g, g.members[s], depths, maxDependentDepth, depth);
        maxDependentDepth := if depth + 1 > maxDependentDepth then depth + 1 else maxDependentDepth;
        depths := depths + [depth];
      }
      LongestFromMembers(g, s, depths, maxDependentDepth);
      subdagDepth := subdagDepth[s := maxDependentDepth];
      visited := visited[s := true];
      d := maxDependentDepth;
    }

    method ComputeAll(ghost rank: map<Struct, nat>)
      requires Valid() && Ranked(g, rank)
      modifies this
      ensures Valid() && forall s :: s in g.members ==> Longest(g, s, subdagDepth[s])
    {
      for i := 0 to |g.structs|
        invariant Valid() && AllVisited(g.structs[..i], visited)
      {
        ghost var before := visited;
        assert g.structs[..i + 1] == g.structs[..i] + [g.structs[i]];
        var _ := ComputeDepth(g.structs[i], rank);
        assert StillVisited(before, visited);
      }
      assert g.structs[..|g.structs|] == g.structs;
    }
  }

  function Keyed(structs: seq<Struct>, depth: map<Struct, nat>): (r: seq<Item<Struct>>)
    requires forall i :: 0 <= i < |structs| ==> structs[i] in depth
    ensures |r| == |structs| && forall i :: 0 <= i < |r| ==> r[i] == Item(depth[structs[i]], structs[i])
  {
    seq(|structs|, i requires 0 <= i < |structs| => Item(depth[structs[i]], structs[i]))
  }

  predicate AllIn(structs: seq<Struct>, depth: map<Struct, nat>) {
    forall i :: 0 <= i < |structs| ==> structs[i] in depth
  }

  /** Those of a depth, in order. */
  function AtDepth(structs: seq<Struct>, depth: map<Struct, nat>, d: nat): (r: seq<Struct>)
    requires AllIn(structs, depth)
  {
    if structs == [] then []
    else
      var n := |structs| - 1;
      AtDepth(structs[..n], depth, d) + if depth[structs[n]] == d then [structs[n]] else []
  }

  predicate FitsDepth(items: seq<Item<Struct>>, depth: map<Struct, nat>) {
    forall i :: 0 <= i < |items| ==> items[i].value in depth && items[i].serial == depth[items[i].value]
  }

  lemma {:induction false} OfAtDepth(items: seq<Item<Struct>>, depth: map<Struct, nat>, d: nat)
    requires FitsDepth(items, depth)
    ensures AllIn(Values(items), depth) && Of(items, d) == AtDepth(Values(items), depth, d)
  {
    if items != [] {
      var n := |items| - 1;
      OfAtDepth(items[..n], depth, d);
      assert Values(items)[..n] == Values(items[..n]);
    }
  }

  lemma {:induction false} InsertFits(items: seq<Item<Struct>>, x: Item<Struct>, depth: map<Struct, nat>)
    requires FitsDepth(items, depth) && FitsDepth([x], depth)
    ensures FitsDepth(Insert(items, x), depth)
    ensures multiset(Values(Insert(items, x))) == multiset(Values(items)) + multiset{x.value}
  {
    assert [x][0] == x;
    if items == [] || items[|items| - 1].serial <= x.serial {
      assert Values(items + [x]) == Values(items) + [x.value];
    } else {
      var n := |items| - 1;
      InsertFits(items[..n], x, depth);
      assert Values(items) == Values(items[..n]) + [items[n].value];
      assert Values(Insert(items[..n], x) + [items[n]]) == Values(Insert(items[..n], x)) + [items[n].value];
    }
  }

  lemma {:induction false} InOrderFits(items: seq<Item<Struct>>, depth: map<Struct, nat>)
    requires FitsDepth(items, depth)
    ensures FitsDepth(InOrder(items), depth) && multiset(Values(InOrder(items))) == multiset(Values(items))
  {
    if items != [] {
      var n := |items| - 1;
      InOrderFits(items[..n], depth);
      assert FitsDepth([items[n]], depth);
      InsertFits(InOrder(items[..n]), items[n], depth);
      assert Values(items) == Values(items[..n]) + [items[n].value];
    }
  }

  /** A rearrangement by depth that keeps the input order among equal depths. */
  ghost predicate StableByDepth(result: seq<Struct>, structs: seq<Struct>, depth: map<Struct, nat>) {
    && AllIn(structs, depth) && AllIn(result, depth) && multiset(result) == multiset(structs)
    && (forall i, j :: 0 <= i < j < |result| ==> depth[result[i]] <= depth[result[j]])
    && (forall d :: AtDepth(result, depth, d) == AtDepth(structs, depth, d))
  }

  lemma SortIsStable(structs: seq<Struct>, depth: map<Struct, nat>)
    requires AllIn(structs, depth)
    ensures StableByDepth(Values(InOrder(Keyed(structs, depth))), structs, depth)
  {
    var items := Keyed(structs, depth);
    var sorted := InOrder(items);
    InOrderFits(items, depth);
    InOrderIsStable(items, 0);
    assert Values(items) == structs;
    forall d: nat ensures AtDepth(Values(sorted), depth, d) == AtDepth(structs, depth, d) {
      InOrderIsStable(items, d);
      OfAtDepth(items, depth, d);
      OfAtDepth(sorted, depth, d);
    }
    OfAtDepth(sorted, depth, 0);
  }

  /** A member lies less deep. */
  lemma MembersLessDeep(g: Graph, s: Struct, t: Struct, d: nat, e: nat)
    requires s in g.members && t in g.members[s] && Longest(g, s, d) && Longest(g, t, e)
    ensures e < d
  {
    var p :| Path(g, p) && p[0] == t && |p| == e + 1;
    ChainOnto(g, s, p);
    assert ([s] + p)[0] == s;
  }

  ghost predicate LongestChains(g: Graph, depth: map<Struct, nat>) {
    depth.Keys == g.members.Keys && forall s :: s in g.members ==> Longest(g, s, depth[s])
  }

  predicate MembersFirst(g: Graph, result: seq<Struct>) {
    forall i, j :: 0 <= i < |result| && 0 <= j < |result| && result[i] in g.members ==>
      (result[j] in g.members[result[i]] ==> j < i)
  }

  lemma DeeperLater(g: Graph, result: seq<Struct>, depth: map<Struct, nat>)
    requires LongestChains(g, depth) && AllIn(result, depth)
    requires forall i, j :: 0 <= i < j < |result| ==> depth[result[i]] <= depth[result[j]]
    ensures MembersFirst(g, result)
  {
    forall i, j | 0 <= i < |result| && 0 <= j < |result| && result[i] in g.members && result[j] in g.members[result[i]]
      ensures j < i
    {
      MembersLessDeep(g, result[i], result[j], depth[result[i]], depth[result[j]]);
    }
  }

  /** The result holds the structures by the lengths of their longest dependency chains, in input order
      where these are equal, and everything comes after the types of its members. */
  method TopoSortStructure(g: Graph) returns (result: seq<Struct>, ghost depth: map<Struct, nat>)
    requires WellFormed(g) && Acyclic(g)
    ensures LongestChains(g, depth) && StableByDepth(result, g.structs, depth) && MembersFirst(g, result)
  {
    ghost var rank :| Ranked(g, rank);
    var attributes := new DepthComputation(g);
    attributes.ComputeAll(rank);
    depth := attributes.subdagDepth;
    result := Values(InOrder(Keyed(g.structs, attributes.subdagDepth)));
    SortIsStable(g.structs, depth);
    DeeperLater(g, result, depth);
  }
}
