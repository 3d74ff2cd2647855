/** Chapter 7 (Project: A Robot): the village's road graph, built from
    "A-B" strings, and the move of the delivery robot from place to place. */
module Robot {
  import opened Wrappers

  /** `s.split(sep)`: the pieces between the separators, from left to right. */
  function Split(s: string, sep: char): (r: seq<string>)
    ensures |r| >= 1
    ensures forall k :: 0 <= k < |r| ==> sep !in r[k]
    ensures |r| >= 2 <==> sep in s
    ensures Join(r, sep) == s
  {
    if s == [] then [""]
    else
      var rest := Split(s[1..], sep);
      if s[0] == sep then
        assert Join([""] + rest, sep) == [sep] + Join(rest, sep);
        [""] + rest
      else
        var r := [[s[0]] + rest[0]] + rest[1..];
        assert r[1..] == rest[1..];
        r
  }

  /** `pieces.join(sep)`, the inverse of Split. */
  function Join(pieces: seq<string>, sep: char): string
    requires |pieces| >= 1
  {
    if |pieces| == 1 then pieces[0] else pieces[0] + [sep] + Join(pieces[1..], sep)
  }

  /** `let [from, to] = edge.split("-")`: the text before the first hyphen
      and the text between it and the next hyphen (or the end). Without a
      hyphen `to` would be `undefined`, so one is required. */
  function Endpoints(edge: string): (ends: (string, string))
    requires '-' in edge
    ensures '-' !in ends.0 && '-' !in ends.1
    ensures ends.0 + "-" + ends.1 == edge || ends.0 + "-" + ends.1 + "-" <= edge
  {
    var parts := Split(edge, '-');
    var tail := parts[1..];
    assert Join(parts, '-') == parts[0] + ['-'] + Join(tail, '-');
    assert |tail| >= 2 ==> Join(tail, '-') == tail[0] + ['-'] + Join(tail[1..], '-');
    (parts[0], parts[1])
  }

  /** A road graph: each place's neighbours, in the order the edges were read. */
  type Graph = map<string, seq<string>>

  /** The neighbour list of x, empty when x is not a key. */
  function Lookup(graph: Graph, x: string): seq<string>
  {
    if x in graph then graph[x] else []
  }

  /** `addEdge(from, to)`: appends `to` to the existing list of `from`, or
      creates the one-element list when `from` is seen the first time. No
      other entry changes. */
  function AddEdge(graph: Graph, from: string, to: string): (r: Graph)
    ensures r.Keys == graph.Keys + {from}
    ensures from in graph ==> r[from] == graph[from] + [to]
    ensures from !in graph ==> r[from] == [to]
    ensures forall x :: x in graph && x != from ==> r[x] == graph[x]
  {
    if from in graph then graph[from := graph[from] + [to]] else graph[from := [to]]
  }

  predicate WellFormed(edges: seq<string>)
  {
    forall k :: 0 <= k < |edges| ==> '-' in edges[k]
  }

  /** The graph `buildGraph` has built after reading the given edges. */
  function GraphOf(edges: seq<string>): Graph
    requires WellFormed(edges)
  {
    if edges == [] then map[]
    else
      var (from, to) := Endpoints(edges[|edges| - 1]);
      AddEdge(AddEdge(GraphOf(edges[..|edges| - 1]), from, to), to, from)
  }

  /** `buildGraph(edges)`: a for...of loop adding every edge in both
      directions to a dictionary that starts empty. */
  method BuildGraph(edges: seq<string>) returns (graph: Graph)
    requires WellFormed(edges)
    ensures graph == GraphOf(edges)
  {
    graph := map[];
    for k := 0 to |edges|
      invariant graph == GraphOf(edges[..k])
    {
      assert edges[..k + 1][..k] == edges[..k];
      var (from, to) := Endpoints(edges[k]);
      graph := AddEdge(graph, from, to);
      graph := AddEdge(graph, to, from);
    }
    assert edges[..|edges|] == edges;
  }

  /** Reference description of a neighbour list: for each edge "f-t" in
      order, t if x is f, then f if x is t. */
  function Neighbours(edges: seq<string>, x: string): seq<string>
    requires WellFormed(edges)
  {
    if edges == [] then []
    else
      var (from, to) := Endpoints(edges[|edges| - 1]);
      Neighbours(edges[..|edges| - 1], x) + (if from == x then [to] else []) + (if to == x then [from] else [])
  }

  /** Every name that appears at either end of an edge. */
  function Names(edges: seq<string>): set<string>
    requires WellFormed(edges)
  {
    if edges == [] then {}
    else
      var (from, to) := Endpoints(edges[|edges| - 1]);
      Names(edges[..|edges| - 1]) + {from, to}
  }

  /** The built graph has a key for exactly the names in the edges, and each
      key's list holds its neighbours in edge-processing order. */
  lemma {:induction false} GraphOfIsNeighbours(edges: seq<string>)
    requires WellFormed(edges)
    ensures GraphOf(edges).Keys == Names(edges)
    ensures forall x :: Lookup(GraphOf(edges), x) == Neighbours(edges, x)
  {
    if edges != [] {
      var n := |edges| - 1;
      GraphOfIsNeighbours(edges[..n]);
      var (from, to) := Endpoints(edges[n]);
      var g := GraphOf(edges[..n]);
      forall x
        ensures Lookup(GraphOf(edges), x) == Neighbours(edges, x)
      {
        LookupAddEdge(g, from, to, x);
        LookupAddEdge(AddEdge(g, from, to), to, from, x);
      }
    }
  }

  /** Looking a name up after addEdge. */
  lemma LookupAddEdge(graph: Graph, from: string, to: string, x: string)
    ensures Lookup(AddEdge(graph, from, to), x) == Lookup(graph, x) + (if x == from then [to] else [])
  {
  }

  /** Every edge "A-B" makes B a neighbour of A and A a neighbour of B. */
  lemma {:induction false} EdgeEndsAreNeighbours(edges: seq<string>, k: nat)
    requires WellFormed(edges) && k < |edges|
    ensures var (from, to) := Endpoints(edges[k]);
      && from in GraphOf(edges) && to in GraphOf(edges)
      && to in GraphOf(edges)[from] && from in GraphOf(edges)[to]
  {
    GraphOfIsNeighbours(edges);
    var (from, to) := Endpoints(edges[k]);
    NeighboursOfEdge(edges, k);
  }

  lemma {:induction false} NeighboursOfEdge(edges: seq<string>, k: nat)
    requires WellFormed(edges) && k < |edges|
    ensures var (from, to) := Endpoints(edges[k]);
      to in Neighbours(edges, from) && from in Neighbours(edges, to)
  {
    var n := |edges| - 1;
    if k < n {
      NeighboursOfEdge(edges[..n], k);
    }
  }

  /** The neighbour relation is symmetric. */
  lemma {:induction false} NeighboursSymmetric(edges: seq<string>, x: string, y: string)
    requires WellFormed(edges)
    ensures y in Neighbours(edges, x) <==> x in Neighbours(edges, y)
  {
    if edges != [] {
      NeighboursSymmetric(edges[..|edges| - 1], x, y);
    }
  }

  /** The sum of the list lengths of the given keys. */
  ghost function TotalLength(graph: Graph, keys: set<string>): nat
    requires keys <= graph.Keys
  {
    if keys == {} then 0
    else
      var k :| k in keys;
      |graph[k]| + TotalLength(graph, keys - {k})
  }

  lemma {:induction false} TotalLengthRemove(graph: Graph, keys: set<string>, x: string)
    requires keys <= graph.Keys && x in keys
    ensures TotalLength(graph, keys) == |graph[x]| + TotalLength(graph, keys - {x})
    decreases keys
  {
    var k :| k in keys && TotalLength(graph, keys) == |graph[k]| + TotalLength(graph, keys - {k});
    if k != x {
      TotalLengthRemove(graph, keys - {k}, x);
      TotalLengthRemove(graph, keys - {x}, k);
      assert keys - {k} - {x} == keys - {x} - {k};
    }
  }

  lemma {:induction false} TotalLengthAgree(g1: Graph, g2: Graph, keys: set<string>)
    requires keys <= g1.Keys && keys <= g2.Keys
    requires forall x :: x in keys ==> |g1[x]| == |g2[x]|
    ensures TotalLength(g1, keys) == TotalLength(g2, keys)
    decreases keys
  {
    if keys != {} {
      var k :| k in keys && TotalLength(g1, keys) == |g1[k]| + TotalLength(g1, keys - {k});
      TotalLengthRemove(g2, keys, k);
      TotalLengthAgree(g1, g2, keys - {k});
    }
  }

  /** One addEdge call lengthens exactly one list by one. */
  lemma AddEdgeTotalLength(graph: Graph, from: string, to: string)
    ensures TotalLength(AddEdge(graph, from, to), AddEdge(graph, from, to).Keys) == TotalLength(graph, graph.Keys) + 1
  {
    var r := AddEdge(graph, from, to);
    TotalLengthRemove(r, r.Keys, from);
    if from in graph {
      assert r.Keys - {from} == graph.Keys - {from};
      TotalLengthAgree(r, graph, graph.Keys - {from});
      TotalLengthRemove(graph, graph.Keys, from);
    } else {
      assert r.Keys - {from} == graph.Keys;
      TotalLengthAgree(r, graph, graph.Keys);
    }
  }

  /** The neighbour lists together hold every edge twice. */
  lemma {:induction false} GraphTotalLength(edges: seq<string>)
    requires WellFormed(edges)
    ensures TotalLength(GraphOf(edges), GraphOf(edges).Keys) == 2 * |edges|
  {
    if edges != [] {
      var n := |edges| - 1;
      GraphTotalLength(edges[..n]);
      var (from, to) := Endpoints(edges[n]);
      var g := GraphOf(edges[..n]);
      AddEdgeTotalLength(g, from, to);
      AddEdgeTotalLength(AddEdge(g, from, to), to, from);
    } else {
      assert GraphOf(edges).Keys == {};
    }
  }

  /** Splitting a string with no separator gives the string itself. */
  lemma SplitWithoutSeparator(s: string, sep: char)
    requires sep !in s
    ensures Split(s, sep) == [s]
  {
  }

  /** A separator-free first piece is split off whole. */
  lemma {:induction false} SplitAfterPiece(a: string, rest: string, sep: char)
    requires sep !in a
    ensures Split(a + [sep] + rest, sep) == [a] + Split(rest, sep)
  {
    var s := a + [sep] + rest;
    if a == [] {
      assert s[1..] == rest;
    } else {
      assert s[1..] == a[1..] + [sep] + rest;
      SplitAfterPiece(a[1..], rest, sep);
      assert [a[0]] + a[1..] == a;
    }
  }

  /** The edge "a-b" of two hyphen-free names has ends a and b. */
  lemma EdgeEndpoints(a: string, b: string)
    requires '-' !in a && '-' !in b
    ensures Endpoints(a + "-" + b) == (a, b)
  {
    SplitAfterPiece(a, b, '-');
    SplitWithoutSeparator(b, '-');
    assert Split(a + "-" + b, '-') == [a, b];
  }

  /** The graph of the single edge "a-b" between two distinct places. */
  lemma OneEdgeGraph(a: string, b: string)
    requires '-' !in a && '-' !in b && a != b
    ensures GraphOf([a + "-" + b]) == map[a := [b], b := [a]]
  {
    EdgeEndpoints(a, b);
    assert [a + "-" + b][..0] == [];
  }

  /** An edge "a-a" from a place to itself is added twice to that place's
      own list: the builder does not skip self-loops. */
  lemma SelfLoopGraph(a: string)
    requires '-' !in a
    ensures GraphOf([a + "-" + a]) == map[a := [a, a]]
  {
    EdgeEndpoints(a, a);
    assert [a + "-" + a][..0] == [];
    assert [a] + [a] == [a, a];
  }

  /** `buildGraph(["X-Y"])`. */
  lemma BuildGraphExampleOne()
    ensures GraphOf(["X-Y"]) == map["X" := ["Y"], "Y" := ["X"]]
  {
    assert "X-Y" == "X" + "-" + "Y";
    OneEdgeGraph("X", "Y");
  }

  /** `buildGraph(["A-B", "B-C"])`: B's list holds A then C. */
  lemma BuildGraphExampleTwo()
    ensures GraphOf(["A-B", "B-C"]) == map["A" := ["B"], "B" := ["A", "C"], "C" := ["B"]]
  {
    assert "A-B" == "A" + "-" + "B" && "B-C" == "B" + "-" + "C";
    OneEdgeGraph("A", "B");
    EdgeEndpoints("B", "C");
    assert ["A-B", "B-C"][..1] == ["A-B"];
    AddEdgesBC();
  }

  lemma AddEdgesBC()
    ensures var g1: Graph := map["A" := ["B"], "B" := ["A"]];
      AddEdge(AddEdge(g1, "B", "C"), "C", "B") == map["A" := ["B"], "B" := ["A", "C"], "C" := ["B"]]
  {
    var g1: Graph := map["A" := ["B"], "B" := ["A"]];
    assert ["A"] + ["C"] == ["A", "C"];
    assert AddEdge(g1, "B", "C") == g1["B" := ["A", "C"]];
  }

  /** A parcel: where it is and where it has to go. */
  datatype Parcel = Parcel(place: string, address: string)

  /** `class VillageState`: the robot's place and the undelivered parcels. */
  datatype VillageState = VillageState(place: string, parcels: seq<Parcel>)

  /** The parcels carried along from `from` to `to`: the `map` step. Every
      parcel keeps its position and its address; those at `from` are now at
      `to`, the others are untouched, so none is left behind at `from`. */
  function Carry(parcels: seq<Parcel>, from: string, to: string): (r: seq<Parcel>)
    ensures |r| == |parcels|
    ensures forall i :: 0 <= i < |r| ==> r[i].address == parcels[i].address
    ensures forall i :: 0 <= i < |r| && parcels[i].place == from ==> r[i].place == to
    ensures forall i :: 0 <= i < |r| && parcels[i].place != from ==> r[i] == parcels[i]
    ensures from != to ==> forall p :: p in r ==> p.place != from
  {
    seq(|parcels|, i requires 0 <= i < |parcels| =>
      if parcels[i].place != from then parcels[i] else Parcel(to, parcels[i].address))
  }

  /** `p.adress`: a parcel has no property by that misspelled name, so the
      lookup gives `undefined`. */
  function Adress(p: Parcel): Option<string>
  {
    None
  }

  /** The `filter(p => p.place != p.adress)` step as written: a place is
      never equal to `undefined`, so every parcel passes. */
  function KeepAsWritten(parcels: seq<Parcel>): (r: seq<Parcel>)
    ensures |r| <= |parcels|
  {
    if parcels == [] then []
    else (if Some(parcels[0].place) != Adress(parcels[0]) then [parcels[0]] else []) + KeepAsWritten(parcels[1..])
  }

  lemma {:induction false} KeepAsWrittenKeepsAll(parcels: seq<Parcel>)
    ensures KeepAsWritten(parcels) == parcels
  {
    if parcels != [] {
      KeepAsWrittenKeepsAll(parcels[1..]);
    }
  }

  /** `move(destination)`: stays put unless the destination is a neighbour
      of the current place; otherwise a new state at the destination, with
      the parcels at the old place carried along. The graph is passed in; a
      place missing from it makes `roadGraph[this.place].includes` throw,
      so the place must be a key. */
  function Move(graph: Graph, state: VillageState, destination: string): (r: VillageState)
    requires state.place in graph
    ensures destination !in graph[state.place] ==> r == state
    ensures destination in graph[state.place] ==>
      && r.place == destination
      && |r.parcels| == |state.parcels|
      && forall i :: 0 <= i < |r.parcels| ==>
           r.parcels[i] == if state.parcels[i].place == state.place
                           then Parcel(destination, state.parcels[i].address)
                           else state.parcels[i]
  {
    if destination !in graph[state.place] then state
    else
      var carried := Carry(state.parcels, state.place, destination);
      KeepAsWrittenKeepsAll(carried);
      VillageState(destination, KeepAsWritten(carried))
  }

  /** As written, a move never delivers: a parcel brought to its address
      stays in the list. */
  lemma MoveKeepsDeliveredParcel()
    ensures var graph := map["A" := ["B"], "B" := ["A"]];
      Move(graph, VillageState("A", [Parcel("A", "B")]), "B").parcels == [Parcel("B", "B")]
  {
  }

  /** The evidently intended filter `p => p.place != p.address`: keeps the
      undelivered parcels, in their order, and only those. */
  function KeepUndelivered(parcels: seq<Parcel>): (r: seq<Parcel>)
    ensures |r| <= |parcels|
  {
    if parcels == [] then []
    else (if parcels[0].place != parcels[0].address then [parcels[0]] else []) + KeepUndelivered(parcels[1..])
  }

  /** A parcel is kept exactly when it was there and is not at its address. */
  lemma {:induction false} KeepUndeliveredMembers(parcels: seq<Parcel>)
    ensures forall p :: p in KeepUndelivered(parcels) <==> p in parcels && p.place != p.address
  {
    if parcels != [] {
      KeepUndeliveredMembers(parcels[1..]);
      assert parcels == [parcels[0]] + parcels[1..];
    }
  }

  /** When no parcel is at its address, the filter keeps the list as it is. */
  lemma {:induction false} KeepUndeliveredKeepsAll(parcels: seq<Parcel>)
    requires forall p :: p in parcels ==> p.place != p.address
    ensures KeepUndelivered(parcels) == parcels
  {
    if parcels != [] {
      assert parcels[0] in parcels;
      KeepUndeliveredKeepsAll(parcels[1..]);
      assert [parcels[0]] + parcels[1..] == parcels;
    }
  }

  /** Filtering distributes over concatenation, so the kept parcels keep
      their relative order. */
  lemma {:induction false} KeepUndeliveredAppend(xs: seq<Parcel>, ys: seq<Parcel>)
    ensures KeepUndelivered(xs + ys) == KeepUndelivered(xs) + KeepUndelivered(ys)
  {
    if xs != [] {
      var head := if xs[0].place != xs[0].address then [xs[0]] else [];
      assert (xs + ys)[0] == xs[0] && (xs + ys)[1..] == xs[1..] + ys;
      assert KeepUndelivered(xs + ys) == head + KeepUndelivered(xs[1..] + ys);
      KeepUndeliveredAppend(xs[1..], ys);
      assert KeepUndelivered(xs) == head + KeepUndelivered(xs[1..]);
      assert head + (KeepUndelivered(xs[1..]) + KeepUndelivered(ys)) == (head + KeepUndelivered(xs[1..])) + KeepUndelivered(ys);
    } else {
      assert xs + ys == ys;
    }
  }

  /** `move` with the intended filter: parcels that arrive at their address
      are delivered and leave the state; the other parcels of the move as
      written are kept, in their order. */
  function MoveDelivering(graph: Graph, state: VillageState, destination: string): (r: VillageState)
    requires state.place in graph
    ensures destination !in graph[state.place] ==> r == state
    ensures destination in graph[state.place] ==> r.place == destination
    ensures destination in graph[state.place] ==>
      r.parcels == KeepUndelivered(Move(graph, state, destination).parcels)
  {
    if destination !in graph[state.place] then state
    else
      var carried := Carry(state.parcels, state.place, destination);
      assert Move(graph, state, destination).parcels == carried;
      VillageState(destination, KeepUndelivered(carried))
  }

  lemma MoveDeliveringDropsDeliveredParcel()
    ensures var graph := map["A" := ["B"], "B" := ["A"]];
      MoveDelivering(graph, VillageState("A", [Parcel("A", "B")]), "B").parcels == []
  {
  }
}
