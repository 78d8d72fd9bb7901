/**
 * The interactive room graph: the networkx Graph that the InteractiveGraph
 * scripts fill with room, door, window and wall nodes and with undirected
 * edges read from the CSV files, and the colour each edge is drawn with.
 *
 * A node is a name with the attributes `color`, `GlobalId` and, for element
 * nodes, `OID`; `G.nodes` lists the names in insertion order. An edge is
 * known by the set of its end nodes (one node for a self-loop) and carries
 * the attributes `Access` and `Category`, each set or not; adding an edge
 * that exists updates the attributes given and keeps the others.
 */
module InteractiveGraph {
  import opened Common
  import opened Ifc
  import opened Text
  import Relations
  import Neo4jGraph
  import SpaceFilters

  datatype NodeAttrs = NodeAttrs(color: string, globalId: string, oid: Option<EntityId>)

  datatype EdgeAttrs = EdgeAttrs(access: Option<string>, category: Option<string>)

  type EdgeKey = set<string>

  /** The contents of a graph: node names in insertion order, the
    * attributes of each node, the edges with their attributes. */
  datatype GraphState = GraphState(nodes: seq<string>, attrs: map<string, NodeAttrs>, edges: map<EdgeKey, EdgeAttrs>)
  {
    /** Each node listed once and given attributes, and every edge between
      * nodes of the graph. */
    predicate Valid()
    {
      Distinct(nodes)
      && (forall n :: n in nodes ==> n in attrs)
      && (forall n :: n in attrs ==> n in nodes)
      && (forall e :: e in edges ==> e <= attrs.Keys)
    }
  }

  // ---------------------------------------------------------------------
  // Adding nodes and edges

  /** `G.add_node(n, **a)` on a node that exists: the attributes given
    * replace the old ones, an `OID` not given stays. */
  function MergeNode(prev: NodeAttrs, a: NodeAttrs): (r: NodeAttrs)
    ensures r.color == a.color && r.globalId == a.globalId
    ensures r.oid == if a.oid.Some? then a.oid else prev.oid
  {
    a.(oid := if a.oid.Some? then a.oid else prev.oid)
  }

  /** `G.add_node(n, **a)`: a new name goes to the end of the node list,
    * a name already there keeps its place. */
  function WithNode(g: GraphState, n: string, a: NodeAttrs): (r: GraphState)
    ensures g.Valid() ==> r.Valid()
    ensures r.edges == g.edges
    ensures forall m :: m in r.attrs <==> m in g.attrs || m == n
    ensures forall m :: m in g.attrs && m != n ==> r.attrs[m] == g.attrs[m]
    ensures r.attrs[n].globalId == a.globalId && r.attrs[n].color == a.color
    ensures g.nodes <= r.nodes
  {
    if n in g.attrs then g.(attrs := g.attrs[n := MergeNode(g.attrs[n], a)])
    else GraphState(g.nodes + [n], g.attrs[n := a], g.edges)
  }

  /** `G.add_edge(u, v, **upd)` on an edge that exists: the attributes
    * given replace the old ones, the others stay. */
  function MergeEdge(prev: EdgeAttrs, upd: EdgeAttrs): (r: EdgeAttrs)
    ensures r.access == if upd.access.Some? then upd.access else prev.access
    ensures r.category == if upd.category.Some? then upd.category else prev.category
  {
    EdgeAttrs(if upd.access.Some? then upd.access else prev.access,
              if upd.category.Some? then upd.category else prev.category)
  }

  /** The attributes an edge has after `G.add_edge` with `upd`. */
  function Updated(edges: map<EdgeKey, EdgeAttrs>, key: EdgeKey, upd: EdgeAttrs): EdgeAttrs
  {
    if key in edges then MergeEdge(edges[key], upd) else upd
  }

  function PutEdge(edges: map<EdgeKey, EdgeAttrs>, key: EdgeKey, upd: EdgeAttrs): map<EdgeKey, EdgeAttrs>
  {
    edges[key := Updated(edges, key, upd)]
  }

  /** A run of `G.add_edge` calls with the same attributes, one per key
    * that is present, in order. */
  function PutAll(edges: map<EdgeKey, EdgeAttrs>, keys: seq<Option<EdgeKey>>, upd: EdgeAttrs): map<EdgeKey, EdgeAttrs>
    decreases |keys|
  {
    if |keys| == 0 then edges
    else
      var e := PutAll(edges, keys[..|keys| - 1], upd);
      match keys[|keys| - 1]
      case None => e
      case Some(key) => PutEdge(e, key, upd)
  }

  /** After the run an edge is there exactly when it was before or one of
    * the keys names it. */
  lemma {:induction false} PutAllMembers(edges: map<EdgeKey, EdgeAttrs>, keys: seq<Option<EdgeKey>>, upd: EdgeAttrs, key: EdgeKey)
    ensures key in PutAll(edges, keys, upd) <==> key in edges || Some(key) in keys
    decreases |keys|
  {
    if |keys| > 0 {
      PutAllMembers(edges, keys[..|keys| - 1], upd, key);
      assert keys == keys[..|keys| - 1] + [keys[|keys| - 1]];
    }
  }

  /** An edge the run names ends with the run's attributes laid over what
    * it had before; every other edge keeps its attributes. */
  lemma {:induction false} PutAllValue(edges: map<EdgeKey, EdgeAttrs>, keys: seq<Option<EdgeKey>>, upd: EdgeAttrs, key: EdgeKey)
    requires key in edges || Some(key) in keys
    ensures key in PutAll(edges, keys, upd)
    ensures PutAll(edges, keys, upd)[key] == if Some(key) in keys then Updated(edges, key, upd) else edges[key]
    decreases |keys|
  {
    PutAllMembers(edges, keys, upd, key);
    if |keys| > 0 {
      var init := keys[..|keys| - 1];
      assert keys == init + [keys[|keys| - 1]];
      var e := PutAll(edges, init, upd);
      PutAllMembers(edges, init, upd, key);
      if key in edges || Some(key) in init {
        PutAllValue(edges, init, upd, key);
        if keys[|keys| - 1] == Some(key) && Some(key) in init {
          assert MergeEdge(Updated(edges, key, upd), upd) == Updated(edges, key, upd);
        }
      }
    }
  }

  /** The run adds no edge whose end nodes lie outside `within`. */
  lemma PutAllWithin(edges: map<EdgeKey, EdgeAttrs>, keys: seq<Option<EdgeKey>>, upd: EdgeAttrs, within: set<string>)
    requires forall e :: e in edges ==> e <= within
    requires forall k :: 0 <= k < |keys| && keys[k].Some? ==> keys[k].value <= within
    ensures forall e :: e in PutAll(edges, keys, upd) ==> e <= within
  {
    forall e | e in PutAll(edges, keys, upd) ensures e <= within {
      PutAllMembers(edges, keys, upd, e);
    }
  }

  // ---------------------------------------------------------------------
  // Finding a node by its GlobalId

  predicate HasGlobalId(attrs: map<string, NodeAttrs>, n: string, gid: string)
  {
    n in attrs && attrs[n].globalId == gid
  }

  /** The node a loop over `G.nodes` without `break` ends on: the last one
    * whose GlobalId is `gid`. */
  function LastWithGlobalId(nodes: seq<string>, attrs: map<string, NodeAttrs>, gid: string): (r: Option<string>)
    ensures r.None? <==> forall k :: 0 <= k < |nodes| ==> !HasGlobalId(attrs, nodes[k], gid)
    ensures r.Some? ==> HasGlobalId(attrs, r.value, gid)
    ensures r.Some? ==>
      exists k :: 0 <= k < |nodes| && nodes[k] == r.value && forall k' :: k < k' < |nodes| ==> !HasGlobalId(attrs, nodes[k'], gid)
    decreases |nodes|
  {
    if |nodes| == 0 then None
    else if HasGlobalId(attrs, nodes[|nodes| - 1], gid) then Some(nodes[|nodes| - 1])
    else
      var r := LastWithGlobalId(nodes[..|nodes| - 1], attrs, gid);
      assert forall k :: 0 <= k < |nodes| - 1 ==> nodes[..|nodes| - 1][k] == nodes[k];
      r
  }

  /** The node a loop over `G.nodes` with `break` stops at: the first one
    * whose GlobalId is `gid`. */
  function FirstWithGlobalId(nodes: seq<string>, attrs: map<string, NodeAttrs>, gid: string): (r: Option<string>)
    ensures r.None? <==> forall k :: 0 <= k < |nodes| ==> !HasGlobalId(attrs, nodes[k], gid)
    ensures r.Some? ==> HasGlobalId(attrs, r.value, gid)
    ensures r.Some? ==>
      exists k :: 0 <= k < |nodes| && nodes[k] == r.value && forall k' :: 0 <= k' < k ==> !HasGlobalId(attrs, nodes[k'], gid)
    decreases |nodes|
  {
    if |nodes| == 0 then None
    else if HasGlobalId(attrs, nodes[0], gid) then Some(nodes[0])
    else
      var r := FirstWithGlobalId(nodes[1..], attrs, gid);
      assert forall k :: 1 <= k < |nodes| ==> nodes[k] == nodes[1..][k - 1];
      assert r.Some? ==>
        exists k :: 0 <= k < |nodes| && nodes[k] == r.value && forall k' :: 0 <= k' < k ==> !HasGlobalId(attrs, nodes[k'], gid)
      by {
        if r.Some? {
          var k :| 0 <= k < |nodes[1..]| && nodes[1..][k] == r.value && forall k' :: 0 <= k' < k ==> !HasGlobalId(attrs, nodes[1..][k'], gid);
          assert nodes[k + 1] == r.value;
        }
      }
      r
  }

  /** `if room:` on the node found: a name that is not the empty string. */
  function Named(r: Option<string>): Option<string>
  {
    if r.Some? && r.value != "" then r else None
  }

  /** The loop over the nodes for one edge of a connection file: the last
    * node with each end's GlobalId, in one pass. */
  method FindEnds(nodes: seq<string>, attrs: map<string, NodeAttrs>, pair: (string, string)) returns (room1: Option<string>, room2: Option<string>)
    ensures room1 == LastWithGlobalId(nodes, attrs, pair.0)
    ensures room2 == LastWithGlobalId(nodes, attrs, pair.1)
  {
    room1, room2 := None, None;
    for i := 0 to |nodes|
      invariant room1 == LastWithGlobalId(nodes[..i], attrs, pair.0)
      invariant room2 == LastWithGlobalId(nodes[..i], attrs, pair.1)
    {
      assert nodes[..i + 1][..i] == nodes[..i];
      if HasGlobalId(attrs, nodes[i], pair.0) {
        room1 := Some(nodes[i]);
      }
      if HasGlobalId(attrs, nodes[i], pair.1) {
        room2 := Some(nodes[i]);
      }
    }
    assert nodes[..|nodes|] == nodes;
  }

  /** The loop over the nodes that breaks at the first one with GlobalId `gid`. */
  method FindFirst(nodes: seq<string>, attrs: map<string, NodeAttrs>, gid: string) returns (r: Option<string>)
    ensures r == FirstWithGlobalId(nodes, attrs, gid)
  {
    for i := 0 to |nodes|
      invariant forall k :: 0 <= k < i ==> !HasGlobalId(attrs, nodes[k], gid)
    {
      if HasGlobalId(attrs, nodes[i], gid) {
        return Some(nodes[i]);
      }
    }
    return None;
  }

  // ---------------------------------------------------------------------
  // The pairs of GlobalIds a connection file lists

  /** The pairs one line adds for its main room and each neighbour, in
    * order; with `dropSelf` a neighbour equal to the main room is skipped. */
  function NeighbourPairs(main: string, ns: seq<string>, dropSelf: bool): seq<(string, string)>
    decreases |ns|
  {
    if |ns| == 0 then []
    else
      var p := (main, ns[|ns| - 1]);
      NeighbourPairs(main, ns[..|ns| - 1], dropSelf) + (if dropSelf && p.0 == p.1 then [] else [p])
  }

  /** One line `main;n1,n2,...`: nothing when it has no second field. */
  function LinePairs(line: string, dropSelf: bool): seq<(string, string)>
  {
    var parts := Neo4jGraph.LineFields(line);
    if |parts| > 1 then NeighbourPairs(parts[0], Split(parts[1], ','), dropSelf) else []
  }

  /** A pair is listed for a line exactly when it joins the main room to
    * one of its neighbours, the main room itself excluded under `dropSelf`. */
  lemma {:induction false} NeighbourPairsMembers(main: string, ns: seq<string>, dropSelf: bool, p: (string, string))
    ensures p in NeighbourPairs(main, ns, dropSelf) <==> p.0 == main && p.1 in ns && !(dropSelf && p.1 == main)
    decreases |ns|
  {
    if |ns| > 0 {
      NeighbourPairsMembers(main, ns[..|ns| - 1], dropSelf, p);
      assert ns == ns[..|ns| - 1] + [ns[|ns| - 1]];
    }
  }

  /** The lists one loop iteration per item adds, one after the other. */
  function ConcatMap<T, U>(xs: seq<T>, f: T -> seq<U>): seq<U>
    decreases |xs|
  {
    if |xs| == 0 then [] else ConcatMap(xs[..|xs| - 1], f) + f(xs[|xs| - 1])
  }

  /** A value is listed exactly when some item adds it. */
  lemma {:induction false} ConcatMapMembers<T, U>(xs: seq<T>, f: T -> seq<U>, u: U)
    ensures u in ConcatMap(xs, f) <==> exists k :: 0 <= k < |xs| && u in f(xs[k])
    decreases |xs|
  {
    if |xs| > 0 {
      var init := xs[..|xs| - 1];
      ConcatMapMembers(init, f, u);
      if u in ConcatMap(init, f) {
        var k :| 0 <= k < |init| && u in f(init[k]);
        assert init[k] == xs[k];
      }
      if exists k :: 0 <= k < |xs| && u in f(xs[k]) {
        var k :| 0 <= k < |xs| && u in f(xs[k]);
        if k < |init| {
          assert init[k] == xs[k];
        }
      }
    }
  }

  lemma ConcatMapStep<T, U>(xs: seq<T>, f: T -> seq<U>, i: nat)
    requires i < |xs|
    ensures ConcatMap(xs[..i + 1], f) == ConcatMap(xs[..i], f) + f(xs[i])
  {
    assert xs[..i + 1][..i] == xs[..i];
  }

  function LineRule(dropSelf: bool): string -> seq<(string, string)>
  {
    line => LinePairs(line, dropSelf)
  }

  /** The pairs the first loop over the lines collects. */
  function RoomPairs(lines: seq<string>, dropSelf: bool): seq<(string, string)>
  {
    ConcatMap(lines, LineRule(dropSelf))
  }

  /** A pair is listed exactly when some line lists it. */
  lemma RoomPairsMembers(lines: seq<string>, dropSelf: bool, p: (string, string))
    ensures p in RoomPairs(lines, dropSelf) <==> exists k :: 0 <= k < |lines| && p in LinePairs(lines[k], dropSelf)
  {
    ConcatMapMembers(lines, LineRule(dropSelf), p);
  }

  /** The loop over the neighbours of one line. */
  method CollectNeighbourPairs(main: string, ns: seq<string>, dropSelf: bool) returns (row: seq<(string, string)>)
    ensures row == NeighbourPairs(main, ns, dropSelf)
  {
    row := [];
    for j := 0 to |ns|
      invariant row == NeighbourPairs(main, ns[..j], dropSelf)
    {
      assert ns[..j + 1][..j] == ns[..j];
      if !dropSelf || main != ns[j] {
        row := row + [(main, ns[j])];
      }
    }
    assert ns[..|ns|] == ns;
  }

  /** The first loop of process_csv_room_connections (without `dropSelf`)
    * and of process_direct_connections (with it). */
  method CollectRoomPairs(lines: seq<string>, dropSelf: bool) returns (pairs: seq<(string, string)>)
    ensures pairs == RoomPairs(lines, dropSelf)
  {
    pairs := [];
    for i := 0 to |lines|
      invariant pairs == RoomPairs(lines[..i], dropSelf)
    {
      assert lines[..i + 1][..i] == lines[..i];
      var parts := Neo4jGraph.LineFields(lines[i]);
      var row := [];
      if |parts| > 1 {
        row := CollectNeighbourPairs(parts[0], Split(parts[1], ','), dropSelf);
      }
      assert row == LinePairs(lines[i], dropSelf);
      pairs := pairs + row;
    }
    assert lines[..|lines|] == lines;
  }

  /** The nested loops `for i in range(len(ids) - 1): for j in range(i + 1,
    * len(ids))` keeping the pairs of different ids: for each id in turn,
    * the pairs with the ids after it. */
  function OrderedPairs(ids: seq<string>): seq<(string, string)>
    decreases |ids|
  {
    if |ids| <= 1 then [] else NeighbourPairs(ids[0], ids[1..], true) + OrderedPairs(ids[1..])
  }

  /** A pair is listed exactly when it joins two different ids, the first
    * one listed before the second. */
  lemma {:induction false} OrderedPairsMembers(ids: seq<string>, p: (string, string))
    ensures p in OrderedPairs(ids) <==>
      exists i, j :: 0 <= i < j < |ids| && p == (ids[i], ids[j]) && ids[i] != ids[j]
    decreases |ids|
  {
    if |ids| > 1 {
      var rest := ids[1..];
      OrderedPairsMembers(rest, p);
      NeighbourPairsMembers(ids[0], rest, true, p);
      if p in NeighbourPairs(ids[0], rest, true) {
        var j :| 0 <= j < |rest| && rest[j] == p.1;
        assert ids[j + 1] == p.1;
      } else if p in OrderedPairs(rest) {
        var i, j :| 0 <= i < j < |rest| && p == (rest[i], rest[j]) && rest[i] != rest[j];
        assert ids[i + 1] == rest[i] && ids[j + 1] == rest[j];
      }
      if exists i, j :: 0 <= i < j < |ids| && p == (ids[i], ids[j]) && ids[i] != ids[j] {
        var i, j :| 0 <= i < j < |ids| && p == (ids[i], ids[j]) && ids[i] != ids[j];
        assert ids[j] == rest[j - 1];
        if i > 0 {
          assert ids[i] == rest[i - 1];
          assert exists i', j' :: 0 <= i' < j' < |rest| && p == (rest[i'], rest[j']) && rest[i'] != rest[j'];
        }
      }
    }
  }

  /** The nested loops over the ids of one line. */
  method CollectOrderedPairs(ids: seq<string>) returns (pairs: seq<(string, string)>)
    ensures pairs == OrderedPairs(ids)
  {
    pairs := [];
    if |ids| == 0 {
      return;
    }
    for i := 0 to |ids| - 1
      invariant OrderedPairs(ids) == pairs + OrderedPairs(ids[i..])
    {
      assert ids[i..][1..] == ids[i + 1..];
      var row := CollectNeighbourPairs(ids[i], ids[i + 1..], true);
      pairs := pairs + row;
    }
  }

  function ElementLinePairs(line: string): seq<(string, string)>
  {
    var parts := Neo4jGraph.LineFields(line);
    if |parts| > 1 then OrderedPairs(Split(parts[1], ',')) else []
  }

  /** The pairs of rooms that process_element_connections reads: on each
    * line, the rooms one door or window joins, pair by pair. */
  function ElementPairs(lines: seq<string>): seq<(string, string)>
  {
    ConcatMap(lines, ElementLinePairs)
  }

  /** No listed pair joins a room to itself. */
  lemma ElementPairsDiffer(lines: seq<string>)
    ensures forall p :: p in ElementPairs(lines) ==> p.0 != p.1
  {
    forall p | p in ElementPairs(lines) ensures p.0 != p.1 {
      ConcatMapMembers(lines, ElementLinePairs, p);
      var k :| 0 <= k < |lines| && p in ElementLinePairs(lines[k]);
      OrderedPairsMembers(Split(Neo4jGraph.LineFields(lines[k])[1], ','), p);
    }
  }

  method CollectElementPairs(lines: seq<string>) returns (pairs: seq<(string, string)>)
    ensures pairs == ElementPairs(lines)
  {
    pairs := [];
    for i := 0 to |lines|
      invariant pairs == ElementPairs(lines[..i])
    {
      assert lines[..i + 1][..i] == lines[..i];
      assert ElementPairs(lines[..i + 1]) == ElementPairs(lines[..i]) + ElementLinePairs(lines[i]);
      var parts := Neo4jGraph.LineFields(lines[i]);
      if |parts| > 1 {
        var more := CollectOrderedPairs(Split(parts[1], ','));
        pairs := pairs + more;
      }
    }
    assert lines[..|lines|] == lines;
  }

  // ---------------------------------------------------------------------
  // Connecting the rooms a file lists

  /** `if room1 and room2: G.add_edge(room1, room2, ...)`: the edge between
    * the two nodes found, when both are. */
  function EndsKey(room1: Option<string>, room2: Option<string>): (r: Option<EdgeKey>)
    ensures r.Some? <==> Named(room1).Some? && Named(room2).Some?
    ensures r.Some? ==> r.value == {room1.value, room2.value}
  {
    if Named(room1).Some? && Named(room2).Some? then Some({room1.value, room2.value}) else None
  }

  /** The edge the second loop adds for one pair: between the last nodes
    * with the two GlobalIds. */
  function PairKey(g: GraphState, p: (string, string)): Option<EdgeKey>
  {
    EndsKey(LastWithGlobalId(g.nodes, g.attrs, p.0), LastWithGlobalId(g.nodes, g.attrs, p.1))
  }

  /** One more step of a run of `add_edge` calls. */
  lemma PutAllStep(edges: map<EdgeKey, EdgeAttrs>, keys: seq<Option<EdgeKey>>, upd: EdgeAttrs, i: nat)
    requires i < |keys|
    ensures PutAll(edges, keys[..i + 1], upd) ==
      if keys[i].Some? then PutEdge(PutAll(edges, keys[..i], upd), keys[i].value, upd) else PutAll(edges, keys[..i], upd)
  {
    assert keys[..i + 1][..i] == keys[..i];
  }

  function PairKeys(g: GraphState, pairs: seq<(string, string)>): (keys: seq<Option<EdgeKey>>)
    ensures |keys| == |pairs|
    ensures forall k :: 0 <= k < |pairs| ==> keys[k] == PairKey(g, pairs[k])
  {
    seq(|pairs|, k requires 0 <= k < |pairs| => PairKey(g, pairs[k]))
  }

  /** The graph after the second loop: one `add_edge` per pair whose ends
    * are both found, with attributes `upd`. */
  function Connect(g: GraphState, pairs: seq<(string, string)>, upd: EdgeAttrs): GraphState
  {
    g.(edges := PutAll(g.edges, PairKeys(g, pairs), upd))
  }

  /** The edges a pair adds lie between nodes of the graph. */
  lemma PairKeysWithin(g: GraphState, pairs: seq<(string, string)>)
    ensures forall k :: 0 <= k < |pairs| && PairKeys(g, pairs)[k].Some? ==> PairKeys(g, pairs)[k].value <= g.attrs.Keys
  {
  }

  lemma ConnectValid(g: GraphState, pairs: seq<(string, string)>, upd: EdgeAttrs)
    requires g.Valid()
    ensures Connect(g, pairs, upd).Valid()
    ensures Connect(g, pairs, upd).nodes == g.nodes && Connect(g, pairs, upd).attrs == g.attrs
  {
    PairKeysWithin(g, pairs);
    PutAllWithin(g.edges, PairKeys(g, pairs), upd, g.attrs.Keys);
  }

  /** The second loop of the three connection functions, over the nodes of
    * the graph it leaves unchanged. */
  method ConnectPairs(g: GraphState, pairs: seq<(string, string)>, upd: EdgeAttrs) returns (edges: map<EdgeKey, EdgeAttrs>)
    ensures edges == Connect(g, pairs, upd).edges
  {
    edges := g.edges;
    ghost var keys := PairKeys(g, pairs);
    for i := 0 to |pairs|
      invariant edges == PutAll(g.edges, keys[..i], upd)
    {
      PutAllStep(g.edges, keys, upd, i);
      var room1, room2 := FindEnds(g.nodes, g.attrs, pairs[i]);
      var key := EndsKey(room1, room2);
      if key.Some? {
        edges := PutEdge(edges, key.value, upd);
      }
    }
    assert keys[..|pairs|] == keys;
  }

  // ---------------------------------------------------------------------
  // Connection files

  /** process_csv_room_connections: an edge with `Access` for each listed
    * pair of rooms, a room listed as its own neighbour included. */
  function RoomConnections(g: GraphState, lines: seq<string>, accessType: string): GraphState
  {
    Connect(g, RoomPairs(lines, false), EdgeAttrs(Some(accessType), None))
  }

  /** process_direct_connections: the same, self-references skipped,
    * `Access` "Direct". */
  function DirectConnections(g: GraphState, lines: seq<string>): GraphState
  {
    Connect(g, RoomPairs(lines, true), EdgeAttrs(Some("Direct"), None))
  }

  /** process_element_connections: an edge with `Access` between each two
    * different rooms a door or window joins. */
  function ElementConnections(g: GraphState, lines: seq<string>, accessType: string): GraphState
  {
    Connect(g, ElementPairs(lines), EdgeAttrs(Some(accessType), None))
  }

  lemma PairKeysMembers(g: GraphState, pairs: seq<(string, string)>, key: EdgeKey)
    ensures Some(key) in PairKeys(g, pairs) <==> exists k :: 0 <= k < |pairs| && PairKey(g, pairs[k]) == Some(key)
  {
    if Some(key) in PairKeys(g, pairs) {
      var k :| 0 <= k < |pairs| && PairKeys(g, pairs)[k] == Some(key);
    }
  }

  /** After the loop an edge is there exactly when it was before or some
    * listed pair joins its two end nodes; the attributes of an edge the
    * loop adds are `upd` laid over what it had. */
  lemma ConnectEdges(g: GraphState, pairs: seq<(string, string)>, upd: EdgeAttrs, key: EdgeKey)
    ensures key in Connect(g, pairs, upd).edges <==>
      key in g.edges || exists k :: 0 <= k < |pairs| && PairKey(g, pairs[k]) == Some(key)
    ensures (exists k :: 0 <= k < |pairs| && PairKey(g, pairs[k]) == Some(key)) ==>
      Connect(g, pairs, upd).edges[key] == Updated(g.edges, key, upd)
    ensures key in g.edges && (forall k :: 0 <= k < |pairs| ==> PairKey(g, pairs[k]) != Some(key)) ==>
      Connect(g, pairs, upd).edges[key] == g.edges[key]
  {
    PairKeysMembers(g, pairs, key);
    PutAllMembers(g.edges, PairKeys(g, pairs), upd, key);
    if key in g.edges || Some(key) in PairKeys(g, pairs) {
      PutAllValue(g.edges, PairKeys(g, pairs), upd, key);
    }
  }

  /** A pair of GlobalIds that differ never gives a self-loop: no node has
    * two GlobalIds. */
  lemma PairKeyTwoEnds(g: GraphState, p: (string, string))
    requires p.0 != p.1 && PairKey(g, p).Some?
    ensures |PairKey(g, p).value| == 2
  {
    var a := LastWithGlobalId(g.nodes, g.attrs, p.0).value;
    var b := LastWithGlobalId(g.nodes, g.attrs, p.1).value;
    assert a != b;
    assert {a, b} == {a} + {b};
  }

  /** When no listed pair joins an id to itself, every edge the loop adds
    * joins two different nodes. */
  lemma ConnectTwoEnds(g: GraphState, pairs: seq<(string, string)>, upd: EdgeAttrs)
    requires forall k :: 0 <= k < |pairs| ==> pairs[k].0 != pairs[k].1
    ensures forall key :: key in Connect(g, pairs, upd).edges && key !in g.edges ==> |key| == 2
  {
    forall key | key in Connect(g, pairs, upd).edges && key !in g.edges ensures |key| == 2 {
      ConnectEdges(g, pairs, upd, key);
      var k :| 0 <= k < |pairs| && PairKey(g, pairs[k]) == Some(key);
      PairKeyTwoEnds(g, pairs[k]);
    }
  }

  /** process_direct_connections adds no self-loop. */
  lemma DirectConnectionsNoSelfLoop(g: GraphState, lines: seq<string>)
    ensures forall key :: key in DirectConnections(g, lines).edges && key !in g.edges ==> |key| == 2
  {
    var pairs := RoomPairs(lines, true);
    forall k | 0 <= k < |pairs| ensures pairs[k].0 != pairs[k].1 {
      RoomPairsMembers(lines, true, pairs[k]);
      var j :| 0 <= j < |lines| && pairs[k] in LinePairs(lines[j], true);
      var parts := Neo4jGraph.LineFields(lines[j]);
      NeighbourPairsMembers(parts[0], Split(parts[1], ','), true, pairs[k]);
    }
    ConnectTwoEnds(g, pairs, EdgeAttrs(Some("Direct"), None));
  }

  /** process_element_connections adds no self-loop. */
  lemma ElementConnectionsNoSelfLoop(g: GraphState, lines: seq<string>, accessType: string)
    ensures forall key :: key in ElementConnections(g, lines, accessType).edges && key !in g.edges ==> |key| == 2
  {
    ElementPairsDiffer(lines);
    ConnectTwoEnds(g, ElementPairs(lines), EdgeAttrs(Some(accessType), None));
  }

  /** process_csv_room_connections keeps self-references: a line that lists
    * its own room among the neighbours gives that room's node a self-loop
    * with the file's `Access`. */
  lemma RoomConnectionsSelfLoop(g: GraphState, lines: seq<string>, accessType: string, k: nat)
    requires k < |lines|
    requires |Neo4jGraph.LineFields(lines[k])| > 1
    requires Neo4jGraph.LineFields(lines[k])[0] in Split(Neo4jGraph.LineFields(lines[k])[1], ',')
    requires Named(LastWithGlobalId(g.nodes, g.attrs, Neo4jGraph.LineFields(lines[k])[0])).Some?
    ensures var room := LastWithGlobalId(g.nodes, g.attrs, Neo4jGraph.LineFields(lines[k])[0]).value;
      {room} in RoomConnections(g, lines, accessType).edges
      && RoomConnections(g, lines, accessType).edges[{room}].access == Some(accessType)
  {
    var parts := Neo4jGraph.LineFields(lines[k]);
    var p := (parts[0], parts[0]);
    var room := LastWithGlobalId(g.nodes, g.attrs, parts[0]).value;
    var pairs := RoomPairs(lines, false);
    NeighbourPairsMembers(parts[0], Split(parts[1], ','), false, p);
    RoomPairsMembers(lines, false, p);
    var j :| 0 <= j < |pairs| && pairs[j] == p;
    assert {room, room} == {room};
    assert PairKey(g, pairs[j]) == Some({room});
    ConnectEdges(g, pairs, EdgeAttrs(Some(accessType), None), {room});
  }

  // ---------------------------------------------------------------------
  // Node names

  predicate IfcAt(s: string, i: int)
  {
    0 <= i && i + 3 <= |s| && s[i] == 'I' && s[i + 1] == 'f' && s[i + 2] == 'c'
  }

  /** `element_type.split('Ifc')[-1]`: what follows the last "Ifc", or the
    * whole string when there is none ("Ifc" cannot overlap itself, so the
    * last piece of the split starts after the last occurrence). */
  function AfterLastIfc(s: string): (r: string)
    ensures |r| <= |s|
    decreases |s|
  {
    if IfcAt(s, |s| - 3) then ""
    else if |s| == 0 then ""
    else AfterLastIfc(s[..|s| - 1]) + [s[|s| - 1]]
  }

  /** The class name after the prefix "Ifc", when it holds no other "Ifc". */
  lemma {:induction false} AfterLastIfcPrefix(name: string)
    requires forall i :: 0 <= i ==> !IfcAt(name, i)
    ensures AfterLastIfc("Ifc" + name) == name
    decreases |name|
  {
    var s := "Ifc" + name;
    if |name| == 0 {
      assert IfcAt(s, 0);
    } else {
      var init := name[..|name| - 1];
      forall i | 0 <= i ensures !IfcAt(init, i) {
        assert !IfcAt(name, i);
      }
      AfterLastIfcPrefix(init);
      assert s[..|s| - 1] == "Ifc" + init;
      assert !IfcAt(s, |s| - 3) by {
        if |name| >= 3 {
          assert !IfcAt(name, |name| - 3);
        }
      }
      assert name == init + [name[|name| - 1]];
    }
  }

  lemma DoorAndWindowLabels()
    ensures AfterLastIfc("IfcDoor") == "Door" && AfterLastIfc("IfcWindow") == "Window"
  {
    AfterLastIfcPrefix("Door");
    assert "Ifc" + "Door" == "IfcDoor";
    AfterLastIfcPrefix("Window");
    assert "Ifc" + "Window" == "IfcWindow";
  }

  /** The node of a door or window: `f"{element_type.split('Ifc')[-1]}_{oid}"`. */
  function ElementLabel(elementType: string, oid: EntityId): string
  {
    AfterLastIfc(elementType) + "_" + DecimalString(oid)
  }

  /** The node of a wall: `f"Wall_{oid}"`. */
  function WallLabel(oid: EntityId): string
  {
    "Wall_" + DecimalString(oid)
  }

  /** The node of a room: `f"Room_{space.Name}"`; a missing Name prints as "None". */
  function RoomLabel(space: Space): string
  {
    "Room_" + (if space.name.Some? then space.name.value else "None")
  }

  /** Wall nodes of different walls have different names. */
  lemma WallLabelInjective(a: EntityId, b: EntityId)
    requires WallLabel(a) == WallLabel(b)
    ensures a == b
  {
    assert DecimalString(a) == WallLabel(a)[5..];
    assert DecimalString(b) == WallLabel(b)[5..];
    DecimalStringInjective(a, b);
  }

  // ---------------------------------------------------------------------
  // Adding nodes

  /** A run of `G.add_node` calls, in order. */
  function AddNodes(g: GraphState, entries: seq<(string, NodeAttrs)>): (r: GraphState)
    ensures g.Valid() ==> r.Valid()
    ensures r.edges == g.edges && g.nodes <= r.nodes
    decreases |entries|
  {
    if |entries| == 0 then g
    else
      var e := entries[|entries| - 1];
      WithNode(AddNodes(g, entries[..|entries| - 1]), e.0, e.1)
  }

  /** After the run a node is there exactly when it was before or the run
    * names it. */
  lemma {:induction false} AddNodesMembers(g: GraphState, entries: seq<(string, NodeAttrs)>, n: string)
    ensures n in AddNodes(g, entries).attrs <==> n in g.attrs || exists k :: 0 <= k < |entries| && entries[k].0 == n
    decreases |entries|
  {
    if |entries| > 0 {
      var init := entries[..|entries| - 1];
      AddNodesMembers(g, init, n);
      if exists k :: 0 <= k < |init| && init[k].0 == n {
        var k :| 0 <= k < |init| && init[k].0 == n;
        assert entries[k].0 == n;
      }
      if exists k :: 0 <= k < |entries| && entries[k].0 == n {
        var k :| 0 <= k < |entries| && entries[k].0 == n;
        if k < |init| {
          assert init[k].0 == n;
        }
      }
    }
  }

  /** A node the run does not name keeps its attributes. */
  lemma {:induction false} AddNodesUntouched(g: GraphState, entries: seq<(string, NodeAttrs)>, n: string)
    requires n in g.attrs
    requires forall k :: 0 <= k < |entries| ==> entries[k].0 != n
    ensures n in AddNodes(g, entries).attrs && AddNodes(g, entries).attrs[n] == g.attrs[n]
    decreases |entries|
  {
    if |entries| > 0 {
      var init := entries[..|entries| - 1];
      assert forall k :: 0 <= k < |init| ==> init[k] == entries[k];
      AddNodesUntouched(g, init, n);
    }
  }

  /** A node the run names has the GlobalId and colour of the last call
    * that names it. */
  lemma {:induction false} AddNodesLast(g: GraphState, entries: seq<(string, NodeAttrs)>, k: nat)
    requires k < |entries|
    requires forall k' :: k < k' < |entries| ==> entries[k'].0 != entries[k].0
    ensures entries[k].0 in AddNodes(g, entries).attrs
    ensures AddNodes(g, entries).attrs[entries[k].0].globalId == entries[k].1.globalId
    ensures AddNodes(g, entries).attrs[entries[k].0].color == entries[k].1.color
    decreases |entries|
  {
    var init := entries[..|entries| - 1];
    if k < |init| {
      assert forall k' :: k < k' < |init| ==> init[k'] == entries[k'];
      AddNodesLast(g, init, k);
      assert init[k] == entries[k];
    }
  }

  function RoomEntries(spaces: seq<Space>): (es: seq<(string, NodeAttrs)>)
    ensures |es| == |spaces|
    ensures forall k :: 0 <= k < |spaces| ==> es[k] == (RoomLabel(spaces[k]), NodeAttrs("yellow", spaces[k].globalId, None))
  {
    seq(|spaces|, k requires 0 <= k < |spaces| => (RoomLabel(spaces[k]), NodeAttrs("yellow", spaces[k].globalId, None)))
  }

  /** The loop of main that adds a yellow node per room. */
  function AddRooms(g: GraphState, spaces: seq<Space>): GraphState
  {
    AddNodes(g, RoomEntries(spaces))
  }

  /** Every room gets a node named after it, and nothing else is added. */
  lemma AddRoomsNodes(g: GraphState, spaces: seq<Space>, n: string)
    ensures n in AddRooms(g, spaces).attrs <==> n in g.attrs || exists k :: 0 <= k < |spaces| && RoomLabel(spaces[k]) == n
  {
    var es := RoomEntries(spaces);
    AddNodesMembers(g, es, n);
    if exists k :: 0 <= k < |es| && es[k].0 == n {
      var k :| 0 <= k < |es| && es[k].0 == n;
      assert RoomLabel(spaces[k]) == n;
    }
    if exists k :: 0 <= k < |spaces| && RoomLabel(spaces[k]) == n {
      var k :| 0 <= k < |spaces| && RoomLabel(spaces[k]) == n;
      assert es[k].0 == n;
    }
  }

  /** A room node is yellow and has the GlobalId of the last room of that
    * name. */
  lemma AddRoomsGlobalId(g: GraphState, spaces: seq<Space>, k: nat)
    requires k < |spaces|
    requires forall k' :: k < k' < |spaces| ==> RoomLabel(spaces[k']) != RoomLabel(spaces[k])
    ensures RoomLabel(spaces[k]) in AddRooms(g, spaces).attrs
    ensures AddRooms(g, spaces).attrs[RoomLabel(spaces[k])].globalId == spaces[k].globalId
    ensures AddRooms(g, spaces).attrs[RoomLabel(spaces[k])].color == "yellow"
  {
    AddNodesLast(g, RoomEntries(spaces), k);
  }

  /** `storey and storey.Name == storey_name` for the wall's first storey. */
  predicate InStorey(wall: Element, storeyName: string)
  {
    var storey := Relations.GetStorey(wall);
    storey.Some? && storey.value.name == Some(storeyName)
  }

  /** The first loop of process_walls: `(wall.id(), wall.GlobalId)` for each
    * wall in the storey. */
  function WallsInStorey(walls: seq<Element>, storeyName: string): seq<(EntityId, string)>
    decreases |walls|
  {
    if |walls| == 0 then []
    else
      var w := walls[|walls| - 1];
      WallsInStorey(walls[..|walls| - 1], storeyName) + (if InStorey(w, storeyName) then [(w.id, w.globalId)] else [])
  }

  lemma {:induction false} WallsInStoreyMembers(walls: seq<Element>, storeyName: string, x: (EntityId, string))
    ensures x in WallsInStorey(walls, storeyName) <==>
      exists k :: 0 <= k < |walls| && InStorey(walls[k], storeyName) && x == (walls[k].id, walls[k].globalId)
    decreases |walls|
  {
    if |walls| > 0 {
      var init := walls[..|walls| - 1];
      WallsInStoreyMembers(init, storeyName, x);
      assert forall k :: 0 <= k < |init| ==> init[k] == walls[k];
      if x in WallsInStorey(init, storeyName) {
        var k :| 0 <= k < |init| && InStorey(init[k], storeyName) && x == (init[k].id, init[k].globalId);
        assert walls[k] == init[k];
      }
    }
  }

  function WallEntries(found: seq<(EntityId, string)>): (es: seq<(string, NodeAttrs)>)
    ensures |es| == |found|
    ensures forall k :: 0 <= k < |found| ==> es[k] == (WallLabel(found[k].0), NodeAttrs("grey", found[k].1, Some(found[k].0)))
  {
    seq(|found|, k requires 0 <= k < |found| => (WallLabel(found[k].0), NodeAttrs("grey", found[k].1, Some(found[k].0))))
  }

  /** process_walls: a grey node `Wall_<oid>` for each wall whose first
    * storey has the name given. */
  function Walls(g: GraphState, walls: seq<Element>, storeyName: string): GraphState
  {
    AddNodes(g, WallEntries(WallsInStorey(walls, storeyName)))
  }

  /** A wall node is added exactly for each wall in the storey. */
  lemma WallsNodes(g: GraphState, walls: seq<Element>, storeyName: string, n: string)
    ensures n in Walls(g, walls, storeyName).attrs <==>
      n in g.attrs || exists k :: 0 <= k < |walls| && InStorey(walls[k], storeyName) && n == WallLabel(walls[k].id)
  {
    var found := WallsInStorey(walls, storeyName);
    AddNodesMembers(g, WallEntries(found), n);
    if exists k :: 0 <= k < |found| && WallEntries(found)[k].0 == n {
      var k :| 0 <= k < |found| && WallEntries(found)[k].0 == n;
      WallsInStoreyMembers(walls, storeyName, found[k]);
    }
    if exists k :: 0 <= k < |walls| && InStorey(walls[k], storeyName) && n == WallLabel(walls[k].id) {
      var k :| 0 <= k < |walls| && InStorey(walls[k], storeyName) && n == WallLabel(walls[k].id);
      WallsInStoreyMembers(walls, storeyName, (walls[k].id, walls[k].globalId));
      var j :| 0 <= j < |found| && found[j] == (walls[k].id, walls[k].globalId);
      assert WallEntries(found)[j].0 == n;
    }
  }

  /** The first loop of process_walls. */
  method CollectWallsInStorey(walls: seq<Element>, storeyName: string) returns (found: seq<(EntityId, string)>)
    ensures found == WallsInStorey(walls, storeyName)
  {
    found := [];
    for i := 0 to |walls|
      invariant found == WallsInStorey(walls[..i], storeyName)
    {
      assert walls[..i + 1][..i] == walls[..i];
      var storey := Relations.GetStorey(walls[i]);
      if storey.Some? && storey.value.name == Some(storeyName) {
        found := found + [(walls[i].id, walls[i].globalId)];
      }
    }
    assert walls[..|walls|] == walls;
  }

  // ---------------------------------------------------------------------
  // process_doors_and_windows

  /** What the first loop keeps from one line `element;room1,room2,...`:
    * the element node to add and the (element, room GlobalId) links. */
  datatype Scan = Scan(found: seq<(string, string, EntityId)>, links: seq<(EntityId, string)>)

  function RoomLinks(oid: EntityId, rooms: seq<string>): (ls: seq<(EntityId, string)>)
    ensures |ls| == |rooms|
    ensures forall k :: 0 <= k < |rooms| ==> ls[k] == (oid, rooms[k])
  {
    seq(|rooms|, k requires 0 <= k < |rooms| => (oid, rooms[k]))
  }

  /** Each line of a file as `line.strip().split(';')` reads it. */
  function ParsedLines(lines: seq<string>): (rows: seq<seq<string>>)
    ensures |rows| == |lines|
    ensures forall k :: 0 <= k < |lines| ==> rows[k] == Neo4jGraph.LineFields(lines[k])
  {
    seq(|lines|, k requires 0 <= k < |lines| => Neo4jGraph.LineFields(lines[k]))
  }

  /** The element is the first one `by_type` lists with the line's GlobalId
    * (`next(...)`); a line naming no element adds nothing. */
  function ScanLine(elements: seq<Element>, elementType: string, parts: seq<string>): Scan
    requires |parts| >= 1
  {
    var rooms := if |parts| > 1 then Split(parts[1], ',') else [];
    match Neo4jGraph.FirstWithGuid(elements, parts[0])
    case None => Scan([], [])
    case Some(e) => Scan([(ElementLabel(elementType, e.id), parts[0], e.id)], RoomLinks(e.id, rooms))
  }

  function FoundRule(elements: seq<Element>, elementType: string): seq<string> -> seq<(string, string, EntityId)>
  {
    parts => if |parts| == 0 then [] else ScanLine(elements, elementType, parts).found
  }

  function LinkRule(elements: seq<Element>, elementType: string): seq<string> -> seq<(EntityId, string)>
  {
    parts => if |parts| == 0 then [] else ScanLine(elements, elementType, parts).links
  }

  /** The set `elements` the first loop fills, as the list of its additions. */
  function Found(elements: seq<Element>, elementType: string, rows: seq<seq<string>>): seq<(string, string, EntityId)>
  {
    ConcatMap(rows, FoundRule(elements, elementType))
  }

  /** The list `edges` the first loop fills. */
  function Links(elements: seq<Element>, elementType: string, rows: seq<seq<string>>): seq<(EntityId, string)>
  {
    ConcatMap(rows, LinkRule(elements, elementType))
  }

  /** A line with links found its element. */
  lemma ScanLineLinked(elements: seq<Element>, elementType: string, parts: seq<string>, l: (EntityId, string))
    requires l in LinkRule(elements, elementType)(parts)
    ensures |FoundRule(elements, elementType)(parts)| == 1
    ensures FoundRule(elements, elementType)(parts)[0].0 == ElementLabel(elementType, l.0)
  {
    var e := Neo4jGraph.FirstWithGuid(elements, parts[0]);
    assert e.Some?;
    var rooms := if |parts| > 1 then Split(parts[1], ',') else [];
    var j :| 0 <= j < |rooms| && RoomLinks(e.value.id, rooms)[j] == l;
  }

  /** Every link comes with its element, so the element node is there when
    * the third loop adds the link's edge. */
  lemma LinkHasElement(elements: seq<Element>, elementType: string, rows: seq<seq<string>>, l: (EntityId, string))
    requires l in Links(elements, elementType, rows)
    ensures exists t :: t in Found(elements, elementType, rows) && t.0 == ElementLabel(elementType, l.0)
  {
    ConcatMapMembers(rows, LinkRule(elements, elementType), l);
    var k :| 0 <= k < |rows| && l in LinkRule(elements, elementType)(rows[k]);
    ScanLineLinked(elements, elementType, rows[k], l);
    var t := FoundRule(elements, elementType)(rows[k])[0];
    ConcatMapMembers(rows, FoundRule(elements, elementType), t);
  }

  /** The first loop over the lines of the file. */
  method ScanFile(elements: seq<Element>, elementType: string, lines: seq<string>) returns (found: seq<(string, string, EntityId)>, links: seq<(EntityId, string)>)
    ensures found == Found(elements, elementType, ParsedLines(lines))
    ensures links == Links(elements, elementType, ParsedLines(lines))
  {
    ghost var rows := ParsedLines(lines);
    found, links := [], [];
    for i := 0 to |lines|
      invariant found == Found(elements, elementType, rows[..i])
      invariant links == Links(elements, elementType, rows[..i])
    {
      ConcatMapStep(rows, FoundRule(elements, elementType), i);
      ConcatMapStep(rows, LinkRule(elements, elementType), i);
      var lineFound, lineLinks := ScanFileLine(elements, elementType, lines[i]);
      found := found + lineFound;
      links := links + lineLinks;
    }
    assert rows[..|lines|] == rows;
  }

  /** The body of the first loop for one line. */
  method ScanFileLine(elements: seq<Element>, elementType: string, line: string)
    returns (found: seq<(string, string, EntityId)>, links: seq<(EntityId, string)>)
    ensures found == FoundRule(elements, elementType)(Neo4jGraph.LineFields(line))
    ensures links == LinkRule(elements, elementType)(Neo4jGraph.LineFields(line))
  {
    var parts := Neo4jGraph.LineFields(line);
    var rooms := if |parts| > 1 then Split(parts[1], ',') else [];
    var element := Neo4jGraph.FirstWithGuid(elements, parts[0]);
    if element.Some? {
      var oid := element.value.id;
      found := [(ElementLabel(elementType, oid), parts[0], oid)];
      links := RoomLinks(oid, rooms);
    } else {
      found, links := [], [];
    }
  }

  function ElementEntries(found: seq<(string, string, EntityId)>, color: string): (es: seq<(string, NodeAttrs)>)
    ensures |es| == |found|
    ensures forall k :: 0 <= k < |found| ==> es[k] == (found[k].0, NodeAttrs(color, found[k].1, Some(found[k].2)))
  {
    seq(|found|, k requires 0 <= k < |found| => (found[k].0, NodeAttrs(color, found[k].1, Some(found[k].2))))
  }

  /** The graph after the second loop: a node per element found. */
  function ElementNodes(g: GraphState, elements: seq<Element>, elementType: string, rows: seq<seq<string>>, color: string): GraphState
  {
    AddNodes(g, ElementEntries(Found(elements, elementType, rows), color))
  }

  /** The edge the third loop adds for a link: between the element and the
    * first node with the room's GlobalId, when there is one. */
  function LinkKey(g: GraphState, elementType: string, l: (EntityId, string)): Option<EdgeKey>
  {
    var room := Named(FirstWithGlobalId(g.nodes, g.attrs, l.1));
    if room.Some? then Some({ElementLabel(elementType, l.0), room.value}) else None
  }

  function LinkKeys(g: GraphState, elementType: string, links: seq<(EntityId, string)>): (keys: seq<Option<EdgeKey>>)
    ensures |keys| == |links|
    ensures forall k :: 0 <= k < |links| ==> keys[k] == LinkKey(g, elementType, links[k])
  {
    seq(|links|, k requires 0 <= k < |links| => LinkKey(g, elementType, links[k]))
  }

  /** process_doors_and_windows: the element nodes, then an edge with
    * `Category` between each element and each of its rooms found. */
  function DoorsAndWindows(g: GraphState, elements: seq<Element>, elementType: string, lines: seq<string>, color: string, category: string): GraphState
  {
    var rows := ParsedLines(lines);
    var h := ElementNodes(g, elements, elementType, rows, color);
    h.(edges := PutAll(h.edges, LinkKeys(h, elementType, Links(elements, elementType, rows)), EdgeAttrs(None, Some(category))))
  }

  /** The element node of every link is in the graph after the second loop. */
  lemma LinkEndsPresent(g: GraphState, elements: seq<Element>, elementType: string, rows: seq<seq<string>>, color: string, l: (EntityId, string))
    requires l in Links(elements, elementType, rows)
    ensures ElementLabel(elementType, l.0) in ElementNodes(g, elements, elementType, rows, color).attrs
  {
    var found := Found(elements, elementType, rows);
    LinkHasElement(elements, elementType, rows, l);
    var t :| t in found && t.0 == ElementLabel(elementType, l.0);
    var k :| 0 <= k < |found| && found[k] == t;
    AddNodesMembers(g, ElementEntries(found, color), t.0);
    assert ElementEntries(found, color)[k].0 == t.0;
  }

  lemma DoorsAndWindowsValid(g: GraphState, elements: seq<Element>, elementType: string, lines: seq<string>, color: string, category: string)
    requires g.Valid()
    ensures DoorsAndWindows(g, elements, elementType, lines, color, category).Valid()
  {
    var rows := ParsedLines(lines);
    var h := ElementNodes(g, elements, elementType, rows, color);
    var links := Links(elements, elementType, rows);
    var keys := LinkKeys(h, elementType, links);
    forall k | 0 <= k < |keys| && keys[k].Some? ensures keys[k].value <= h.attrs.Keys {
      LinkEndsPresent(g, elements, elementType, rows, color, links[k]);
    }
    PutAllWithin(h.edges, keys, EdgeAttrs(None, Some(category)), h.attrs.Keys);
  }

  /** A room listed on an element's line is joined to the element, with
    * the call's `Category`, when a node has the room's GlobalId. */
  lemma DoorsAndWindowsEdge(g: GraphState, elements: seq<Element>, elementType: string, lines: seq<string>, color: string, category: string,
                            k: nat, room: string, e: Element, n: string)
    requires k < |lines|
    requires |Neo4jGraph.LineFields(lines[k])| > 1
    requires room in Split(Neo4jGraph.LineFields(lines[k])[1], ',')
    requires Neo4jGraph.FirstWithGuid(elements, Neo4jGraph.LineFields(lines[k])[0]) == Some(e)
    requires var h := ElementNodes(g, elements, elementType, ParsedLines(lines), color);
      Named(FirstWithGlobalId(h.nodes, h.attrs, room)) == Some(n)
    ensures var r := DoorsAndWindows(g, elements, elementType, lines, color, category);
      {ElementLabel(elementType, e.id), n} in r.edges && r.edges[{ElementLabel(elementType, e.id), n}].category == Some(category)
  {
    var rows := ParsedLines(lines);
    var parts := rows[k];
    var h := ElementNodes(g, elements, elementType, rows, color);
    var l := (e.id, room);
    var links := Links(elements, elementType, rows);
    var rooms := Split(parts[1], ',');
    var j :| 0 <= j < |rooms| && rooms[j] == room;
    assert LinkRule(elements, elementType)(rows[k])[j] == l;
    ConcatMapMembers(rows, LinkRule(elements, elementType), l);
    var i :| 0 <= i < |links| && links[i] == l;
    var keys := LinkKeys(h, elementType, links);
    assert keys[i] == Some({ElementLabel(elementType, e.id), n});
    PutAllValue(h.edges, keys, EdgeAttrs(None, Some(category)), keys[i].value);
  }

  /** The third loop of process_doors_and_windows, over the graph the
    * second loop left. */
  method ConnectLinks(h: GraphState, elementType: string, links: seq<(EntityId, string)>, upd: EdgeAttrs) returns (edges: map<EdgeKey, EdgeAttrs>)
    ensures edges == PutAll(h.edges, LinkKeys(h, elementType, links), upd)
  {
    edges := h.edges;
    ghost var keys := LinkKeys(h, elementType, links);
    for i := 0 to |links|
      invariant edges == PutAll(h.edges, keys[..i], upd)
    {
      PutAllStep(h.edges, keys, upd, i);
      var room := FindFirst(h.nodes, h.attrs, links[i].1);
      if Named(room).Some? {
        edges := PutEdge(edges, {ElementLabel(elementType, links[i].0), room.value}, upd);
      }
    }
    assert keys[..|links|] == keys;
  }

  // ---------------------------------------------------------------------
  // Row files read with csv.reader

  /** What a loop over csv rows did: the edges its rows asked for, in
    * order, and the exception that ended it, if one did. */
  datatype KeyRun = KeyRun(keys: seq<Option<EdgeKey>>, raised: Option<PyException>)

  /** A loop over rows where a row either raises before it adds an edge or
    * returns the edges it adds; the first exception ends the loop. */
  function RunKeys(rows: seq<seq<string>>, f: seq<string> -> Outcome<seq<Option<EdgeKey>>>): KeyRun
    decreases |rows|
  {
    if |rows| == 0 then KeyRun([], None)
    else
      var r := RunKeys(rows[..|rows| - 1], f);
      if r.raised.Some? then r
      else
        match f(rows[|rows| - 1])
        case Returned(ks) => KeyRun(r.keys + ks, None)
        case Raised(e) => KeyRun(r.keys, Some(e))
  }

  lemma RunKeysStep(rows: seq<seq<string>>, f: seq<string> -> Outcome<seq<Option<EdgeKey>>>, i: nat)
    requires i < |rows|
    ensures RunKeys(rows[..i + 1], f) ==
      (var r := RunKeys(rows[..i], f);
       if r.raised.Some? then r
       else match f(rows[i])
         case Returned(ks) => KeyRun(r.keys + ks, None)
         case Raised(e) => KeyRun(r.keys, Some(e)))
  {
    assert rows[..i + 1][..i] == rows[..i];
  }

  /** Once a row has raised, the later rows change nothing. */
  lemma {:induction false} RunKeysRaisedStays(rows: seq<seq<string>>, f: seq<string> -> Outcome<seq<Option<EdgeKey>>>, n: nat)
    requires n <= |rows| && RunKeys(rows[..n], f).raised.Some?
    ensures RunKeys(rows, f) == RunKeys(rows[..n], f)
    decreases |rows| - n
  {
    if n < |rows| {
      RunKeysStep(rows, f, n);
      RunKeysRaisedStays(rows, f, n + 1);
    } else {
      assert rows[..n] == rows;
    }
  }

  /** The loop raises exactly when one of its rows does. */
  lemma {:induction false} RunKeysRaises(rows: seq<seq<string>>, f: seq<string> -> Outcome<seq<Option<EdgeKey>>>)
    ensures RunKeys(rows, f).raised.Some? <==> exists k :: 0 <= k < |rows| && f(rows[k]).Raised?
    decreases |rows|
  {
    if |rows| > 0 {
      var init := rows[..|rows| - 1];
      RunKeysRaises(init, f);
      if exists k :: 0 <= k < |rows| && f(rows[k]).Raised? {
        var k :| 0 <= k < |rows| && f(rows[k]).Raised?;
        if k < |rows| - 1 {
          assert init[k] == rows[k];
        }
      }
      if exists k :: 0 <= k < |init| && f(init[k]).Raised? {
        var k :| 0 <= k < |init| && f(init[k]).Raised?;
        assert rows[k] == init[k];
      }
    }
  }

  /** A loop that raises nothing has asked for every edge of every row. */
  lemma {:induction false} RunKeysHas(rows: seq<seq<string>>, f: seq<string> -> Outcome<seq<Option<EdgeKey>>>, k: nat, key: Option<EdgeKey>)
    requires k < |rows| && f(rows[k]).Returned? && key in f(rows[k]).value
    requires RunKeys(rows, f).raised.None?
    ensures key in RunKeys(rows, f).keys
    decreases |rows|
  {
    var init := rows[..|rows| - 1];
    var r := RunKeys(init, f);
    assert r.raised.None?;
    if k < |rows| - 1 {
      assert init[k] == rows[k];
      RunKeysHas(init, f, k, key);
    }
  }

  /** Every edge the loop asks for is one some row asked for. */
  lemma {:induction false} RunKeysFrom(rows: seq<seq<string>>, f: seq<string> -> Outcome<seq<Option<EdgeKey>>>, key: Option<EdgeKey>)
    requires key in RunKeys(rows, f).keys
    ensures exists k :: 0 <= k < |rows| && f(rows[k]).Returned? && key in f(rows[k]).value
    decreases |rows|
  {
    var init := rows[..|rows| - 1];
    var r := RunKeys(init, f);
    if key in r.keys {
      RunKeysFrom(init, f, key);
      var k :| 0 <= k < |init| && f(init[k]).Returned? && key in f(init[k]).value;
      assert rows[k] == init[k];
    } else {
      assert f(rows[|rows| - 1]).Returned? && key in f(rows[|rows| - 1]).value;
    }
  }

  /** What a row loop leaves: the graph with the edges of the rows read
    * before the exception, and the exception. */
  datatype Applied = Applied(graph: GraphState, raised: Option<PyException>)

  function Apply(g: GraphState, run: KeyRun, upd: EdgeAttrs): Applied
  {
    Applied(g.(edges := PutAll(g.edges, run.keys, upd)), run.raised)
  }

  /** The first wall with a GlobalId, as `get_wall_oid_by_guid` finds it,
    * gives the edge between `from` and its node when both nodes are in
    * the graph. */
  function WallKey(g: GraphState, walls: seq<Element>, from: string, guid: string): (r: Option<EdgeKey>)
    ensures r.Some? ==> r.value <= g.attrs.Keys
  {
    match Neo4jGraph.OidOf(walls, guid)
    case None => None
    case Some(o) => if from in g.attrs && WallLabel(o) in g.attrs then Some({from, WallLabel(o)}) else None
  }

  function WallKeys(g: GraphState, walls: seq<Element>, from: string, guids: seq<string>): (keys: seq<Option<EdgeKey>>)
    ensures |keys| == |guids|
    ensures forall k :: 0 <= k < |guids| ==> keys[k] == WallKey(g, walls, from, guids[k])
  {
    seq(|guids|, k requires 0 <= k < |guids| => WallKey(g, walls, from, guids[k]))
  }

  /** One row `space;wall1,wall2,...` of process_walls_and_rooms: `row[0]`
    * and `row[1]` are read first, so a row of fewer than two fields
    * raises IndexError; otherwise an edge from the first node with the
    * space's GlobalId to each listed wall that has a node. */
  function RoomWallRow(g: GraphState, walls: seq<Element>, row: seq<string>): Outcome<seq<Option<EdgeKey>>>
  {
    if |row| < 2 then Raised(IndexError)
    else
      var space := Named(FirstWithGlobalId(g.nodes, g.attrs, row[0]));
      if space.None? then Returned([])
      else Returned(WallKeys(g, walls, space.value, Split(row[1], ',')))
  }

  /** One row `wall;wall1,wall2,...` of process_wall_adjacency: an edge
    * between the row's wall and each listed wall, both found among `walls`
    * and both with nodes. */
  function AdjacencyRow(g: GraphState, walls: seq<Element>, row: seq<string>): Outcome<seq<Option<EdgeKey>>>
  {
    if |row| < 2 then Raised(IndexError)
    else
      match Neo4jGraph.OidOf(walls, row[0])
      case None => Returned([])
      case Some(p) => Returned(WallKeys(g, walls, WallLabel(p), Split(row[1], ',')))
  }

  /** One row `type;element;wall` of process_element_hosts: the element is
    * looked up among `by_type(type)`, which may raise; an edge between
    * the element's node and its host wall's node when both are found and
    * both are in the graph. */
  function HostRow(g: GraphState, byType: string -> Outcome<seq<Element>>, walls: seq<Element>, row: seq<string>): Outcome<seq<Option<EdgeKey>>>
  {
    if |row| < 3 then Raised(IndexError)
    else
      match byType(row[0])
      case Raised(e) => Raised(e)
      case Returned(es) =>
        match Neo4jGraph.OidOf(es, row[1])
        case None => Returned([])
        case Some(eo) => Returned([WallKey(g, walls, ElementLabel(row[0], eo), row[2])])
  }

  function RoomWallRule(g: GraphState, walls: seq<Element>): seq<string> -> Outcome<seq<Option<EdgeKey>>>
  {
    row => RoomWallRow(g, walls, row)
  }

  function AdjacencyRule(g: GraphState, walls: seq<Element>): seq<string> -> Outcome<seq<Option<EdgeKey>>>
  {
    row => AdjacencyRow(g, walls, row)
  }

  function HostRule(g: GraphState, byType: string -> Outcome<seq<Element>>, walls: seq<Element>): seq<string> -> Outcome<seq<Option<EdgeKey>>>
  {
    row => HostRow(g, byType, walls, row)
  }

  /** process_walls_and_rooms(G, csv_file, all_walls, relation). */
  function WallsAndRooms(g: GraphState, rows: seq<seq<string>>, walls: seq<Element>, relation: string): Applied
  {
    Apply(g, RunKeys(rows, RoomWallRule(g, walls)), EdgeAttrs(None, Some(relation)))
  }

  /** process_wall_adjacency(G, csv_file, all_walls). */
  function WallAdjacency(g: GraphState, rows: seq<seq<string>>, walls: seq<Element>): Applied
  {
    Apply(g, RunKeys(rows, AdjacencyRule(g, walls)), EdgeAttrs(None, Some("IsConnected")))
  }

  /** process_element_hosts(G, ifc_file, csv_file, all_walls). */
  function ElementHosts(g: GraphState, byType: string -> Outcome<seq<Element>>, rows: seq<seq<string>>, walls: seq<Element>): Applied
  {
    Apply(g, RunKeys(rows, HostRule(g, byType, walls)), EdgeAttrs(None, Some("HostedBy")))
  }

  /** Two runs of `add_edge` calls one after the other are one run. */
  lemma {:induction false} PutAllConcat(edges: map<EdgeKey, EdgeAttrs>, a: seq<Option<EdgeKey>>, b: seq<Option<EdgeKey>>, upd: EdgeAttrs)
    ensures PutAll(edges, a + b, upd) == PutAll(PutAll(edges, a, upd), b, upd)
    decreases |b|
  {
    if |b| == 0 {
      assert a + b == a;
    } else {
      assert (a + b)[..|a + b| - 1] == a + b[..|b| - 1];
      PutAllConcat(edges, a, b[..|b| - 1], upd);
    }
  }

  /** A row loop keeps the graph valid when every row asks only for edges
    * between nodes of the graph. */
  lemma ApplyValid(g: GraphState, rows: seq<seq<string>>, f: seq<string> -> Outcome<seq<Option<EdgeKey>>>, upd: EdgeAttrs)
    requires g.Valid()
    requires forall k, j :: 0 <= k < |rows| && f(rows[k]).Returned? && 0 <= j < |f(rows[k]).value| && f(rows[k]).value[j].Some? ==>
      f(rows[k]).value[j].value <= g.attrs.Keys
    ensures Apply(g, RunKeys(rows, f), upd).graph.Valid()
  {
    var keys := RunKeys(rows, f).keys;
    forall i | 0 <= i < |keys| && keys[i].Some? ensures keys[i].value <= g.attrs.Keys {
      RunKeysFrom(rows, f, keys[i]);
    }
    PutAllWithin(g.edges, keys, upd, g.attrs.Keys);
  }

  /** After a row loop an edge is either as it was or was asked for by a
    * row and carries the loop's attributes over its old ones. */
  lemma ApplyEdge(g: GraphState, rows: seq<seq<string>>, f: seq<string> -> Outcome<seq<Option<EdgeKey>>>, upd: EdgeAttrs, key: EdgeKey)
    requires key in Apply(g, RunKeys(rows, f), upd).graph.edges
    ensures (key in g.edges && Apply(g, RunKeys(rows, f), upd).graph.edges[key] == g.edges[key])
         || (Apply(g, RunKeys(rows, f), upd).graph.edges[key] == Updated(g.edges, key, upd)
             && exists k :: 0 <= k < |rows| && f(rows[k]).Returned? && Some(key) in f(rows[k]).value)
  {
    var keys := RunKeys(rows, f).keys;
    PutAllMembers(g.edges, keys, upd, key);
    PutAllValue(g.edges, keys, upd, key);
    if Some(key) in keys {
      RunKeysFrom(rows, f, Some(key));
    }
  }

  lemma RoomWallRowWithin(g: GraphState, walls: seq<Element>, row: seq<string>)
    requires g.Valid()
    ensures RoomWallRow(g, walls, row).Returned? ==>
      forall j :: 0 <= j < |RoomWallRow(g, walls, row).value| && RoomWallRow(g, walls, row).value[j].Some? ==>
        RoomWallRow(g, walls, row).value[j].value <= g.attrs.Keys
  {
  }

  /** process_walls_and_rooms keeps the graph valid. */
  lemma WallsAndRoomsValid(g: GraphState, rows: seq<seq<string>>, walls: seq<Element>, relation: string)
    requires g.Valid()
    ensures WallsAndRooms(g, rows, walls, relation).graph.Valid()
    ensures WallsAndRooms(g, rows, walls, relation).graph.nodes == g.nodes
  {
    forall k | 0 <= k < |rows| {
      RoomWallRowWithin(g, walls, rows[k]);
    }
    ApplyValid(g, rows, RoomWallRule(g, walls), EdgeAttrs(None, Some(relation)));
  }

  /** process_wall_adjacency keeps the graph valid. */
  lemma WallAdjacencyValid(g: GraphState, rows: seq<seq<string>>, walls: seq<Element>)
    requires g.Valid()
    ensures WallAdjacency(g, rows, walls).graph.Valid()
    ensures WallAdjacency(g, rows, walls).graph.nodes == g.nodes
  {
    ApplyValid(g, rows, AdjacencyRule(g, walls), EdgeAttrs(None, Some("IsConnected")));
  }

  /** process_element_hosts keeps the graph valid. */
  lemma ElementHostsValid(g: GraphState, byType: string -> Outcome<seq<Element>>, rows: seq<seq<string>>, walls: seq<Element>)
    requires g.Valid()
    ensures ElementHosts(g, byType, rows, walls).graph.Valid()
    ensures ElementHosts(g, byType, rows, walls).graph.nodes == g.nodes
  {
    ApplyValid(g, rows, HostRule(g, byType, walls), EdgeAttrs(None, Some("HostedBy")));
  }

  /** A row loop that raises nothing joins the two nodes of every edge some
    * row asks for, and the edge then carries the loop's `Category`. */
  lemma ApplyAdds(g: GraphState, rows: seq<seq<string>>, f: seq<string> -> Outcome<seq<Option<EdgeKey>>>, category: string, k: nat, key: EdgeKey)
    requires k < |rows| && f(rows[k]).Returned? && Some(key) in f(rows[k]).value
    requires RunKeys(rows, f).raised.None?
    ensures key in Apply(g, RunKeys(rows, f), EdgeAttrs(None, Some(category))).graph.edges
    ensures Apply(g, RunKeys(rows, f), EdgeAttrs(None, Some(category))).graph.edges[key].category == Some(category)
  {
    RunKeysHas(rows, f, k, Some(key));
    PutAllValue(g.edges, RunKeys(rows, f).keys, EdgeAttrs(None, Some(category)), key);
  }

  /** A space row joins the space's node to the node of every listed wall
    * that is found and has a node, with `Category` `relation`. */
  lemma WallsAndRoomsEdge(g: GraphState, rows: seq<seq<string>>, walls: seq<Element>, relation: string,
                          k: nat, space: string, guid: string, o: EntityId)
    requires k < |rows| && |rows[k]| >= 2
    requires Named(FirstWithGlobalId(g.nodes, g.attrs, rows[k][0])) == Some(space)
    requires guid in Split(rows[k][1], ',')
    requires Neo4jGraph.OidOf(walls, guid) == Some(o) && WallLabel(o) in g.attrs
    requires WallsAndRooms(g, rows, walls, relation).raised.None?
    ensures var r := WallsAndRooms(g, rows, walls, relation).graph;
      {space, WallLabel(o)} in r.edges && r.edges[{space, WallLabel(o)}].category == Some(relation)
  {
    var guids := Split(rows[k][1], ',');
    var j :| 0 <= j < |guids| && guids[j] == guid;
    assert RoomWallRow(g, walls, rows[k]).value[j] == Some({space, WallLabel(o)});
    ApplyAdds(g, rows, RoomWallRule(g, walls), relation, k, {space, WallLabel(o)});
  }

  /** Every edge process_walls_and_rooms adds or changes joins a node with
    * a space row's GlobalId to a wall node. */
  lemma WallsAndRoomsOnlyRoomWall(g: GraphState, rows: seq<seq<string>>, walls: seq<Element>, relation: string, key: EdgeKey)
    requires key in WallsAndRooms(g, rows, walls, relation).graph.edges
    requires key !in g.edges || WallsAndRooms(g, rows, walls, relation).graph.edges[key] != g.edges[key]
    ensures exists k, o ::
      && 0 <= k < |rows| && |rows[k]| >= 2 && Named(FirstWithGlobalId(g.nodes, g.attrs, rows[k][0])).Some?
      && key == {Named(FirstWithGlobalId(g.nodes, g.attrs, rows[k][0])).value, WallLabel(o)}
  {
    ApplyEdge(g, rows, RoomWallRule(g, walls), EdgeAttrs(None, Some(relation)), key);
    var k :| 0 <= k < |rows| && RoomWallRow(g, walls, rows[k]).Returned? && Some(key) in RoomWallRow(g, walls, rows[k]).value;
    var o := RoomWallRowKey(g, walls, rows[k], key);
    assert 0 <= k < |rows| && |rows[k]| >= 2 && Named(FirstWithGlobalId(g.nodes, g.attrs, rows[k][0])).Some?
      && key == {Named(FirstWithGlobalId(g.nodes, g.attrs, rows[k][0])).value, WallLabel(o)};
  }

  /** A key a space row adds joins the space's node to a wall node. */
  lemma RoomWallRowKey(g: GraphState, walls: seq<Element>, row: seq<string>, key: EdgeKey) returns (o: EntityId)
    requires RoomWallRow(g, walls, row).Returned? && Some(key) in RoomWallRow(g, walls, row).value
    ensures |row| >= 2 && Named(FirstWithGlobalId(g.nodes, g.attrs, row[0])).Some?
    ensures key == {Named(FirstWithGlobalId(g.nodes, g.attrs, row[0])).value, WallLabel(o)}
  {
    var space := Named(FirstWithGlobalId(g.nodes, g.attrs, row[0]));
    var guids := Split(row[1], ',');
    var ks := WallKeys(g, walls, space.value, guids);
    var j :| 0 <= j < |ks| && ks[j] == Some(key);
    assert WallKey(g, walls, space.value, guids[j]) == Some(key);
    o := Neo4jGraph.OidOf(walls, guids[j]).value;
  }

  /** A wall row joins the row's wall node to the node of every listed
    * wall that is found and has a node, with `Category` "IsConnected". */
  lemma WallAdjacencyEdge(g: GraphState, rows: seq<seq<string>>, walls: seq<Element>,
                          k: nat, guid: string, p: EntityId, c: EntityId)
    requires k < |rows| && |rows[k]| >= 2
    requires Neo4jGraph.OidOf(walls, rows[k][0]) == Some(p) && WallLabel(p) in g.attrs
    requires guid in Split(rows[k][1], ',')
    requires Neo4jGraph.OidOf(walls, guid) == Some(c) && WallLabel(c) in g.attrs
    requires WallAdjacency(g, rows, walls).raised.None?
    ensures var r := WallAdjacency(g, rows, walls).graph;
      {WallLabel(p), WallLabel(c)} in r.edges && r.edges[{WallLabel(p), WallLabel(c)}].category == Some("IsConnected")
  {
    var guids := Split(rows[k][1], ',');
    var j :| 0 <= j < |guids| && guids[j] == guid;
    assert AdjacencyRow(g, walls, rows[k]).value[j] == Some({WallLabel(p), WallLabel(c)});
    ApplyAdds(g, rows, AdjacencyRule(g, walls), "IsConnected", k, {WallLabel(p), WallLabel(c)});
  }

  /** Every edge process_wall_adjacency adds or changes joins two wall
    * nodes. */
  lemma WallAdjacencyOnlyWalls(g: GraphState, rows: seq<seq<string>>, walls: seq<Element>, key: EdgeKey)
    requires key in WallAdjacency(g, rows, walls).graph.edges
    requires key !in g.edges || WallAdjacency(g, rows, walls).graph.edges[key] != g.edges[key]
    ensures exists p, c :: key == {WallLabel(p), WallLabel(c)}
  {
    ApplyEdge(g, rows, AdjacencyRule(g, walls), EdgeAttrs(None, Some("IsConnected")), key);
    var k :| 0 <= k < |rows| && AdjacencyRow(g, walls, rows[k]).Returned? && Some(key) in AdjacencyRow(g, walls, rows[k]).value;
    var ks := AdjacencyRow(g, walls, rows[k]).value;
    var j :| 0 <= j < |ks| && ks[j] == Some(key);
    var p := Neo4jGraph.OidOf(walls, rows[k][0]).value;
    var c := Neo4jGraph.OidOf(walls, Split(rows[k][1], ',')[j]).value;
    assert key == {WallLabel(p), WallLabel(c)};
  }

  /** A host row joins the element's node to its wall's node, with
    * `Category` "HostedBy", when both are found and both have nodes. */
  lemma ElementHostsEdge(g: GraphState, byType: string -> Outcome<seq<Element>>, rows: seq<seq<string>>, walls: seq<Element>,
                         k: nat, es: seq<Element>, eo: EntityId, wo: EntityId)
    requires k < |rows| && |rows[k]| >= 3
    requires byType(rows[k][0]) == Returned(es)
    requires Neo4jGraph.OidOf(es, rows[k][1]) == Some(eo) && ElementLabel(rows[k][0], eo) in g.attrs
    requires Neo4jGraph.OidOf(walls, rows[k][2]) == Some(wo) && WallLabel(wo) in g.attrs
    requires ElementHosts(g, byType, rows, walls).raised.None?
    ensures var r := ElementHosts(g, byType, rows, walls).graph;
      {ElementLabel(rows[k][0], eo), WallLabel(wo)} in r.edges
      && r.edges[{ElementLabel(rows[k][0], eo), WallLabel(wo)}].category == Some("HostedBy")
  {
    assert HostRow(g, byType, walls, rows[k]).value[0] == Some({ElementLabel(rows[k][0], eo), WallLabel(wo)});
    ApplyAdds(g, rows, HostRule(g, byType, walls), "HostedBy", k, {ElementLabel(rows[k][0], eo), WallLabel(wo)});
  }

  /** Every edge process_element_hosts adds or changes joins an element
    * node named after a row's type to a wall node. */
  lemma ElementHostsOnlyHosts(g: GraphState, byType: string -> Outcome<seq<Element>>, rows: seq<seq<string>>, walls: seq<Element>, key: EdgeKey)
    requires key in ElementHosts(g, byType, rows, walls).graph.edges
    requires key !in g.edges || ElementHosts(g, byType, rows, walls).graph.edges[key] != g.edges[key]
    ensures exists k, eo, wo :: 0 <= k < |rows| && |rows[k]| >= 3 && key == {ElementLabel(rows[k][0], eo), WallLabel(wo)}
  {
    ApplyEdge(g, rows, HostRule(g, byType, walls), EdgeAttrs(None, Some("HostedBy")), key);
    var k :| 0 <= k < |rows| && HostRow(g, byType, walls, rows[k]).Returned? && Some(key) in HostRow(g, byType, walls, rows[k]).value;
    var eo := Neo4jGraph.OidOf(byType(rows[k][0]).value, rows[k][1]).value;
    var wo := Neo4jGraph.OidOf(walls, rows[k][2]).value;
    assert key == {ElementLabel(rows[k][0], eo), WallLabel(wo)};
  }

  /** A loop whose rows all return no edge asks for none and raises nothing. */
  lemma {:induction false} RunKeysNothing(rows: seq<seq<string>>, f: seq<string> -> Outcome<seq<Option<EdgeKey>>>)
    requires forall k :: 0 <= k < |rows| ==> f(rows[k]) == Returned([])
    ensures RunKeys(rows, f) == KeyRun([], None)
    decreases |rows|
  {
    if |rows| > 0 {
      var init := rows[..|rows| - 1];
      assert forall k :: 0 <= k < |init| ==> init[k] == rows[k];
      RunKeysNothing(init, f);
    }
  }

  /** The HostedBy step of main in 02_Altern_InteractiveGraph.py reads the
    * hosts file `IfcDoor;element;wall` with process_walls_and_rooms, which
    * looks for a node whose GlobalId is the type name. IFC GlobalIds are 22
    * characters long, so no node is found and the graph is left as it was:
    * no element is ever joined to its host wall. */
  lemma HostsReadAsSpaceRows(g: GraphState, rows: seq<seq<string>>, walls: seq<Element>)
    requires forall n :: n in g.attrs ==> |g.attrs[n].globalId| == 22
    requires forall k :: 0 <= k < |rows| ==> |rows[k]| >= 3 && (rows[k][0] == "IfcDoor" || rows[k][0] == "IfcWindow")
    ensures WallsAndRooms(g, rows, walls, "HostedBy") == Applied(g, None)
  {
    forall k | 0 <= k < |rows| ensures RoomWallRow(g, walls, rows[k]) == Returned([]) {
      assert |rows[k][0]| < 22;
      assert FirstWithGlobalId(g.nodes, g.attrs, rows[k][0]).None?;
    }
    RunKeysNothing(rows, RoomWallRule(g, walls));
  }

  // ---------------------------------------------------------------------
  // The row loops, over a graph whose nodes they leave unchanged

  /** The inner loop over the listed walls of one row. */
  method AddWallEdges(g: GraphState, walls: seq<Element>, from: string, guids: seq<string>,
                      edges0: map<EdgeKey, EdgeAttrs>, upd: EdgeAttrs) returns (edges: map<EdgeKey, EdgeAttrs>)
    ensures edges == PutAll(edges0, WallKeys(g, walls, from, guids), upd)
  {
    edges := edges0;
    ghost var keys := WallKeys(g, walls, from, guids);
    for j := 0 to |guids|
      invariant edges == PutAll(edges0, keys[..j], upd)
    {
      PutAllStep(edges0, keys, upd, j);
      var o := Neo4jGraph.FindOid(walls, guids[j]);
      if o.Some? && from in g.attrs && WallLabel(o.value) in g.attrs {
        edges := PutEdge(edges, {from, WallLabel(o.value)}, upd);
      }
    }
    assert keys[..|guids|] == keys;
  }

  /** The loop of process_walls_and_rooms. */
  method RunWallsAndRooms(g: GraphState, rows: seq<seq<string>>, walls: seq<Element>, relation: string)
    returns (edges: map<EdgeKey, EdgeAttrs>, raised: Option<PyException>)
    ensures Applied(g.(edges := edges), raised) == WallsAndRooms(g, rows, walls, relation)
  {
    var upd := EdgeAttrs(None, Some(relation));
    ghost var f := RoomWallRule(g, walls);
    edges := g.edges;
    for i := 0 to |rows|
      invariant RunKeys(rows[..i], f).raised.None?
      invariant edges == PutAll(g.edges, RunKeys(rows[..i], f).keys, upd)
    {
      RunKeysStep(rows, f, i);
      if |rows[i]| < 2 {
        RunKeysRaisedStays(rows, f, i + 1);
        return edges, Some(IndexError);
      }
      ghost var before := RunKeys(rows[..i], f).keys;
      var space := FindFirst(g.nodes, g.attrs, rows[i][0]);
      if Named(space).Some? {
        var guids := Split(rows[i][1], ',');
        PutAllConcat(g.edges, before, WallKeys(g, walls, space.value, guids), upd);
        edges := AddWallEdges(g, walls, space.value, guids, edges, upd);
      } else {
        assert before + [] == before;
      }
    }
    assert rows[..|rows|] == rows;
    raised := None;
  }

  /** The loop of process_wall_adjacency. */
  method RunWallAdjacency(g: GraphState, rows: seq<seq<string>>, walls: seq<Element>)
    returns (edges: map<EdgeKey, EdgeAttrs>, raised: Option<PyException>)
    ensures Applied(g.(edges := edges), raised) == WallAdjacency(g, rows, walls)
  {
    var upd := EdgeAttrs(None, Some("IsConnected"));
    ghost var f := AdjacencyRule(g, walls);
    edges := g.edges;
    for i := 0 to |rows|
      invariant RunKeys(rows[..i], f).raised.None?
      invariant edges == PutAll(g.edges, RunKeys(rows[..i], f).keys, upd)
    {
      RunKeysStep(rows, f, i);
      if |rows[i]| < 2 {
        RunKeysRaisedStays(rows, f, i + 1);
        return edges, Some(IndexError);
      }
      ghost var before := RunKeys(rows[..i], f).keys;
      var primary := Neo4jGraph.FindOid(walls, rows[i][0]);
      if primary.Some? {
        var guids := Split(rows[i][1], ',');
        PutAllConcat(g.edges, before, WallKeys(g, walls, WallLabel(primary.value), guids), upd);
        edges := AddWallEdges(g, walls, WallLabel(primary.value), guids, edges, upd);
      } else {
        assert before + [] == before;
      }
    }
    assert rows[..|rows|] == rows;
    raised := None;
  }

  /** The loop of process_element_hosts. */
  method RunElementHosts(g: GraphState, byType: string -> Outcome<seq<Element>>, rows: seq<seq<string>>, walls: seq<Element>)
    returns (edges: map<EdgeKey, EdgeAttrs>, raised: Option<PyException>)
    ensures Applied(g.(edges := edges), raised) == ElementHosts(g, byType, rows, walls)
  {
    var upd := EdgeAttrs(None, Some("HostedBy"));
    ghost var f := HostRule(g, byType, walls);
    edges := g.edges;
    for i := 0 to |rows|
      invariant RunKeys(rows[..i], f).raised.None?
      invariant edges == PutAll(g.edges, RunKeys(rows[..i], f).keys, upd)
    {
      RunKeysStep(rows, f, i);
      if |rows[i]| < 3 {
        RunKeysRaisedStays(rows, f, i + 1);
        return edges, Some(IndexError);
      }
      var es := byType(rows[i][0]);
      if es.Raised? {
        RunKeysRaisedStays(rows, f, i + 1);
        return edges, Some(es.exc);
      }
      ghost var before := RunKeys(rows[..i], f).keys;
      var eo := Neo4jGraph.FindOid(es.value, rows[i][1]);
      if eo.Some? {
        var elementNode := ElementLabel(rows[i][0], eo.value);
        PutAllConcat(g.edges, before, [WallKey(g, walls, elementNode, rows[i][2])], upd);
        var wo := Neo4jGraph.FindOid(walls, rows[i][2]);
        if wo.Some? && elementNode in g.attrs && WallLabel(wo.value) in g.attrs {
          edges := PutEdge(edges, {elementNode, WallLabel(wo.value)}, upd);
        }
      } else {
        assert before + [] == before;
      }
    }
    assert rows[..|rows|] == rows;
    raised := None;
  }

  // ---------------------------------------------------------------------
  // Edge colours

  /** `Access` is one of the access kinds. */
  predicate ShowsAccess(e: EdgeAttrs)
  {
    e.access.Some? && e.access.value in ["Direct", "Door", "Window"]
  }

  /** What the colour of an edge shows: its `Access` when that is one of
    * the access kinds, otherwise its `Category` when that is one of the
    * categories, otherwise nothing. */
  function Shown(e: EdgeAttrs): Option<string>
  {
    if ShowsAccess(e) then e.access
    else if e.category.Some? && e.category.value in ["ContainedIn", "IsConnected", "HostedBy"] then e.category
    else None
  }

  /** The chain of conditional expressions main uses to colour an edge. */
  function EdgeColor(e: EdgeAttrs): string
  {
    if e.access == Some("Direct") then "blue"
    else if e.access == Some("Door") then "orange"
    else if e.access == Some("Window") then "purple"
    else if e.category == Some("ContainedIn") then "grey"
    else if e.category == Some("IsConnected") then "red"
    else if e.category == Some("HostedBy") then "green"
    else "black"
  }

  /** Two edges get the same colour exactly when they show the same
    * attribute value; black means that neither attribute is a known kind. */
  lemma EdgeColorShows(e1: EdgeAttrs, e2: EdgeAttrs)
    ensures EdgeColor(e1) == EdgeColor(e2) <==> Shown(e1) == Shown(e2)
    ensures EdgeColor(e1) == "black" <==> Shown(e1).None?
  {
  }

  /** An edge a connection loop adds or updates shows the loop's access
    * kind, whatever category it had. */
  lemma ConnectShows(g: GraphState, pairs: seq<(string, string)>, accessType: string, k: nat)
    requires accessType in ["Direct", "Door", "Window"]
    requires k < |pairs| && PairKey(g, pairs[k]).Some?
    ensures var r := Connect(g, pairs, EdgeAttrs(Some(accessType), None));
      PairKey(g, pairs[k]).value in r.edges && Shown(r.edges[PairKey(g, pairs[k]).value]) == Some(accessType)
  {
    ConnectEdges(g, pairs, EdgeAttrs(Some(accessType), None), PairKey(g, pairs[k]).value);
  }

  /** An edge a row loop adds or updates shows the loop's category, unless
    * it already showed an access kind, which wins. */
  lemma ApplyShows(g: GraphState, rows: seq<seq<string>>, f: seq<string> -> Outcome<seq<Option<EdgeKey>>>, category: string, k: nat, key: EdgeKey)
    requires category in ["ContainedIn", "IsConnected", "HostedBy"]
    requires k < |rows| && f(rows[k]).Returned? && Some(key) in f(rows[k]).value
    requires RunKeys(rows, f).raised.None?
    ensures var r := Apply(g, RunKeys(rows, f), EdgeAttrs(None, Some(category))).graph;
      key in r.edges
      && Shown(r.edges[key]) == if key in g.edges && ShowsAccess(g.edges[key]) then g.edges[key].access else Some(category)
  {
    var upd := EdgeAttrs(None, Some(category));
    RunKeysHas(rows, f, k, Some(key));
    PutAllValue(g.edges, RunKeys(rows, f).keys, upd, key);
    var u := Updated(g.edges, key, upd);
    assert u.category == Some(category);
    assert u.access == if key in g.edges then g.edges[key].access else None;
  }

  // ---------------------------------------------------------------------
  // The graph object

  const EmptyGraph := GraphState([], map[], map[])

  /** The networkx Graph `G` the scripts fill, one process_* function per
    * method. */
  class Graph {
    var nodes: seq<string>
    var attrs: map<string, NodeAttrs>
    var edges: map<EdgeKey, EdgeAttrs>

    function State(): GraphState
      reads this
    {
      GraphState(nodes, attrs, edges)
    }

    predicate Valid()
      reads this
    {
      State().Valid()
    }

    /** `nx.Graph()`. */
    constructor ()
      ensures State() == EmptyGraph && Valid()
    {
      nodes := [];
      attrs := map[];
      edges := map[];
    }

    /** `G.add_node(n, color=..., GlobalId=..., OID=...)`. */
    method AddNode(n: string, a: NodeAttrs)
      modifies this
      ensures State() == WithNode(old(State()), n, a)
    {
      if n in attrs {
        attrs := attrs[n := MergeNode(attrs[n], a)];
      } else {
        nodes := nodes + [n];
        attrs := attrs[n := a];
      }
    }

    /** A loop of `G.add_node` calls. */
    method AddNodeRun(entries: seq<(string, NodeAttrs)>)
      modifies this
      ensures State() == AddNodes(old(State()), entries)
      ensures old(Valid()) ==> Valid()
    {
      for i := 0 to |entries|
        invariant State() == AddNodes(old(State()), entries[..i])
      {
        assert entries[..i + 1][..i] == entries[..i];
        AddNode(entries[i].0, entries[i].1);
      }
      assert entries[..|entries|] == entries;
    }

    /** The loop of main that adds a yellow node `Room_<Name>` per room. */
    method AddRoomNodes(spaces: seq<Space>)
      modifies this
      ensures State() == AddRooms(old(State()), spaces)
      ensures old(Valid()) ==> Valid()
    {
      AddNodeRun(RoomEntries(spaces));
    }

    method ProcessCsvRoomConnections(lines: seq<string>, accessType: string)
      modifies this
      ensures State() == RoomConnections(old(State()), lines, accessType)
      ensures old(Valid()) ==> Valid()
    {
      var pairs := CollectRoomPairs(lines, false);
      if Valid() {
        ConnectValid(State(), pairs, EdgeAttrs(Some(accessType), None));
      }
      edges := ConnectPairs(State(), pairs, EdgeAttrs(Some(accessType), None));
    }

    method ProcessDirectConnections(lines: seq<string>)
      modifies this
      ensures State() == DirectConnections(old(State()), lines)
      ensures old(Valid()) ==> Valid()
    {
      var pairs := CollectRoomPairs(lines, true);
      if Valid() {
        ConnectValid(State(), pairs, EdgeAttrs(Some("Direct"), None));
      }
      edges := ConnectPairs(State(), pairs, EdgeAttrs(Some("Direct"), None));
    }

    method ProcessElementConnections(lines: seq<string>, accessType: string)
      modifies this
      ensures State() == ElementConnections(old(State()), lines, accessType)
      ensures old(Valid()) ==> Valid()
    {
      var pairs := CollectElementPairs(lines);
      if Valid() {
        ConnectValid(State(), pairs, EdgeAttrs(Some(accessType), None));
      }
      edges := ConnectPairs(State(), pairs, EdgeAttrs(Some(accessType), None));
    }

    method ProcessDoorsAndWindows(elements: seq<Element>, elementType: string, lines: seq<string>, color: string, category: string)
      modifies this
      ensures State() == DoorsAndWindows(old(State()), elements, elementType, lines, color, category)
      ensures old(Valid()) ==> Valid()
    {
      if Valid() {
        DoorsAndWindowsValid(State(), elements, elementType, lines, color, category);
      }
      var found, links := ScanFile(elements, elementType, lines);
      AddNodeRun(ElementEntries(found, color));
      edges := ConnectLinks(State(), elementType, links, EdgeAttrs(None, Some(category)));
    }

    method ProcessWalls(walls: seq<Element>, storeyName: string)
      modifies this
      ensures State() == Walls(old(State()), walls, storeyName)
      ensures old(Valid()) ==> Valid()
    {
      var found := CollectWallsInStorey(walls, storeyName);
      AddNodeRun(WallEntries(found));
    }

    /** The rows come from `csv.reader(file, delimiter=';')`; an exception
      * leaves the edges of the rows read before it. */
    method ProcessWallsAndRooms(rows: seq<seq<string>>, walls: seq<Element>, relation: string) returns (raised: Option<PyException>)
      modifies this
      ensures Applied(State(), raised) == WallsAndRooms(old(State()), rows, walls, relation)
      ensures old(Valid()) ==> Valid()
    {
      if Valid() {
        WallsAndRoomsValid(State(), rows, walls, relation);
      }
      edges, raised := RunWallsAndRooms(State(), rows, walls, relation);
    }

    method ProcessWallAdjacency(rows: seq<seq<string>>, walls: seq<Element>) returns (raised: Option<PyException>)
      modifies this
      ensures Applied(State(), raised) == WallAdjacency(old(State()), rows, walls)
      ensures old(Valid()) ==> Valid()
    {
      if Valid() {
        WallAdjacencyValid(State(), rows, walls);
      }
      edges, raised := RunWallAdjacency(State(), rows, walls);
    }

    method ProcessElementHosts(byType: string -> Outcome<seq<Element>>, rows: seq<seq<string>>, walls: seq<Element>) returns (raised: Option<PyException>)
      modifies this
      ensures Applied(State(), raised) == ElementHosts(old(State()), byType, rows, walls)
      ensures old(Valid()) ==> Valid()
    {
      if Valid() {
        ElementHostsValid(State(), byType, rows, walls);
      }
      edges, raised := RunElementHosts(State(), byType, rows, walls);
    }
  }

  // ---------------------------------------------------------------------
  // main

  /** What main reads: the IFC entities by type and the contents of the
    * CSV files, as text lines or as csv rows. */
  datatype Sources = Sources(
    allSpaces: seq<Space>, doors: seq<Element>, windows: seq<Element>, walls: seq<Element>,
    roomLines: seq<string>, doorLines: seq<string>, windowLines: seq<string>,
    wallRows: seq<seq<string>>, adjacencyRows: seq<seq<string>>, hostRows: seq<seq<string>>)

  /** The rooms main adds: the spaces of the storey whose names are one to
    * five digits. */
  function StoreyRooms(src: Sources, storeyName: string): Outcome<seq<Space>>
  {
    Gather(Keep(src.allSpaces, SpaceFilters.InStoreyTest(storeyName)), SpaceFilters.NameStep(SpaceFilters.DigitRule()))
  }

  /** The door, window and wall steps both mains share. */
  function ElementSteps(g: GraphState, src: Sources, storeyName: string): GraphState
  {
    var withDoors := DoorsAndWindows(g, src.doors, "IfcDoor", src.doorLines, "blue", "ContainedIn");
    var withWindows := DoorsAndWindows(withDoors, src.windows, "IfcWindow", src.windowLines, "purple", "ContainedIn");
    Walls(withWindows, src.walls, storeyName)
  }

  /** The space-to-wall and wall-to-wall steps both mains share. */
  function WallRowSteps(g: GraphState, src: Sources): Applied
  {
    var a := WallsAndRooms(g, src.wallRows, src.walls, "ContainedIn");
    if a.raised.Some? then a else WallAdjacency(a.graph, src.adjacencyRows, src.walls)
  }

  function Finish(a: Applied): Outcome<GraphState>
  {
    if a.raised.Some? then Raised(a.raised.value) else Returned(a.graph)
  }

  /** main of 02_Altern_InteractiveGraph.py after the room nodes: the
    * graph it draws, or the exception that ends it. */
  function InteractiveAfterRooms(g: GraphState, src: Sources, storeyName: string): Outcome<GraphState>
  {
    var a := WallRowSteps(ElementSteps(RoomConnections(g, src.roomLines, "Direct"), src, storeyName), src);
    if a.raised.Some? then Raised(a.raised.value)
    else Finish(WallsAndRooms(a.graph, src.hostRows, src.walls, "HostedBy"))
  }

  /** main of 02_Altern_InteractiveGraph.py up to the drawing. */
  function InteractiveMain(src: Sources, storeyName: string): Outcome<GraphState>
  {
    match StoreyRooms(src, storeyName)
    case Raised(e) => Raised(e)
    case Returned(spaces) => InteractiveAfterRooms(AddRooms(EmptyGraph, spaces), src, storeyName)
  }

  /** main of Deprecated/02_Altern_InteractiveGraph.py after the room
    * nodes: the direct, door and window connections, then the same element
    * and wall steps, then the host walls of doors and windows. */
  function PickledAfterRooms(g: GraphState, src: Sources, storeyName: string, byType: string -> Outcome<seq<Element>>): Outcome<GraphState>
  {
    var connected := ElementConnections(ElementConnections(DirectConnections(g, src.roomLines), src.doorLines, "Door"), src.windowLines, "Window");
    var a := WallRowSteps(ElementSteps(connected, src, storeyName), src);
    if a.raised.Some? then Raised(a.raised.value)
    else Finish(ElementHosts(a.graph, byType, src.hostRows, src.walls))
  }

  /** main of Deprecated/02_Altern_InteractiveGraph.py up to the pickling. */
  function PickledMain(src: Sources, storeyName: string, byType: string -> Outcome<seq<Element>>): Outcome<GraphState>
  {
    match StoreyRooms(src, storeyName)
    case Raised(e) => Raised(e)
    case Returned(spaces) => PickledAfterRooms(AddRooms(EmptyGraph, spaces), src, storeyName, byType)
  }

  method BuildElementSteps(g: Graph, src: Sources, storeyName: string)
    modifies g
    ensures g.State() == ElementSteps(old(g.State()), src, storeyName)
    ensures old(g.Valid()) ==> g.Valid()
  {
    g.ProcessDoorsAndWindows(src.doors, "IfcDoor", src.doorLines, "blue", "ContainedIn");
    g.ProcessDoorsAndWindows(src.windows, "IfcWindow", src.windowLines, "purple", "ContainedIn");
    g.ProcessWalls(src.walls, storeyName);
  }

  method BuildWallRowSteps(g: Graph, src: Sources) returns (raised: Option<PyException>)
    modifies g
    ensures Applied(g.State(), raised) == WallRowSteps(old(g.State()), src)
    ensures old(g.Valid()) ==> g.Valid()
  {
    raised := g.ProcessWallsAndRooms(src.wallRows, src.walls, "ContainedIn");
    if raised.None? {
      raised := g.ProcessWallAdjacency(src.adjacencyRows, src.walls);
    }
  }

  method BuildInteractiveAfterRooms(g: Graph, src: Sources, storeyName: string) returns (result: Outcome<GraphState>)
    modifies g
    ensures result == InteractiveAfterRooms(old(g.State()), src, storeyName)
    ensures result.Returned? ==> result.value == g.State() && (old(g.Valid()) ==> g.Valid())
  {
    g.ProcessCsvRoomConnections(src.roomLines, "Direct");
    ghost var connected := g.State();
    BuildElementSteps(g, src, storeyName);
    var raised := BuildWallRowSteps(g, src);
    if raised.Some? {
      return Raised(raised.value);
    }
    raised := g.ProcessWallsAndRooms(src.hostRows, src.walls, "HostedBy");
    result := Finish(Applied(g.State(), raised));
  }

  /** main of 02_Altern_InteractiveGraph.py, as written. */
  method BuildInteractiveGraph(src: Sources, storeyName: string) returns (g: Graph, result: Outcome<GraphState>)
    ensures fresh(g)
    ensures result == InteractiveMain(src, storeyName)
    ensures result.Returned? ==> result.value == g.State() && g.Valid()
  {
    g := new Graph();
    var inStorey := SpaceFilters.FilterIfcSpacesByStorey(src.allSpaces, storeyName);
    var spaces := SpaceFilters.FilterSpacesByName(inStorey, SpaceFilters.DigitRule());
    if spaces.Raised? {
      return g, Raised(spaces.exc);
    }
    g.AddRoomNodes(spaces.value);
    result := BuildInteractiveAfterRooms(g, src, storeyName);
  }

  method BuildPickledAfterRooms(g: Graph, src: Sources, storeyName: string, byType: string -> Outcome<seq<Element>>) returns (result: Outcome<GraphState>)
    modifies g
    ensures result == PickledAfterRooms(old(g.State()), src, storeyName, byType)
    ensures result.Returned? ==> result.value == g.State() && (old(g.Valid()) ==> g.Valid())
  {
    g.ProcessDirectConnections(src.roomLines);
    g.ProcessElementConnections(src.doorLines, "Door");
    g.ProcessElementConnections(src.windowLines, "Window");
    BuildElementSteps(g, src, storeyName);
    var raised := BuildWallRowSteps(g, src);
    if raised.Some? {
      return Raised(raised.value);
    }
    raised := g.ProcessElementHosts(byType, src.hostRows, src.walls);
    result := Finish(Applied(g.State(), raised));
  }

  /** main of Deprecated/02_Altern_InteractiveGraph.py. */
  method BuildPickledGraph(src: Sources, storeyName: string, byType: string -> Outcome<seq<Element>>) returns (g: Graph, result: Outcome<GraphState>)
    ensures fresh(g)
    ensures result == PickledMain(src, storeyName, byType)
    ensures result.Returned? ==> result.value == g.State() && g.Valid()
  {
    g := new Graph();
    var inStorey := SpaceFilters.FilterIfcSpacesByStorey(src.allSpaces, storeyName);
    var spaces := SpaceFilters.FilterSpacesByName(inStorey, SpaceFilters.DigitRule());
    if spaces.Raised? {
      return g, Raised(spaces.exc);
    }
    g.AddRoomNodes(spaces.value);
    result := BuildPickledAfterRooms(g, src, storeyName, byType);
  }

  // ---------------------------------------------------------------------
  // The HostedBy step of 02_Altern_InteractiveGraph.py over a whole run

  /** The length of an IFC GlobalId (a 128-bit number in base 64). */
  const IfcGuidLength := 22

  predicate IfcGuidsOnly(g: GraphState)
  {
    forall n :: n in g.attrs ==> |g.attrs[n].globalId| == IfcGuidLength
  }

  predicate EntriesIfcGuids(entries: seq<(string, NodeAttrs)>)
  {
    forall k :: 0 <= k < |entries| ==> |entries[k].1.globalId| == IfcGuidLength
  }

  predicate ElementsIfcGuids(es: seq<Element>)
  {
    forall k :: 0 <= k < |es| ==> |es[k].globalId| == IfcGuidLength
  }

  /** Adding nodes with IFC GlobalIds keeps every GlobalId an IFC one. */
  lemma {:induction false} AddNodesGuids(g: GraphState, entries: seq<(string, NodeAttrs)>)
    requires IfcGuidsOnly(g) && EntriesIfcGuids(entries)
    ensures IfcGuidsOnly(AddNodes(g, entries))
    decreases |entries|
  {
    if |entries| > 0 {
      var init := entries[..|entries| - 1];
      assert EntriesIfcGuids(init) by {
        forall k | 0 <= k < |init| ensures |init[k].1.globalId| == IfcGuidLength {
          assert init[k] == entries[k];
        }
      }
      AddNodesGuids(g, init);
    }
  }

  /** The GlobalId of an element node is the GlobalId of an element. */
  lemma FoundGuid(elements: seq<Element>, elementType: string, rows: seq<seq<string>>, t: (string, string, EntityId))
    requires t in Found(elements, elementType, rows)
    ensures exists e :: e in elements && e.globalId == t.1
  {
    ConcatMapMembers(rows, FoundRule(elements, elementType), t);
    var k :| 0 <= k < |rows| && t in FoundRule(elements, elementType)(rows[k]);
    var e := Neo4jGraph.FirstWithGuid(elements, rows[k][0]);
    assert e.Some? && t.1 == rows[k][0];
  }

  lemma DoorsAndWindowsGuids(g: GraphState, elements: seq<Element>, elementType: string, lines: seq<string>, color: string, category: string)
    requires IfcGuidsOnly(g) && ElementsIfcGuids(elements)
    ensures IfcGuidsOnly(DoorsAndWindows(g, elements, elementType, lines, color, category))
  {
    var found := Found(elements, elementType, ParsedLines(lines));
    var entries := ElementEntries(found, color);
    forall k | 0 <= k < |entries| ensures |entries[k].1.globalId| == IfcGuidLength {
      assert found[k] in found;
      FoundGuid(elements, elementType, ParsedLines(lines), found[k]);
    }
    AddNodesGuids(g, entries);
  }

  lemma WallsGuids(g: GraphState, walls: seq<Element>, storeyName: string)
    requires IfcGuidsOnly(g) && ElementsIfcGuids(walls)
    ensures IfcGuidsOnly(Walls(g, walls, storeyName))
  {
    var found := WallsInStorey(walls, storeyName);
    var entries := WallEntries(found);
    forall k | 0 <= k < |entries| ensures |entries[k].1.globalId| == IfcGuidLength {
      WallsInStoreyMembers(walls, storeyName, found[k]);
    }
    AddNodesGuids(g, entries);
  }

  /** Rooms taken from spaces with IFC GlobalIds. */
  lemma StoreyRoomsGuids(src: Sources, storeyName: string)
    requires forall k :: 0 <= k < |src.allSpaces| ==> |src.allSpaces[k].globalId| == IfcGuidLength
    requires StoreyRooms(src, storeyName).Returned?
    ensures EntriesIfcGuids(RoomEntries(StoreyRooms(src, storeyName).value))
  {
    var kept := Keep(src.allSpaces, SpaceFilters.InStoreyTest(storeyName));
    var step := SpaceFilters.NameStep(SpaceFilters.DigitRule());
    var spaces := StoreyRooms(src, storeyName).value;
    GatherOutcome(kept, step);
    KeepMembers(src.allSpaces, SpaceFilters.InStoreyTest(storeyName));
    forall k | 0 <= k < |spaces| ensures |spaces[k].globalId| == IfcGuidLength {
      assert spaces[k] in Gather(kept, step).value;
      var j :| 0 <= j < |kept| && step(kept[j]).Returned? && spaces[k] in step(kept[j]).value;
      assert spaces[k] == kept[j];
      assert kept[j] in src.allSpaces;
    }
  }

  /** When every IFC GlobalId is 22 characters long and the hosts file
    * holds door and window rows, main of 02_Altern_InteractiveGraph.py
    * builds the same graph as with an empty hosts file. */
  lemma InteractiveHostsIdle(src: Sources, storeyName: string)
    requires forall k :: 0 <= k < |src.allSpaces| ==> |src.allSpaces[k].globalId| == IfcGuidLength
    requires ElementsIfcGuids(src.doors) && ElementsIfcGuids(src.windows) && ElementsIfcGuids(src.walls)
    requires forall k :: 0 <= k < |src.hostRows| ==>
      |src.hostRows[k]| >= 3 && (src.hostRows[k][0] == "IfcDoor" || src.hostRows[k][0] == "IfcWindow")
    ensures InteractiveMain(src, storeyName) == InteractiveMain(src.(hostRows := []), storeyName)
  {
    var none := src.(hostRows := []);
    assert StoreyRooms(none, storeyName) == StoreyRooms(src, storeyName);
    if StoreyRooms(src, storeyName).Returned? {
      var spaces := StoreyRooms(src, storeyName).value;
      StoreyRoomsGuids(src, storeyName);
      AddNodesGuids(EmptyGraph, RoomEntries(spaces));
      var g := RoomConnections(AddRooms(EmptyGraph, spaces), src.roomLines, "Direct");
      var withDoors := DoorsAndWindows(g, src.doors, "IfcDoor", src.doorLines, "blue", "ContainedIn");
      DoorsAndWindowsGuids(g, src.doors, "IfcDoor", src.doorLines, "blue", "ContainedIn");
      var withWindows := DoorsAndWindows(withDoors, src.windows, "IfcWindow", src.windowLines, "purple", "ContainedIn");
      DoorsAndWindowsGuids(withDoors, src.windows, "IfcWindow", src.windowLines, "purple", "ContainedIn");
      WallsGuids(withWindows, src.walls, storeyName);
      var h := ElementSteps(g, src, storeyName);
      assert ElementSteps(g, none, storeyName) == h;
      var a := WallRowSteps(h, src);
      assert WallRowSteps(h, none) == a;
      if a.raised.None? {
        assert a.graph.attrs == h.attrs;
        HostsReadAsSpaceRows(a.graph, src.hostRows, src.walls);
        RunKeysNothing([], RoomWallRule(a.graph, src.walls));
      }
    }
  }
}
