/**
 * The Neo4j loader: what `add_edge` writes and which calls the `process_*`
 * functions make while they read the CSV files. Each call of `add_edge` and
 * of a node writer is recorded, in order, as a `Write`; the Cypher MERGE and
 * MATCH that the database performs with it are not modelled.
 */
module Neo4jGraph {
  import opened Common
  import opened Ifc
  import opened Text
  import IfcProperties
  import PyDict

  // ---------------------------------------------------------------------
  // Python's ordering of str and `sorted([a, b])`

  /** `a <= b` on Python strings: lexicographic by code point. */
  predicate StrLe(a: string, b: string)
  {
    |a| == 0 || (|b| > 0 && (a[0] < b[0] || (a[0] == b[0] && StrLe(a[1..], b[1..]))))
  }

  lemma {:induction false} StrLeTotal(a: string, b: string)
    ensures StrLe(a, b) || StrLe(b, a)
  {
    if |a| > 0 && |b| > 0 && a[0] == b[0] {
      StrLeTotal(a[1..], b[1..]);
    }
  }

  lemma {:induction false} StrLeAntisymmetric(a: string, b: string)
    requires StrLe(a, b) && StrLe(b, a)
    ensures a == b
  {
    if |a| > 0 && |b| > 0 {
      StrLeAntisymmetric(a[1..], b[1..]);
      assert a == [a[0]] + a[1..] && b == [b[0]] + b[1..];
    }
  }

  /** `sorted([a, b])`: the smaller string first; the sort is stable, so
    * equal strings keep their order. */
  function Sorted2(a: string, b: string): (p: (string, string))
    ensures StrLe(p.0, p.1)
    ensures (p.0 == a && p.1 == b) || (p.0 == b && p.1 == a)
  {
    StrLeTotal(a, b);
    if StrLe(a, b) then (a, b) else (b, a)
  }

  /** The order of the two arguments does not matter to `sorted`. */
  lemma Sorted2Symmetric(a: string, b: string)
    ensures Sorted2(a, b) == Sorted2(b, a)
  {
    if StrLe(a, b) && StrLe(b, a) {
      StrLeAntisymmetric(a, b);
    }
  }

  // ---------------------------------------------------------------------
  // add_edge and the node writers

  /** What the loader sends to the database: a node MERGE (its label, its
    * GlobalId, its step id, its Name and the properties it sets) or a
    * relationship MERGE from `source` to `target`. */
  datatype Write =
    | Node(nodeLabel: string, globalId: string, oid: EntityId, name: Option<string>, props: seq<(string, Option<Value>)>)
    | Edge(source: string, target: string, relation: string, accessType: Option<string>)

  /** The categories that become an "Access" relationship. */
  predicate IsAccessCategory(category: string)
  {
    category == "Direct" || category == "Door" || category == "Window"
  }

  /** `add_edge(tx, id1, id2, category)`: the endpoints are the two ids in
    * either order. */
  function AddEdge(id1: string, id2: string, category: string): (w: Write)
    ensures w.Edge?
    ensures (w.source == id1 && w.target == id2) || (w.source == id2 && w.target == id1)
    ensures IsAccessCategory(category) ==> w.relation == "Access" && w.accessType == Some(category)
    ensures !IsAccessCategory(category) ==> w.relation == category && w.accessType.None?
  {
    var sortedIds := Sorted2(id1, id2);
    var relation := if IsAccessCategory(category) then "Access" else category;
    var accessType := if IsAccessCategory(category) then Some(category) else None;
    Edge(sortedIds.0, sortedIds.1, relation, accessType)
  }

  /** The edge always runs from the smaller GlobalId to the larger one. */
  lemma AddEdgeSorted(id1: string, id2: string, category: string)
    ensures StrLe(AddEdge(id1, id2, category).source, AddEdge(id1, id2, category).target)
  {
  }

  /** (a, b) and (b, a) produce the same write. */
  lemma AddEdgeSymmetric(id1: string, id2: string, category: string)
    ensures AddEdge(id1, id2, category) == AddEdge(id2, id1, category)
  {
    Sorted2Symmetric(id1, id2);
  }

  /** The callers sort the pair themselves before calling `add_edge`; the
    * second sort changes nothing. */
  lemma SortedPairEdge(a: string, b: string, category: string)
    ensures AddEdge(Sorted2(a, b).0, Sorted2(a, b).1, category) == AddEdge(a, b, category)
  {
    var p := Sorted2(a, b);
    if p.0 != a {
      AddEdgeSymmetric(a, b, category);
    }
  }

  /** An edge is a loop exactly when both arguments are the same id. */
  lemma AddEdgeLoop(id1: string, id2: string, category: string)
    ensures AddEdge(id1, id2, category).source == AddEdge(id1, id2, category).target <==> id1 == id2
  {
  }

  /** `room_pair = sorted([a, b])` followed by `add_edge(room_pair[0],
    * room_pair[1], category)`: sorting first changes nothing. */
  function PairEdge(a: string, b: string, category: string): (w: Write)
    ensures w == AddEdge(a, b, category)
  {
    var roomPair := Sorted2(a, b);
    SortedPairEdge(a, b, category);
    AddEdge(roomPair.0, roomPair.1, category)
  }

  /** One `add_edge(a, t, category)` per target, in order. */
  function EdgesTo(a: string, targets: seq<string>, category: string): (ws: seq<Write>)
    ensures |ws| == |targets|
    ensures forall k :: 0 <= k < |targets| ==> ws[k] == AddEdge(a, targets[k], category)
  {
    seq(|targets|, k requires 0 <= k < |targets| => AddEdge(a, targets[k], category))
  }

  lemma EdgesToSnoc(a: string, targets: seq<string>, t: string, category: string)
    ensures EdgesTo(a, targets + [t], category) == EdgesTo(a, targets, category) + [AddEdge(a, t, category)]
  {
    assert EdgesTo(a, targets + [t], category)[..|targets|] == EdgesTo(a, targets, category);
  }

  // ---------------------------------------------------------------------
  // Reading the files

  /** `line.strip().split(';')` for a line of a file iterated with `for line in file`. */
  function LineFields(line: string): (parts: seq<string>)
    ensures |parts| >= 1
  {
    Split(Strip(line), ';')
  }

  /** The writes of a loop over the lines of a file that raises nothing. */
  function AllWrites<T>(items: seq<T>, f: T -> seq<Write>): seq<Write>
    decreases |items|
  {
    if |items| == 0 then [] else AllWrites(items[..|items| - 1], f) + f(items[|items| - 1])
  }

  lemma AllWritesStep<T>(items: seq<T>, f: T -> seq<Write>, i: nat)
    requires i < |items|
    ensures AllWrites(items[..i + 1], f) == AllWrites(items[..i], f) + f(items[i])
  {
    assert items[..i + 1][..i] == items[..i];
  }

  lemma {:induction false} AllWritesMembers<T>(items: seq<T>, f: T -> seq<Write>, w: Write)
    ensures w in AllWrites(items, f) <==> exists k :: 0 <= k < |items| && w in f(items[k])
    decreases |items|
  {
    if |items| > 0 {
      var init := items[..|items| - 1];
      AllWritesMembers(init, f, w);
      assert forall k :: 0 <= k < |init| ==> init[k] == items[k];
    }
  }

  /** What `csv.reader` loops leave behind: the writes made before an
    * exception stay in the database, and the exception ends the loop. */
  datatype Run = Run(writes: seq<Write>, raised: Option<PyException>)

  /** A loop over rows where each row either raises before it writes
    * anything or returns its writes. */
  function RunRows<T>(rows: seq<T>, f: T -> Outcome<seq<Write>>): Run
    decreases |rows|
  {
    if |rows| == 0 then Run([], None)
    else
      var r := RunRows(rows[..|rows| - 1], f);
      if r.raised.Some? then r
      else
        match f(rows[|rows| - 1])
        case Returned(ws) => Run(r.writes + ws, None)
        case Raised(e) => Run(r.writes, Some(e))
  }

  lemma RunRowsStep<T>(rows: seq<T>, f: T -> Outcome<seq<Write>>, i: nat)
    requires i < |rows|
    ensures RunRows(rows[..i + 1], f) ==
      (var r := RunRows(rows[..i], f);
       if r.raised.Some? then r
       else match f(rows[i])
         case Returned(ws) => Run(r.writes + ws, None)
         case Raised(e) => Run(r.writes, Some(e)))
  {
    assert rows[..i + 1][..i] == rows[..i];
  }

  lemma {:induction false} RunRowsRaisedStays<T>(rows: seq<T>, f: T -> Outcome<seq<Write>>, n: nat)
    requires n <= |rows| && RunRows(rows[..n], f).raised.Some?
    ensures RunRows(rows, f) == RunRows(rows[..n], f)
    decreases |rows| - n
  {
    if n < |rows| {
      RunRowsStep(rows, f, n);
      RunRowsRaisedStays(rows, f, n + 1);
    } else {
      assert rows[..n] == rows;
    }
  }

  /** The loop ends with an exception iff some row raises; with none it has
    * made exactly every row's writes. */
  lemma {:induction false} RunRowsOutcome<T>(rows: seq<T>, f: T -> Outcome<seq<Write>>)
    ensures RunRows(rows, f).raised.Some? <==> exists k :: 0 <= k < |rows| && f(rows[k]).Raised?
    ensures RunRows(rows, f).raised.None? ==>
      forall w :: w in RunRows(rows, f).writes <==> exists k :: 0 <= k < |rows| && f(rows[k]).Returned? && w in f(rows[k]).value
    decreases |rows|
  {
    if |rows| > 0 {
      var init := rows[..|rows| - 1];
      RunRowsOutcome(init, f);
      assert forall k :: 0 <= k < |init| ==> init[k] == rows[k];
    }
  }

  // ---------------------------------------------------------------------
  // Looking entities up by GlobalId

  /** `next((e.id() for e in es if e.GlobalId == g), None)`. */
  function OidOf(es: seq<Element>, g: string): (r: Option<EntityId>)
    ensures r.None? <==> forall k :: 0 <= k < |es| ==> es[k].globalId != g
    ensures r.Some? ==>
      exists k :: 0 <= k < |es| && es[k].globalId == g && es[k].id == r.value && forall k' :: 0 <= k' < k ==> es[k'].globalId != g
  {
    if |es| == 0 then None
    else if es[0].globalId == g then Some(es[0].id)
    else
      var r := OidOf(es[1..], g);
      assert forall k :: 1 <= k < |es| ==> es[k] == es[1..][k - 1];
      assert r.Some? ==>
        exists k :: 1 <= k < |es| && es[k].globalId == g && es[k].id == r.value && forall k' :: 0 <= k' < k ==> es[k'].globalId != g;
      r
  }

  lemma OidOfAt(es: seq<Element>, g: string, j: nat)
    requires j < |es| && es[j].globalId == g
    requires forall k :: 0 <= k < j ==> es[k].globalId != g
    ensures OidOf(es, g) == Some(es[j].id)
  {
  }

  /** The generator expression as a loop that stops at the first match. */
  method FindOid(es: seq<Element>, g: string) returns (oid: Option<EntityId>)
    ensures oid == OidOf(es, g)
  {
    var j := 0;
    while j < |es|
      invariant 0 <= j <= |es|
      invariant forall k :: 0 <= k < j ==> es[k].globalId != g
    {
      if es[j].globalId == g {
        OidOfAt(es, g, j);
        return Some(es[j].id);
      }
      j := j + 1;
    }
    return None;
  }

  /** `if oid:` — None and the step id 0 are both false. */
  predicate Truthy(oid: Option<EntityId>)
  {
    oid.Some? && oid.value != 0
  }

  predicate Resolves(es: seq<Element>, g: string)
  {
    Truthy(OidOf(es, g))
  }

  function ResolvesIn(es: seq<Element>): string -> bool
  {
    g => Resolves(es, g)
  }

  /** An id that no wall carries never resolves. */
  lemma UnknownGuidNeverResolves(es: seq<Element>, g: string)
    requires forall k :: 0 <= k < |es| ==> es[k].globalId != g
    ensures !Resolves(es, g)
  {
  }

  // ---------------------------------------------------------------------
  // process_direct_connections

  /** The "Direct" edges of one room and the ids of its second field. */
  function DirectEdges(main: string, neighbours: seq<string>): seq<Write>
    decreases |neighbours|
  {
    if |neighbours| == 0 then []
    else
      var n := neighbours[|neighbours| - 1];
      DirectEdges(main, neighbours[..|neighbours| - 1]) +
      (if main != n then [PairEdge(main, n, "Direct")] else [])
  }

  lemma DirectEdgesStep(main: string, neighbours: seq<string>, j: nat)
    requires j < |neighbours|
    ensures DirectEdges(main, neighbours[..j + 1]) == DirectEdges(main, neighbours[..j]) +
      (if main != neighbours[j] then [PairEdge(main, neighbours[j], "Direct")] else [])
  {
    assert neighbours[..j + 1][..j] == neighbours[..j];
  }

  function LineDirectEdges(line: string): seq<Write>
  {
    var parts := LineFields(line);
    if |parts| > 1 then DirectEdges(parts[0], Split(parts[1], ',')) else []
  }

  method ProcessDirectConnections(lines: seq<string>) returns (writes: seq<Write>)
    ensures writes == AllWrites(lines, LineDirectEdges)
  {
    writes := [];
    for i := 0 to |lines|
      invariant writes == AllWrites(lines[..i], LineDirectEdges)
    {
      AllWritesStep(lines, LineDirectEdges, i);
      var parts := Split(Strip(lines[i]), ';');
      var mainRoom := parts[0];
      if |parts| > 1 {
        var connectedRooms := Split(parts[1], ',');
        var direct := ConnectDirect(mainRoom, connectedRooms);
        writes := writes + direct;
      }
    }
    assert lines[..|lines|] == lines;
  }

  /** The inner loop of `process_direct_connections`. */
  method ConnectDirect(mainRoom: string, neighbours: seq<string>) returns (writes: seq<Write>)
    ensures writes == DirectEdges(mainRoom, neighbours)
  {
    writes := [];
    for j := 0 to |neighbours|
      invariant writes == DirectEdges(mainRoom, neighbours[..j])
    {
      DirectEdgesStep(mainRoom, neighbours, j);
      if mainRoom != neighbours[j] {
        writes := writes + [PairEdge(mainRoom, neighbours[j], "Direct")];
      }
    }
    assert neighbours[..|neighbours|] == neighbours;
  }

  lemma {:induction false} DirectEdgesMembers(main: string, neighbours: seq<string>, w: Write)
    ensures w in DirectEdges(main, neighbours) <==> exists n :: n in neighbours && n != main && w == AddEdge(main, n, "Direct")
    decreases |neighbours|
  {
    if |neighbours| > 0 {
      var init := neighbours[..|neighbours| - 1];
      var n := neighbours[|neighbours| - 1];
      DirectEdgesMembers(main, init, w);
      assert neighbours == init + [n];
    }
  }

  /** Each line's edges go from its first field to a different id of its
    * second field; a line without a second field gives none. */
  lemma DirectConnectionEdges(lines: seq<string>, w: Write)
    ensures w in AllWrites(lines, LineDirectEdges) <==>
      exists k, n :: 0 <= k < |lines| && |LineFields(lines[k])| > 1 && n in Split(LineFields(lines[k])[1], ',') &&
        n != LineFields(lines[k])[0] && w == AddEdge(LineFields(lines[k])[0], n, "Direct")
  {
    AllWritesMembers(lines, LineDirectEdges, w);
    forall k | 0 <= k < |lines|
      ensures w in LineDirectEdges(lines[k]) <==>
        exists n :: |LineFields(lines[k])| > 1 && n in Split(LineFields(lines[k])[1], ',') &&
          n != LineFields(lines[k])[0] && w == AddEdge(LineFields(lines[k])[0], n, "Direct")
    {
      var parts := LineFields(lines[k]);
      if |parts| > 1 {
        DirectEdgesMembers(parts[0], Split(parts[1], ','), w);
      }
    }
  }

  /** No "Direct" edge is a loop, and each is an Access edge of type Direct. */
  lemma DirectConnectionsNoLoops(lines: seq<string>, w: Write)
    requires w in AllWrites(lines, LineDirectEdges)
    ensures w.Edge? && w.source != w.target && w.relation == "Access" && w.accessType == Some("Direct")
  {
    DirectConnectionEdges(lines, w);
    var k, n :| 0 <= k < |lines| && |LineFields(lines[k])| > 1 && n in Split(LineFields(lines[k])[1], ',') &&
      n != LineFields(lines[k])[0] && w == AddEdge(LineFields(lines[k])[0], n, "Direct");
    AddEdgeLoop(LineFields(lines[k])[0], n, "Direct");
  }

  // ---------------------------------------------------------------------
  // process_element_connections

  /** The inner loop for index i: j runs from i + 1 to m - 1. */
  function RowPairEdges<T(==), W>(ids: seq<T>, i: nat, m: nat, edge: (T, T) -> W): seq<W>
    requires i < |ids| && m <= |ids|
    decreases m
  {
    if m <= i + 1 then []
    else
      RowPairEdges(ids, i, m - 1, edge) +
      (if ids[i] != ids[m - 1] then [edge(ids[i], ids[m - 1])] else [])
  }

  /** The outer loop over the first n indices. */
  function PairEdges<T(==), W>(ids: seq<T>, n: nat, edge: (T, T) -> W): seq<W>
    requires n <= |ids|
  {
    if n == 0 then [] else PairEdges(ids, n - 1, edge) + RowPairEdges(ids, n - 1, |ids|, edge)
  }

  /** `range(len(ids) - 1)` is empty for zero ids. */
  function OuterBound(ids: seq<string>): (n: nat)
    ensures n <= |ids|
  {
    if |ids| == 0 then 0 else |ids| - 1
  }

  /** The write for one pair: the two ids sorted, then `add_edge`. */
  function PairEdgeOf(accessType: string): (string, string) -> Write
  {
    (a, b) => PairEdge(a, b, accessType)
  }

  function ElementPairEdges(ids: seq<string>, accessType: string): seq<Write>
  {
    PairEdges(ids, OuterBound(ids), PairEdgeOf(accessType))
  }

  function LineElementEdges(accessType: string): string -> seq<Write>
  {
    line =>
      var parts := LineFields(line);
      if |parts| > 1 then ElementPairEdges(Split(parts[1], ','), accessType) else []
  }

  method ProcessElementConnections(lines: seq<string>, accessType: string) returns (writes: seq<Write>)
    ensures writes == AllWrites(lines, LineElementEdges(accessType))
  {
    writes := [];
    for l := 0 to |lines|
      invariant writes == AllWrites(lines[..l], LineElementEdges(accessType))
    {
      AllWritesStep(lines, LineElementEdges(accessType), l);
      var parts := Split(Strip(lines[l]), ';');
      if |parts| > 1 {
        var connectedRooms := Split(parts[1], ',');
        var pairEdges := ConnectRoomPairs(connectedRooms, accessType);
        writes := writes + pairEdges;
      }
    }
    assert lines[..|lines|] == lines;
  }

  /** The two nested index loops of `process_element_connections`. */
  method ConnectRoomPairs(ids: seq<string>, accessType: string) returns (writes: seq<Write>)
    ensures writes == ElementPairEdges(ids, accessType)
  {
    writes := [];
    var n := if |ids| == 0 then 0 else |ids| - 1;
    for i := 0 to n
      invariant writes == PairEdges(ids, i, PairEdgeOf(accessType))
    {
      var row := ConnectRoomRow(ids, i, accessType);
      writes := writes + row;
    }
  }

  /** The inner loop `for j in range(i + 1, len(ids))` for one i. */
  method ConnectRoomRow(ids: seq<string>, i: nat, accessType: string) returns (row: seq<Write>)
    requires i < |ids|
    ensures row == RowPairEdges(ids, i, |ids|, PairEdgeOf(accessType))
  {
    row := [];
    for j := i + 1 to |ids|
      invariant row == RowPairEdges(ids, i, j, PairEdgeOf(accessType))
    {
      if ids[i] != ids[j] {
        row := row + [PairEdge(ids[i], ids[j], accessType)];
      }
    }
  }

  lemma {:induction false} RowPairMembers<T, W>(ids: seq<T>, i: nat, m: nat, edge: (T, T) -> W, w: W)
    requires i < |ids| && m <= |ids|
    ensures w in RowPairEdges(ids, i, m, edge) <==>
      exists j :: i < j < m && ids[i] != ids[j] && w == edge(ids[i], ids[j])
    decreases m
  {
    if m > i + 1 {
      RowPairMembers(ids, i, m - 1, edge, w);
    }
  }

  /** Every write of the first n rows comes from a pair i < j with distinct ids. */
  lemma {:induction false} PairMembersSound<T, W>(ids: seq<T>, n: nat, edge: (T, T) -> W, w: W)
    requires n <= |ids| && w in PairEdges(ids, n, edge)
    ensures exists i, j :: 0 <= i < n && i < j < |ids| && ids[i] != ids[j] && w == edge(ids[i], ids[j])
  {
    assert n > 0;
    var prev := PairEdges(ids, n - 1, edge);
    var row := RowPairEdges(ids, n - 1, |ids|, edge);
    assert PairEdges(ids, n, edge) == prev + row;
    if w in prev {
      PairMembersSound(ids, n - 1, edge, w);
      var i, j :| 0 <= i < n - 1 && i < j < |ids| && ids[i] != ids[j] && w == edge(ids[i], ids[j]);
      assert 0 <= i < n && i < j < |ids| && ids[i] != ids[j] && w == edge(ids[i], ids[j]);
    } else {
      assert w in row;
      RowPairSound(ids, n - 1, |ids|, edge, w);
      var j :| n - 1 < j < |ids| && ids[n - 1] != ids[j] && w == edge(ids[n - 1], ids[j]);
      assert 0 <= n - 1 < n && n - 1 < j < |ids| && ids[n - 1] != ids[j] && w == edge(ids[n - 1], ids[j]);
    }
  }

  /** Every pair i < j of the first n rows with distinct ids is written. */
  lemma {:induction false} PairMembersComplete<T, W>(ids: seq<T>, n: nat, edge: (T, T) -> W, i: nat, j: nat)
    requires n <= |ids| && i < n && i < j < |ids| && ids[i] != ids[j]
    ensures edge(ids[i], ids[j]) in PairEdges(ids, n, edge)
  {
    var prev := PairEdges(ids, n - 1, edge);
    var row := RowPairEdges(ids, n - 1, |ids|, edge);
    assert PairEdges(ids, n, edge) == prev + row;
    if i < n - 1 {
      PairMembersComplete(ids, n - 1, edge, i, j);
    } else {
      RowPairComplete(ids, i, |ids|, edge, j);
    }
  }

  lemma {:induction false} RowPairSound<T, W>(ids: seq<T>, i: nat, m: nat, edge: (T, T) -> W, w: W)
    requires i < |ids| && m <= |ids| && w in RowPairEdges(ids, i, m, edge)
    ensures exists j :: i < j < m && ids[i] != ids[j] && w == edge(ids[i], ids[j])
    decreases m
  {
    var prev := RowPairEdges(ids, i, m - 1, edge);
    if w in prev {
      RowPairSound(ids, i, m - 1, edge, w);
    } else {
      assert ids[i] != ids[m - 1] && w == edge(ids[i], ids[m - 1]);
    }
  }

  lemma {:induction false} RowPairComplete<T, W>(ids: seq<T>, i: nat, m: nat, edge: (T, T) -> W, j: nat)
    requires i < j < m <= |ids| && ids[i] != ids[j]
    ensures edge(ids[i], ids[j]) in RowPairEdges(ids, i, m, edge)
    decreases m
  {
    if j < m - 1 {
      RowPairComplete(ids, i, m - 1, edge, j);
    }
  }

  lemma PairMembers<T, W>(ids: seq<T>, n: nat, edge: (T, T) -> W, w: W)
    requires n <= |ids|
    ensures w in PairEdges(ids, n, edge) <==>
      exists i, j :: 0 <= i < n && i < j < |ids| && ids[i] != ids[j] && w == edge(ids[i], ids[j])
  {
    if w in PairEdges(ids, n, edge) {
      PairMembersSound(ids, n, edge, w);
    } else {
      forall i, j | 0 <= i < n && i < j < |ids| && ids[i] != ids[j]
        ensures w != edge(ids[i], ids[j])
      {
        PairMembersComplete(ids, n, edge, i, j);
      }
    }
  }

  /** An edge is written for exactly the index pairs i < j whose ids differ. */
  lemma ElementPairMembers(ids: seq<string>, accessType: string, w: Write)
    ensures w in ElementPairEdges(ids, accessType) <==>
      exists i, j :: 0 <= i < j < |ids| && ids[i] != ids[j] && w == AddEdge(ids[i], ids[j], accessType)
  {
    PairMembers(ids, OuterBound(ids), PairEdgeOf(accessType), w);
  }

  /** Zero or one room gives no edge. */
  lemma SingleRoomNoEdges(ids: seq<string>, accessType: string)
    requires |ids| <= 1
    ensures ElementPairEdges(ids, accessType) == []
  {
  }

  lemma {:induction false} RowPairCount<T, W>(ids: seq<T>, i: nat, m: nat, edge: (T, T) -> W)
    requires i < |ids| && m <= |ids| && Distinct(ids)
    ensures |RowPairEdges(ids, i, m, edge)| == if m <= i + 1 then 0 else m - i - 1
    decreases m
  {
    if m > i + 1 {
      RowPairCount(ids, i, m - 1, edge);
    }
  }

  /** (L - 1) + (L - 2) + ... + (L - n). */
  function RowLengths(L: nat, n: nat): nat
    requires n <= L
  {
    if n == 0 then 0 else RowLengths(L, n - 1) + (L - n)
  }

  lemma {:induction false} RowLengthsSum(L: nat, n: nat)
    requires n <= L
    ensures 2 * RowLengths(L, n) == n * (2 * L - n - 1)
  {
    if n > 0 {
      RowLengthsSum(L, n - 1);
      assert n * (2 * L - n - 1) == (n - 1) * (2 * L - n) + 2 * (L - n);
    }
  }

  lemma {:induction false} PairCount<T, W>(ids: seq<T>, n: nat, edge: (T, T) -> W)
    requires n <= |ids| && Distinct(ids)
    ensures |PairEdges(ids, n, edge)| == RowLengths(|ids|, n)
  {
    if n > 0 {
      PairCount(ids, n - 1, edge);
      RowPairCount(ids, n - 1, |ids|, edge);
    }
  }

  /** With k distinct rooms every one of the k * (k - 1) / 2 pairs gets its
    * own write. */
  lemma ElementPairCount(ids: seq<string>, accessType: string)
    requires Distinct(ids)
    ensures 2 * |ElementPairEdges(ids, accessType)| == |ids| * (|ids| - 1)
  {
    PairCount(ids, OuterBound(ids), PairEdgeOf(accessType));
    AllRowLengths(|ids|);
  }

  /** All rows of L ids together: L * (L - 1) / 2 pairs. */
  lemma AllRowLengths(L: nat)
    ensures 2 * RowLengths(L, if L == 0 then 0 else L - 1) == L * (L - 1)
  {
    if L > 0 {
      RowLengthsSum(L, L - 1);
      assert (L - 1) * (2 * L - (L - 1) - 1) == (L - 1) * L;
    }
  }

  // ---------------------------------------------------------------------
  // process_wall_adjacency

  /** One row of the wall adjacency file: row[0] and row[1] are read before
    * the lookups, so a short row raises IndexError. */
  function AdjacencyRow(walls: seq<Element>): seq<string> -> Outcome<seq<Write>>
  {
    row =>
      if |row| < 2 then Raised(IndexError)
      else if !Resolves(walls, row[0]) then Returned([])
      else Returned(EdgesTo(row[0], Keep(Split(row[1], ','), ResolvesIn(walls)), "IsConnected"))
  }

  method ProcessWallAdjacency(rows: seq<seq<string>>, walls: seq<Element>) returns (writes: seq<Write>, raised: Option<PyException>)
    ensures Run(writes, raised) == RunRows(rows, AdjacencyRow(walls))
  {
    writes := [];
    raised := None;
    for i := 0 to |rows|
      invariant Run(writes, None) == RunRows(rows[..i], AdjacencyRow(walls))
    {
      RunRowsStep(rows, AdjacencyRow(walls), i);
      var row := rows[i];
      if |row| < 2 {
        raised := Some(IndexError);
        RunRowsRaisedStays(rows, AdjacencyRow(walls), i + 1);
        return;
      }
      var primaryWallGuid := row[0];
      var connectedWallGuids := Split(row[1], ',');
      var primaryWallOid := FindOid(walls, primaryWallGuid);
      if Truthy(primaryWallOid) {
        var connections := ConnectResolved(primaryWallGuid, connectedWallGuids, walls, "IsConnected");
        writes := writes + connections;
      }
    }
    assert rows[..|rows|] == rows;
  }

  /** The inner loop of `process_wall_adjacency`: an edge from the primary
    * wall to each listed wall that resolves. */
  method ConnectResolved(primary: string, guids: seq<string>, walls: seq<Element>, category: string) returns (writes: seq<Write>)
    ensures writes == EdgesTo(primary, Keep(guids, ResolvesIn(walls)), category)
  {
    writes := [];
    for j := 0 to |guids|
      invariant writes == EdgesTo(primary, Keep(guids[..j], ResolvesIn(walls)), category)
    {
      var g := guids[j];
      assert guids[..j + 1] == guids[..j] + [g];
      var oid := FindOid(walls, g);
      if Truthy(oid) {
        EdgesToSnoc(primary, Keep(guids[..j], ResolvesIn(walls)), g, category);
        writes := writes + [AddEdge(primary, g, category)];
      }
    }
    assert guids[..|guids|] == guids;
  }

  /** A row written by joining the neighbours with ',' is read back whole:
    * every neighbour that names a wall gets an edge. */
  lemma JoinedRowReadsAll(walls: seq<Element>, key: string, neighbours: seq<string>)
    requires |neighbours| >= 1 && forall n :: n in neighbours ==> ',' !in n
    requires Resolves(walls, key)
    ensures AdjacencyRow(walls)(JoinedRow(key, neighbours)) ==
      Returned(EdgesTo(key, Keep(neighbours, ResolvesIn(walls)), "IsConnected"))
  {
    JoinedRowSplitsBack(key, neighbours);
  }

  /** A joined row with no neighbour holds the empty field, which names no
    * wall as long as every wall has a GlobalId. */
  lemma EmptyJoinedRowNoEdges(walls: seq<Element>, key: string)
    requires forall k :: 0 <= k < |walls| ==> walls[k].globalId != ""
    ensures AdjacencyRow(walls)(JoinedRow(key, [])) == Returned([])
  {
    JoinedRowSplitsBack(key, []);
    UnknownGuidNeverResolves(walls, "");
    assert Keep([""], ResolvesIn(walls)) == [];
  }

  /** A row written with one field per neighbour is read as if only the
    * first neighbour were listed. */
  lemma SpreadRowReadsFirstOnly(walls: seq<Element>, key: string, neighbours: seq<string>)
    requires |neighbours| >= 1 && ',' !in neighbours[0]
    requires Resolves(walls, key)
    ensures AdjacencyRow(walls)(SpreadRow(key, neighbours)) ==
      Returned(EdgesTo(key, Keep([neighbours[0]], ResolvesIn(walls)), "IsConnected"))
  {
    JoinedRowSplitsBack(key, [neighbours[0]]);
  }

  /** A wall without neighbours is written as a one-field row, and reading
    * it raises IndexError, which ends the import of the remaining rows. */
  lemma LoneWallRowRaises(walls: seq<Element>, rows: seq<seq<string>>, k: nat, key: string)
    requires k < |rows| && rows[k] == SpreadRow(key, [])
    ensures RunRows(rows, AdjacencyRow(walls)).raised == Some(IndexError)
  {
    RunRowsOutcome(rows, AdjacencyRow(walls));
    var r := RunRows(rows, AdjacencyRow(walls));
    assert r.raised.Some?;
    assert forall row :: AdjacencyRow(walls)(row).Raised? ==> AdjacencyRow(walls)(row).exc == IndexError;
    RunRowsRaisedIs(rows, AdjacencyRow(walls), IndexError);
  }

  /** When every raising row raises e, so does the loop. */
  lemma {:induction false} RunRowsRaisedIs<T>(rows: seq<T>, f: T -> Outcome<seq<Write>>, e: PyException)
    requires forall row :: f(row).Raised? ==> f(row).exc == e
    ensures RunRows(rows, f).raised.Some? ==> RunRows(rows, f).raised == Some(e)
    decreases |rows|
  {
    if |rows| > 0 {
      RunRowsRaisedIs(rows[..|rows| - 1], f, e);
    }
  }

  /** Edges from the wall adjacency file connect two walls that both resolve. */
  lemma AdjacencyEdgesResolve(walls: seq<Element>, row: seq<string>, w: Write)
    requires AdjacencyRow(walls)(row).Returned? && w in AdjacencyRow(walls)(row).value
    ensures exists g :: Resolves(walls, row[0]) && Resolves(walls, g) && w == AddEdge(row[0], g, "IsConnected")
  {
    var gs := Keep(Split(row[1], ','), ResolvesIn(walls));
    KeepMembers(Split(row[1], ','), ResolvesIn(walls));
    var k :| 0 <= k < |gs| && w == EdgesTo(row[0], gs, "IsConnected")[k];
    assert gs[k] in gs;
  }

  // ---------------------------------------------------------------------
  // process_walls_and_rooms

  /** One row of the room-bounding-walls file: a "ContainedIn" edge between
    * each listed wall that resolves and the space. */
  function WallsAndRoomsRow(walls: seq<Element>): seq<string> -> Outcome<seq<Write>>
  {
    row =>
      if |row| < 2 then Raised(IndexError)
      else Returned(EdgesTo(row[0], Keep(Split(row[1], ','), ResolvesIn(walls)), "ContainedIn"))
  }

  method ProcessWallsAndRooms(rows: seq<seq<string>>, walls: seq<Element>) returns (writes: seq<Write>, raised: Option<PyException>)
    ensures Run(writes, raised) == RunRows(rows, WallsAndRoomsRow(walls))
  {
    writes := [];
    raised := None;
    for i := 0 to |rows|
      invariant Run(writes, None) == RunRows(rows[..i], WallsAndRoomsRow(walls))
    {
      RunRowsStep(rows, WallsAndRoomsRow(walls), i);
      var row := rows[i];
      if |row| < 2 {
        raised := Some(IndexError);
        RunRowsRaisedStays(rows, WallsAndRoomsRow(walls), i + 1);
        return;
      }
      var spaceGlobalId := row[0];
      var wallGuids := Split(row[1], ',');
      var containment := ContainResolved(spaceGlobalId, wallGuids, walls);
      writes := writes + containment;
    }
    assert rows[..|rows|] == rows;
  }

  /** The inner loop of `process_walls_and_rooms`: `add_edge(wall, space,
    * "ContainedIn")` for each listed wall that resolves. */
  method ContainResolved(space: string, wallGuids: seq<string>, walls: seq<Element>) returns (writes: seq<Write>)
    ensures writes == EdgesTo(space, Keep(wallGuids, ResolvesIn(walls)), "ContainedIn")
  {
    writes := [];
    for j := 0 to |wallGuids|
      invariant writes == EdgesTo(space, Keep(wallGuids[..j], ResolvesIn(walls)), "ContainedIn")
    {
      var wallGuid := wallGuids[j];
      assert wallGuids[..j + 1] == wallGuids[..j] + [wallGuid];
      var wallOid := FindOid(walls, wallGuid);
      if Truthy(wallOid) {
        EdgesToSnoc(space, Keep(wallGuids[..j], ResolvesIn(walls)), wallGuid, "ContainedIn");
        AddEdgeSymmetric(wallGuid, space, "ContainedIn");
        writes := writes + [AddEdge(wallGuid, space, "ContainedIn")];
      }
    }
    assert wallGuids[..|wallGuids|] == wallGuids;
  }

  /** A room-bounding-walls row read back: one edge per bounding wall that
    * resolves, and none for a space without walls. */
  lemma BoundingWallsRowRead(walls: seq<Element>, space: string, bounding: seq<string>)
    requires forall n :: n in bounding ==> ',' !in n
    requires forall k :: 0 <= k < |walls| ==> walls[k].globalId != ""
    ensures WallsAndRoomsRow(walls)(JoinedRow(space, bounding)) ==
      Returned(EdgesTo(space, Keep(bounding, ResolvesIn(walls)), "ContainedIn"))
  {
    JoinedRowSplitsBack(space, bounding);
    if |bounding| == 0 {
      UnknownGuidNeverResolves(walls, "");
      assert Keep([""], ResolvesIn(walls)) == [];
    }
  }

  // ---------------------------------------------------------------------
  // process_element_hosts

  /** One row of the hosts file: element type, element GlobalId and wall
    * GlobalId. `by_type` may raise for a name that is not an IFC class. */
  function HostRow(byType: string -> Outcome<seq<Element>>, walls: seq<Element>): seq<string> -> Outcome<seq<Write>>
  {
    row =>
      if |row| < 3 then Raised(IndexError)
      else
        match byType(row[0])
        case Raised(e) => Raised(e)
        case Returned(elements) =>
          if Truthy(OidOf(elements, row[1])) && Resolves(walls, row[2])
          then Returned([AddEdge(row[1], row[2], "HostedBy")])
          else Returned([])
  }

  method ProcessElementHosts(rows: seq<seq<string>>, byType: string -> Outcome<seq<Element>>, walls: seq<Element>)
    returns (writes: seq<Write>, raised: Option<PyException>)
    ensures Run(writes, raised) == RunRows(rows, HostRow(byType, walls))
  {
    writes := [];
    raised := None;
    for i := 0 to |rows|
      invariant Run(writes, None) == RunRows(rows[..i], HostRow(byType, walls))
    {
      RunRowsStep(rows, HostRow(byType, walls), i);
      var row := rows[i];
      if |row| < 3 {
        raised := Some(IndexError);
        RunRowsRaisedStays(rows, HostRow(byType, walls), i + 1);
        return;
      }
      var elementType, elementGuid, wallGuid := row[0], row[1], row[2];
      var elements := byType(elementType);
      if elements.Raised? {
        raised := Some(elements.exc);
        RunRowsRaisedStays(rows, HostRow(byType, walls), i + 1);
        return;
      }
      var elementOid := FindOid(elements.value, elementGuid);
      var wallOid := FindOid(walls, wallGuid);
      if Truthy(elementOid) && Truthy(wallOid) {
        writes := writes + [AddEdge(elementGuid, wallGuid, "HostedBy")];
      }
    }
    assert rows[..|rows|] == rows;
  }

  /** A "HostedBy" edge is written only when both the element and the wall
    * resolve, and then exactly one. */
  lemma HostedByNeedsBoth(byType: string -> Outcome<seq<Element>>, walls: seq<Element>, row: seq<string>)
    requires |row| >= 3 && byType(row[0]).Returned?
    ensures HostRow(byType, walls)(row) == Returned(
      if Truthy(OidOf(byType(row[0]).value, row[1])) && Resolves(walls, row[2])
      then [Edge(Sorted2(row[1], row[2]).0, Sorted2(row[1], row[2]).1, "HostedBy", None)]
      else [])
  {
  }

  // ---------------------------------------------------------------------
  // Node properties

  /** A property a node writer sets: the node property, and the IFC
    * property name and value type given to `extract_property_value`. */
  datatype Wanted = Wanted(key: string, propertyName: string, valueType: string)

  /** `extract_property_value` for one wanted property. */
  function Read(definedBy: seq<Definition>, w: Wanted): Outcome<Option<Value>>
  {
    IfcProperties.PropertyValue(definedBy, w.propertyName, w.valueType)
  }

  /** The node properties, read one after the other; the first read that
    * raises ends the line with its exception. */
  function ReadProperties(definedBy: seq<Definition>, wanted: seq<Wanted>): Outcome<seq<(string, Option<Value>)>>
    decreases |wanted|
  {
    if |wanted| == 0 then Returned([])
    else
      match Read(definedBy, wanted[0])
      case Raised(e) => Raised(e)
      case Returned(v) =>
        match ReadProperties(definedBy, wanted[1..])
        case Raised(e) => Raised(e)
        case Returned(rest) => Returned([(wanted[0].key, v)] + rest)
  }

  lemma ReadPropertiesCons(definedBy: seq<Definition>, w: Wanted, ws: seq<Wanted>)
    ensures ReadProperties(definedBy, [w] + ws) ==
      match Read(definedBy, w)
      case Raised(e) => Raised(e)
      case Returned(v) =>
        match ReadProperties(definedBy, ws)
        case Raised(e) => Raised(e)
        case Returned(rest) => Returned([(w.key, v)] + rest)
  {
    assert ([w] + ws)[1..] == ws;
  }

  /** Reading raises iff some read raises, and then with the exception of
    * the first read that does; otherwise each node property holds what
    * `extract_property_value` gives for it. */
  lemma {:induction false} ReadPropertiesMeaning(definedBy: seq<Definition>, wanted: seq<Wanted>)
    ensures ReadProperties(definedBy, wanted).Raised? <==>
      exists k :: 0 <= k < |wanted| && Read(definedBy, wanted[k]).Raised?
    ensures ReadProperties(definedBy, wanted).Raised? ==>
      exists k :: 0 <= k < |wanted| && Read(definedBy, wanted[k]) == Raised(ReadProperties(definedBy, wanted).exc) &&
        forall k' :: 0 <= k' < k ==> Read(definedBy, wanted[k']).Returned?
    ensures ReadProperties(definedBy, wanted).Returned? ==>
      |ReadProperties(definedBy, wanted).value| == |wanted| &&
      forall k :: 0 <= k < |wanted| ==>
        ReadProperties(definedBy, wanted).value[k] == (wanted[k].key, Read(definedBy, wanted[k]).value)
    decreases |wanted|
  {
    if |wanted| > 0 {
      var rest := wanted[1..];
      ReadPropertiesMeaning(definedBy, rest);
      assert forall k :: 0 < k < |wanted| ==> wanted[k] == rest[k - 1];
      if Read(definedBy, wanted[0]).Raised? {
        assert Read(definedBy, wanted[0]) == Raised(ReadProperties(definedBy, wanted).exc);
      } else if ReadProperties(definedBy, rest).Raised? {
        var k :| 0 <= k < |rest| && Read(definedBy, rest[k]) == Raised(ReadProperties(definedBy, rest).exc) &&
          forall k' :: 0 <= k' < k ==> Read(definedBy, rest[k']).Returned?;
        assert Read(definedBy, wanted[k + 1]) == Raised(ReadProperties(definedBy, wanted).exc);
        assert forall k' :: 0 <= k' < k + 1 ==> Read(definedBy, wanted[k']).Returned?;
      }
    }
  }

  /** `extract_property_value` on a property whose value is text, asked for
    * a number, raises TypeError: `round` of a text. */
  lemma TextNumberRaises(name: string, t: string)
    ensures Read([DefinesByProperties(PropertySet([SingleValue(name, Some(Text(t)))]))], Wanted(name, name, "number")) == Raised(TypeError)
  {
    var ps := [SingleValue(name, Some(Text(t)))];
    IfcProperties.FirstNamedPropertyDecides(ps, 0, name, "number", Text(t));
    assert IfcProperties.VisitedProperties([DefinesByProperties(PropertySet(ps))]) == ps;
  }

  // ---------------------------------------------------------------------
  // process_doors_and_windows

  /** `next((e for e in elements if e.GlobalId == g), None)`. */
  function FirstWithGuid(elements: seq<Element>, g: string): (r: Option<Element>)
    ensures r.None? <==> OidOf(elements, g).None?
    ensures r.Some? ==> r.value in elements && r.value.globalId == g && r.value.id == OidOf(elements, g).value
  {
    if |elements| == 0 then None
    else if elements[0].globalId == g then Some(elements[0])
    else FirstWithGuid(elements[1..], g)
  }

  /** What `process_doors_and_windows` reads of an element, in order: the
    * sill height only for a window. */
  function ElementWanted(elementLabel: string): seq<Wanted>
  {
    [Wanted("Height", "Height", "number")] + ([Wanted("Width", "Width", "number")] + ([Wanted("Area", "Area", "area")] +
      ((if elementLabel == "Window" then [Wanted("SillHeight", "Sill Height", "number")] else []) +
       [Wanted("IsExternal", "IsExternal", "bool")])))
  }

  /** The element's properties, read as the code reads them. */
  method ReadElementProperties(element: Element, elementLabel: string) returns (r: Outcome<seq<(string, Option<Value>)>>)
    ensures r == ReadProperties(element.isDefinedBy, ElementWanted(elementLabel))
  {
    var d := element.isDefinedBy;
    var sill: seq<Wanted> := if elementLabel == "Window" then [Wanted("SillHeight", "Sill Height", "number")] else [];
    var last := [Wanted("IsExternal", "IsExternal", "bool")];
    ReadPropertiesCons(d, Wanted("Height", "Height", "number"), [Wanted("Width", "Width", "number")] + ([Wanted("Area", "Area", "area")] + (sill + last)));
    ReadPropertiesCons(d, Wanted("Width", "Width", "number"), [Wanted("Area", "Area", "area")] + (sill + last));
    ReadPropertiesCons(d, Wanted("Area", "Area", "area"), sill + last);
    ReadPropertiesCons(d, Wanted("IsExternal", "IsExternal", "bool"), []);
    var height := IfcProperties.ExtractPropertyValue(d, "Height", "number");
    if height.Raised? {
      return Raised(height.exc);
    }
    var width := IfcProperties.ExtractPropertyValue(d, "Width", "number");
    if width.Raised? {
      return Raised(width.exc);
    }
    var area := IfcProperties.ExtractPropertyValue(d, "Area", "area");
    if area.Raised? {
      return Raised(area.exc);
    }
    var sillHeight: seq<(string, Option<Value>)> := [];
    if elementLabel == "Window" {
      ReadPropertiesCons(d, Wanted("SillHeight", "Sill Height", "number"), last);
      var v := IfcProperties.ExtractPropertyValue(d, "Sill Height", "number");
      if v.Raised? {
        return Raised(v.exc);
      }
      sillHeight := [("SillHeight", v.value)];
    }
    var isExternal := IfcProperties.ExtractPropertyValue(d, "IsExternal", "bool");
    if isExternal.Raised? {
      return Raised(isExternal.exc);
    }
    var tail := [("IsExternal", isExternal.value)];
    assert ReadProperties(d, last) == Returned(tail) by {
      assert last == [Wanted("IsExternal", "IsExternal", "bool")] + [];
      assert Read(d, Wanted("IsExternal", "IsExternal", "bool")) == isExternal;
      assert ReadProperties(d, []) == Returned([]);
      assert tail == tail + [];
    }
    assert ReadProperties(d, sill + last) == Returned(sillHeight + tail) by {
      if elementLabel != "Window" {
        assert sill + last == last && sillHeight + tail == tail;
      }
    }
    r := Returned([("Height", height.value)] + ([("Width", width.value)] + ([("Area", area.value)] + (sillHeight + tail))));
  }

  /** `add_element_node`: a Window or Door node with its properties; for
    * any other label nothing is written. */
  function ElementNode(elementLabel: string, globalId: string, element: Element, props: seq<(string, Option<Value>)>): seq<Write>
  {
    if elementLabel == "Window" || elementLabel == "Door" then [Node(elementLabel, globalId, element.id, element.name, props)] else []
  }

  /** One line of the door or window file: the element's properties are
    * read, then its node and one "ContainedIn" edge per listed room are
    * written; nothing when no element has the GlobalId, and the first
    * exception of a read ends the line before it writes. */
  function DoorWindowWrites(elements: seq<Element>, elementLabel: string, line: string): Outcome<seq<Write>>
  {
    var parts := LineFields(line);
    var rooms := if |parts| > 1 then Split(parts[1], ',') else [];
    match FirstWithGuid(elements, parts[0])
    case None => Returned([])
    case Some(element) =>
      match ReadProperties(element.isDefinedBy, ElementWanted(elementLabel))
      case Raised(e) => Raised(e)
      case Returned(props) => Returned(ElementNode(elementLabel, parts[0], element, props) + EdgesTo(parts[0], rooms, "ContainedIn"))
  }

  function DoorWindowLine(elements: seq<Element>, elementLabel: string): string -> Outcome<seq<Write>>
  {
    line => DoorWindowWrites(elements, elementLabel, line)
  }

  method ProcessDoorsAndWindows(lines: seq<string>, elements: seq<Element>, elementLabel: string)
    returns (writes: seq<Write>, raised: Option<PyException>)
    ensures Run(writes, raised) == RunRows(lines, DoorWindowLine(elements, elementLabel))
  {
    writes := [];
    raised := None;
    for i := 0 to |lines|
      invariant Run(writes, None) == RunRows(lines[..i], DoorWindowLine(elements, elementLabel))
    {
      RunRowsStep(lines, DoorWindowLine(elements, elementLabel), i);
      var parts := Split(Strip(lines[i]), ';');
      var elementGlobalId := parts[0];
      var connectedRooms := if |parts| > 1 then Split(parts[1], ',') else [];
      var element := FirstWithGuid(elements, elementGlobalId);
      if element.Some? {
        var props := ReadElementProperties(element.value, elementLabel);
        if props.Raised? {
          raised := Some(props.exc);
          RunRowsRaisedStays(lines, DoorWindowLine(elements, elementLabel), i + 1);
          return;
        }
        var node := ElementNode(elementLabel, elementGlobalId, element.value, props.value);
        var roomEdges := ConnectRooms(elementGlobalId, connectedRooms);
        writes := writes + (node + roomEdges);
      }
    }
    assert lines[..|lines|] == lines;
  }

  /** The loop over the rooms listed for a door or window. */
  method ConnectRooms(elementGlobalId: string, rooms: seq<string>) returns (writes: seq<Write>)
    ensures writes == EdgesTo(elementGlobalId, rooms, "ContainedIn")
  {
    writes := [];
    for j := 0 to |rooms|
      invariant writes == EdgesTo(elementGlobalId, rooms[..j], "ContainedIn")
    {
      assert rooms[..j + 1] == rooms[..j] + [rooms[j]];
      EdgesToSnoc(elementGlobalId, rooms[..j], rooms[j], "ContainedIn");
      writes := writes + [AddEdge(elementGlobalId, rooms[j], "ContainedIn")];
    }
    assert rooms[..|rooms|] == rooms;
  }

  /** The node properties of a window and of a door, in the order the code
    * reads them: only a window's node has a sill height. */
  lemma ElementKeys(definedBy: seq<Definition>, elementLabel: string)
    requires ReadProperties(definedBy, ElementWanted(elementLabel)).Returned?
    ensures PyDict.Keys(ReadProperties(definedBy, ElementWanted(elementLabel)).value) ==
      if elementLabel == "Window" then ["Height", "Width", "Area", "SillHeight", "IsExternal"]
      else ["Height", "Width", "Area", "IsExternal"]
  {
    var wanted := ElementWanted(elementLabel);
    ReadPropertiesMeaning(definedBy, wanted);
  }

  /** A line whose element is unknown writes nothing; one whose element has
    * a property that cannot be read raises; a window or door line without
    * a second field writes the node with the properties read and no edge. */
  lemma DoorWindowLineWrites(elements: seq<Element>, elementLabel: string, line: string)
    ensures OidOf(elements, LineFields(line)[0]).None? ==> DoorWindowWrites(elements, elementLabel, line) == Returned([])
    ensures FirstWithGuid(elements, LineFields(line)[0]).Some? ==>
      var e := FirstWithGuid(elements, LineFields(line)[0]).value;
      (DoorWindowWrites(elements, elementLabel, line).Raised? <==>
         exists k :: 0 <= k < |ElementWanted(elementLabel)| && Read(e.isDefinedBy, ElementWanted(elementLabel)[k]).Raised?)
    ensures (FirstWithGuid(elements, LineFields(line)[0]).Some? && |LineFields(line)| == 1 &&
             (elementLabel == "Window" || elementLabel == "Door")) ==>
      var e := FirstWithGuid(elements, LineFields(line)[0]).value;
      var props := ReadProperties(e.isDefinedBy, ElementWanted(elementLabel));
      (props.Returned? ==>
         DoorWindowWrites(elements, elementLabel, line) == Returned([Node(elementLabel, LineFields(line)[0], e.id, e.name, props.value)]))
  {
    var parts := LineFields(line);
    var found := FirstWithGuid(elements, parts[0]);
    if found.Some? {
      var props := ReadProperties(found.value.isDefinedBy, ElementWanted(elementLabel));
      ReadPropertiesMeaning(found.value.isDefinedBy, ElementWanted(elementLabel));
      if |parts| == 1 && props.Returned? {
        var node := ElementNode(elementLabel, parts[0], found.value, props.value);
        assert DoorWindowWrites(elements, elementLabel, line) == Returned(node + EdgesTo(parts[0], [], "ContainedIn"));
        assert node + EdgesTo(parts[0], [], "ContainedIn") == node;
      }
    }
  }

  /** A window whose Height is a text ends the loop with TypeError at its
    * line: the nodes and edges of the lines before stay written, the
    * later lines are never read. */
  lemma TextHeightEndsDoorWindowLoop(lines: seq<string>, elements: seq<Element>, k: nat, t: string)
    requires k < |lines| && RunRows(lines[..k], DoorWindowLine(elements, "Window")).raised.None?
    requires FirstWithGuid(elements, LineFields(lines[k])[0]).Some?
    requires FirstWithGuid(elements, LineFields(lines[k])[0]).value.isDefinedBy ==
      [DefinesByProperties(PropertySet([SingleValue("Height", Some(Text(t)))]))]
    ensures RunRows(lines, DoorWindowLine(elements, "Window")) ==
      Run(RunRows(lines[..k], DoorWindowLine(elements, "Window")).writes, Some(TypeError))
  {
    var f := DoorWindowLine(elements, "Window");
    var e := FirstWithGuid(elements, LineFields(lines[k])[0]).value;
    TextNumberRaises("Height", t);
    ReadPropertiesCons(e.isDefinedBy, Wanted("Height", "Height", "number"), ElementWanted("Window")[1..]);
    assert ElementWanted("Window") == [Wanted("Height", "Height", "number")] + ElementWanted("Window")[1..];
    assert f(lines[k]) == Raised(TypeError);
    RunRowsStep(lines, f, k);
    RunRowsRaisedStays(lines, f, k + 1);
  }

  // ---------------------------------------------------------------------
  // process_walls

  /** The wall's first containing structure has the configured Name. */
  predicate FirstStructureNamed(wall: Element, storeyName: string)
  {
    |wall.containedIn| > 0 && wall.containedIn[0].name == Some(storeyName)
  }

  /** What `process_walls` reads of a wall, in order. */
  function WallWanted(): seq<Wanted>
  {
    [Wanted("LoadBearing", "LoadBearing", "bool")] + ([Wanted("IsExternal", "IsExternal", "bool")] +
      ([Wanted("Width", "Width", "number")] + ([Wanted("Height", "Height", "number")] + [Wanted("Length", "Length", "number")])))
  }

  /** The wall's properties, read as the code reads them. */
  method ReadWallProperties(wall: Element) returns (r: Outcome<seq<(string, Option<Value>)>>)
    ensures r == ReadProperties(wall.isDefinedBy, WallWanted())
  {
    var d := wall.isDefinedBy;
    var last := [Wanted("Length", "Length", "number")];
    ReadPropertiesCons(d, Wanted("LoadBearing", "LoadBearing", "bool"),
      [Wanted("IsExternal", "IsExternal", "bool")] + ([Wanted("Width", "Width", "number")] + ([Wanted("Height", "Height", "number")] + last)));
    ReadPropertiesCons(d, Wanted("IsExternal", "IsExternal", "bool"),
      [Wanted("Width", "Width", "number")] + ([Wanted("Height", "Height", "number")] + last));
    ReadPropertiesCons(d, Wanted("Width", "Width", "number"), [Wanted("Height", "Height", "number")] + last);
    ReadPropertiesCons(d, Wanted("Height", "Height", "number"), last);
    ReadPropertiesCons(d, Wanted("Length", "Length", "number"), []);
    var loadBearing := IfcProperties.ExtractPropertyValue(d, "LoadBearing", "bool");
    if loadBearing.Raised? {
      return Raised(loadBearing.exc);
    }
    var isExternal := IfcProperties.ExtractPropertyValue(d, "IsExternal", "bool");
    if isExternal.Raised? {
      return Raised(isExternal.exc);
    }
    var width := IfcProperties.ExtractPropertyValue(d, "Width", "number");
    if width.Raised? {
      return Raised(width.exc);
    }
    var height := IfcProperties.ExtractPropertyValue(d, "Height", "number");
    if height.Raised? {
      return Raised(height.exc);
    }
    var length := IfcProperties.ExtractPropertyValue(d, "Length", "number");
    if length.Raised? {
      return Raised(length.exc);
    }
    var tail := [("Length", length.value)];
    assert ReadProperties(d, last) == Returned(tail) by {
      assert last == [Wanted("Length", "Length", "number")] + [];
      assert Read(d, Wanted("Length", "Length", "number")) == length;
      assert ReadProperties(d, []) == Returned([]);
      assert tail == tail + [];
    }
    r := Returned([("LoadBearing", loadBearing.value)] + ([("IsExternal", isExternal.value)] + ([("Width", width.value)] +
      ([("Height", height.value)] + tail))));
  }

  /** One wall of the loop: on the storey, its properties are read and its
    * node written, or the first read that raises ends the loop. */
  function WallNode(storeyName: string): Element -> Outcome<seq<Write>>
  {
    wall =>
      if FirstStructureNamed(wall, storeyName) then
        match ReadProperties(wall.isDefinedBy, WallWanted())
        case Raised(e) => Raised(e)
        case Returned(props) => Returned([Node("Wall", wall.globalId, wall.id, wall.name, props)])
      else Returned([])
  }

  method ProcessWalls(walls: seq<Element>, storeyName: string) returns (writes: seq<Write>, raised: Option<PyException>)
    ensures Run(writes, raised) == RunRows(walls, WallNode(storeyName))
  {
    writes := [];
    raised := None;
    for i := 0 to |walls|
      invariant Run(writes, None) == RunRows(walls[..i], WallNode(storeyName))
    {
      RunRowsStep(walls, WallNode(storeyName), i);
      var wall := walls[i];
      var storey := if |wall.containedIn| > 0 then Some(wall.containedIn[0]) else None;
      if storey.Some? && storey.value.name == Some(storeyName) {
        var props := ReadWallProperties(wall);
        if props.Raised? {
          raised := Some(props.exc);
          RunRowsRaisedStays(walls, WallNode(storeyName), i + 1);
          return;
        }
        writes := writes + [Node("Wall", wall.globalId, wall.id, wall.name, props.value)];
      }
    }
    assert walls[..|walls|] == walls;
  }

  /** The loop raises iff a wall on the storey has a property that cannot
    * be read; otherwise it writes one node per wall whose first containing
    * structure has the name (a later relation naming the storey does not
    * count), with the wall's properties. */
  lemma WallNodesMembers(walls: seq<Element>, storeyName: string, w: Write)
    ensures RunRows(walls, WallNode(storeyName)).raised.Some? <==>
      exists k :: 0 <= k < |walls| && FirstStructureNamed(walls[k], storeyName) &&
        ReadProperties(walls[k].isDefinedBy, WallWanted()).Raised?
    ensures RunRows(walls, WallNode(storeyName)).raised.None? ==>
      (w in RunRows(walls, WallNode(storeyName)).writes <==>
       exists k :: 0 <= k < |walls| && FirstStructureNamed(walls[k], storeyName) &&
         w == Node("Wall", walls[k].globalId, walls[k].id, walls[k].name, ReadProperties(walls[k].isDefinedBy, WallWanted()).value))
  {
    RunRowsOutcome(walls, WallNode(storeyName));
  }
}
