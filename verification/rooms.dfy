/**
 * Room adjacency from the space cells: every ordered pair i != j is compared,
 * `touching_cells` gets an entry only for a room with at least one
 * neighbour, and the CSV rows skip an entry that lists its own key.
 */
module RoomAdjacency {
  import opened Common
  import opened PyDict
  import Text

  /** What `Topology.Dictionary(cell)` gives: no dictionary, or one whose
    * "Name" value may be missing. */
  datatype CellDictionary = NoDictionary | CellNames(name: Option<string>)

  /** `get_cell_OID`: the "Name" value when it is truthy, otherwise the
    * cell's printed form `str(cell)`. */
  function CellOid(dictionary: CellDictionary, printed: string): (oid: string)
    ensures dictionary.CellNames? && dictionary.name.Some? && dictionary.name.value != "" ==> oid == dictionary.name.value
    ensures !(dictionary.CellNames? && dictionary.name.Some? && dictionary.name.value != "") ==> oid == printed
  {
    match dictionary
    case NoDictionary => printed
    case CellNames(name) => if name.Some? && name.value != "" then name.value else printed
  }

  /** One test of room i against room j, as the list of names it adds. */
  function PairHit(o: Outcome<bool>, name: string): Outcome<seq<string>>
  {
    match o
    case Raised(e) => Raised(e)
    case Returned(b) => Returned(if b then [name] else [])
  }

  /** `touching` for room i after the inner loop reached m: the names of the
    * rooms j < m, j != i, whose test with i returned True, in order. */
  function TouchingOf<C>(cells: seq<C>, names: seq<string>, share: (C, C) -> Outcome<bool>, i: nat, m: nat): Outcome<seq<string>>
    requires |names| == |cells| && i < |cells| && m <= |cells|
    decreases m
  {
    if m == 0 then Returned([])
    else if m - 1 == i then TouchingOf(cells, names, share, i, m - 1)
    else Then(TouchingOf(cells, names, share, i, m - 1), PairHit(share(cells[i], cells[m - 1]), names[m - 1]))
  }

  /** The outer loop's dict after n rooms, whatever each room's inner loop
    * gives: a room's list is put under its name when it is not empty, and
    * an exception from a room ends the loop. */
  function TableFold(names: seq<string>, row: nat -> Outcome<seq<string>>, n: nat): Outcome<Dict<string, seq<string>>>
    requires n <= |names|
  {
    if n == 0 then Returned([])
    else
      match TableFold(names, row, n - 1)
      case Raised(e) => Raised(e)
      case Returned(d) =>
        match row(n - 1)
        case Raised(e) => Raised(e)
        case Returned(r) => Returned(if r != [] then Put(d, names[n - 1], r) else d)
  }

  /** Room i's inner loop run to the end. */
  function RowOf<C>(cells: seq<C>, names: seq<string>, share: (C, C) -> Outcome<bool>): nat -> Outcome<seq<string>>
    requires |names| == |cells|
  {
    (i: nat) => if i < |cells| then TouchingOf(cells, names, share, i, |cells|) else Returned([])
  }

  /** `touching_cells` after the outer loop reached n. */
  function TouchingTable<C>(cells: seq<C>, names: seq<string>, share: (C, C) -> Outcome<bool>, n: nat): Outcome<Dict<string, seq<string>>>
    requires |names| == |cells| && n <= |cells|
  {
    TableFold(names, RowOf(cells, names, share), n)
  }

  lemma {:induction false} TouchingOfRaisedStays<C>(cells: seq<C>, names: seq<string>, share: (C, C) -> Outcome<bool>, i: nat, m: nat, e: PyException)
    requires |names| == |cells| && i < |cells| && m <= |cells|
    requires TouchingOf(cells, names, share, i, m) == Raised(e)
    ensures TouchingOf(cells, names, share, i, |cells|) == Raised(e)
    decreases |cells| - m
  {
    if m < |cells| {
      TouchingOfRaisedStays(cells, names, share, i, m + 1, e);
    }
  }

  lemma {:induction false} TableFoldRaisedStays(names: seq<string>, row: nat -> Outcome<seq<string>>, n: nat, e: PyException)
    requires n <= |names|
    requires TableFold(names, row, n) == Raised(e)
    ensures TableFold(names, row, |names|) == Raised(e)
    decreases |names| - n
  {
    if n < |names| {
      TableFoldRaisedStays(names, row, n + 1, e);
    }
  }

  /** The nested scan over all ordered pairs i != j. */
  method ScanRoomPairs<C>(cells: seq<C>, names: seq<string>, share: (C, C) -> Outcome<bool>)
    returns (touchingCells: Outcome<Dict<string, seq<string>>>)
    requires |names| == |cells|
    ensures touchingCells == TouchingTable(cells, names, share, |cells|)
  {
    var d: Dict<string, seq<string>> := [];
    ghost var row := RowOf(cells, names, share);
    for i := 0 to |cells|
      invariant TableFold(names, row, i) == Returned(d)
    {
      var touching := ScanRoom(cells, names, share, i);
      assert row(i) == touching;
      TableFoldNext(names, row, i, d);
      if touching.Raised? {
        TableFoldRaisedStays(names, row, i + 1, touching.exc);
        return Raised(touching.exc);
      }
      if touching.value != [] {
        d := Put(d, names[i], touching.value);
      }
    }
    return Returned(d);
  }

  lemma TableFoldNext(names: seq<string>, row: nat -> Outcome<seq<string>>, n: nat, d: Dict<string, seq<string>>)
    requires n < |names| && TableFold(names, row, n) == Returned(d)
    ensures TableFold(names, row, n + 1) ==
      match row(n)
      case Raised(e) => Raised(e)
      case Returned(r) => Returned(if r != [] then Put(d, names[n], r) else d)
  {
  }

  /** The inner loop for room i. */
  method ScanRoom<C>(cells: seq<C>, names: seq<string>, share: (C, C) -> Outcome<bool>, i: nat)
    returns (touching: Outcome<seq<string>>)
    requires |names| == |cells| && i < |cells|
    ensures touching == TouchingOf(cells, names, share, i, |cells|)
  {
    var found: seq<string> := [];
    for j := 0 to |cells|
      invariant TouchingOf(cells, names, share, i, j) == Returned(found)
    {
      if i != j {
        var s := share(cells[i], cells[j]);
        if s.Raised? {
          TouchingOfRaisedStays(cells, names, share, i, j + 1, s.exc);
          return Raised(s.exc);
        }
        if s.value {
          found := found + [names[j]];
        } else {
          assert found + [] == found;
        }
      }
    }
    return Returned(found);
  }

  /** One step of the inner loop: name j is appended iff j != i and the
    * test of i with j returned True. */
  lemma TouchingOfStep<C>(cells: seq<C>, names: seq<string>, share: (C, C) -> Outcome<bool>, i: nat, j: nat)
    requires |names| == |cells| && i < |cells| && j < |cells|
    requires TouchingOf(cells, names, share, i, j + 1).Returned?
    ensures TouchingOf(cells, names, share, i, j).Returned?
    ensures TouchingOf(cells, names, share, i, j + 1).value ==
      if j != i && share(cells[i], cells[j]) == Returned(true)
      then TouchingOf(cells, names, share, i, j).value + [names[j]]
      else TouchingOf(cells, names, share, i, j).value
  {
    if j != i {
      assert TouchingOf(cells, names, share, i, j).value + [] == TouchingOf(cells, names, share, i, j).value;
    }
  }

  /** Room i's list keeps the cell order of the names. */
  lemma {:induction false} TouchingOfOrdered<C>(cells: seq<C>, names: seq<string>, share: (C, C) -> Outcome<bool>, i: nat, m: nat)
    requires |names| == |cells| && i < |cells| && m <= |cells|
    requires TouchingOf(cells, names, share, i, m).Returned?
    ensures IsSubsequence(TouchingOf(cells, names, share, i, m).value, names[..m])
    decreases m
  {
    if m > 0 {
      var j := m - 1;
      TouchingOfStep(cells, names, share, i, j);
      TouchingOfOrdered(cells, names, share, i, j);
      assert names[..m] == names[..j] + [names[j]];
      SubsequenceSnoc(TouchingOf(cells, names, share, i, j).value, names[..j], names[j],
        j != i && share(cells[i], cells[j]) == Returned(true));
    }
  }

  /** Room i's list holds exactly the names of the other rooms whose test
    * returned True. */
  lemma {:induction false} TouchingOfMembers<C>(cells: seq<C>, names: seq<string>, share: (C, C) -> Outcome<bool>, i: nat, m: nat)
    requires |names| == |cells| && i < |cells| && m <= |cells|
    requires TouchingOf(cells, names, share, i, m).Returned?
    ensures forall x :: x in TouchingOf(cells, names, share, i, m).value <==>
      exists j :: 0 <= j < m && j != i && names[j] == x && share(cells[i], cells[j]) == Returned(true)
    decreases m
  {
    if m > 0 {
      var j := m - 1;
      TouchingOfStep(cells, names, share, i, j);
      TouchingOfMembers(cells, names, share, i, j);
      var before := TouchingOf(cells, names, share, i, j).value;
      var keep := j != i && share(cells[i], cells[j]) == Returned(true);
      var after := TouchingOf(cells, names, share, i, m).value;
      forall x ensures x in after <==>
        exists j' :: 0 <= j' < m && j' != i && names[j'] == x && share(cells[i], cells[j']) == Returned(true)
      {
        assert x in after <==> x in before || (keep && x == names[j]);
        if x in after && x !in before {
          assert j != i && names[j] == x && share(cells[i], cells[j]) == Returned(true);
        }
      }
    }
  }

  /** With no test raising, the scan of room i returns. */
  lemma {:induction false} TouchingOfReturns<C>(cells: seq<C>, names: seq<string>, share: (C, C) -> Outcome<bool>, i: nat, m: nat)
    requires |names| == |cells| && i < |cells| && m <= |cells|
    requires forall j :: 0 <= j < m && j != i ==> share(cells[i], cells[j]).Returned?
    ensures TouchingOf(cells, names, share, i, m).Returned?
    decreases m
  {
    if m > 0 {
      TouchingOfReturns(cells, names, share, i, m - 1);
    }
  }

  /** Every room's scan returned when the whole table did. */
  lemma {:induction false} TableFoldRows(names: seq<string>, row: nat -> Outcome<seq<string>>, n: nat)
    requires n <= |names|
    requires TableFold(names, row, n).Returned?
    ensures forall i :: 0 <= i < n ==> row(i).Returned?
  {
    if n > 0 {
      TableFoldRows(names, row, n - 1);
    }
  }

  /** One step of the outer loop. */
  lemma TableFoldStep(names: seq<string>, row: nat -> Outcome<seq<string>>, n: nat)
    requires n < |names|
    requires TableFold(names, row, n + 1).Returned?
    ensures TableFold(names, row, n).Returned? && row(n).Returned?
    ensures TableFold(names, row, n + 1).value ==
      var d := TableFold(names, row, n).value;
      if row(n).value != [] then Put(d, names[n], row(n).value) else d
  {
  }

  /** Some room before n named g has a non-empty list. */
  ghost predicate NamedNonEmpty(names: seq<string>, row: nat -> Outcome<seq<string>>, n: nat, g: string)
    requires n <= |names|
  {
    exists i :: 0 <= i < n && names[i] == g && row(i) != Returned([])
  }

  lemma NamedNonEmptyStep(names: seq<string>, row: nat -> Outcome<seq<string>>, n: nat, g: string)
    requires n < |names|
    ensures NamedNonEmpty(names, row, n + 1, g) <==>
      NamedNonEmpty(names, row, n, g) || (g == names[n] && row(n) != Returned([]))
  {
    if NamedNonEmpty(names, row, n + 1, g) && !(g == names[n] && row(n) != Returned([])) {
      var i :| 0 <= i < n + 1 && names[i] == g && row(i) != Returned([]);
      assert i < n;
    }
  }

  /** The table stays a valid dict. */
  lemma {:induction false} TableFoldValid(names: seq<string>, row: nat -> Outcome<seq<string>>, n: nat)
    requires n <= |names|
    requires TableFold(names, row, n).Returned?
    ensures PyDict.Valid(TableFold(names, row, n).value)
  {
    if n > 0 {
      TableFoldStep(names, row, n - 1);
      TableFoldValid(names, row, n - 1);
      var d := TableFold(names, row, n - 1).value;
      var r := row(n - 1).value;
      if r != [] {
        PutKeepsValid(d, names[n - 1], r);
      }
    }
  }

  /** A room's name is a key iff some room of that name has a non-empty list. */
  lemma {:induction false} TableFoldKeys(names: seq<string>, row: nat -> Outcome<seq<string>>, n: nat, g: string)
    requires n <= |names|
    requires TableFold(names, row, n).Returned?
    ensures HasKey(TableFold(names, row, n).value, g) <==> NamedNonEmpty(names, row, n, g)
  {
    if n > 0 {
      TableFoldStep(names, row, n - 1);
      TableFoldKeys(names, row, n - 1, g);
      NamedNonEmptyStep(names, row, n - 1, g);
      var d := TableFold(names, row, n - 1).value;
      var r := row(n - 1).value;
      if r != [] {
        PutHasKey(d, names[n - 1], r, g);
      }
    }
  }

  /** With distinct names the entry of room i is its own list. */
  lemma {:induction false} TableFoldEntry(names: seq<string>, row: nat -> Outcome<seq<string>>, n: nat, i: nat)
    requires i < n <= |names| && Distinct(names)
    requires TableFold(names, row, n).Returned?
    ensures row(i).Returned?
    ensures Get(TableFold(names, row, n).value, names[i]) == if row(i) == Returned([]) then None else Some(row(i).value)
  {
    TableFoldStep(names, row, n - 1);
    var d := TableFold(names, row, n - 1).value;
    var r := row(n - 1).value;
    if i < n - 1 {
      TableFoldEntry(names, row, n - 1, i);
      assert names[i] != names[n - 1];
      if r != [] {
        PutGet(d, names[n - 1], r, names[i]);
      }
    } else {
      TableFoldKeys(names, row, n - 1, names[i]);
      assert forall j :: 0 <= j < n - 1 ==> names[j] != names[i];
      assert !HasKey(d, names[i]);
      if r != [] {
        PutGet(d, names[n - 1], r, names[i]);
      }
    }
  }

  /** A room gets an entry iff it, or a room of the same name, has a
    * non-empty list. */
  lemma TouchingTableKeys<C>(cells: seq<C>, names: seq<string>, share: (C, C) -> Outcome<bool>, g: string)
    requires |names| == |cells|
    requires TouchingTable(cells, names, share, |cells|).Returned?
    ensures HasKey(TouchingTable(cells, names, share, |cells|).value, g) <==>
      exists i :: 0 <= i < |cells| && names[i] == g && TouchingOf(cells, names, share, i, |cells|) != Returned([])
  {
    var row := RowOf(cells, names, share);
    TableFoldKeys(names, row, |cells|, g);
    assert forall i :: 0 <= i < |cells| ==> row(i) == TouchingOf(cells, names, share, i, |cells|);
  }

  /** The table is a valid dict, and with distinct names room i's entry is
    * its own list, absent when the list is empty. */
  lemma TouchingTableEntry<C>(cells: seq<C>, names: seq<string>, share: (C, C) -> Outcome<bool>, i: nat)
    requires |names| == |cells| && i < |cells| && Distinct(names)
    requires TouchingTable(cells, names, share, |cells|).Returned?
    ensures PyDict.Valid(TouchingTable(cells, names, share, |cells|).value)
    ensures TouchingOf(cells, names, share, i, |cells|).Returned?
    ensures Get(TouchingTable(cells, names, share, |cells|).value, names[i]) ==
      if TouchingOf(cells, names, share, i, |cells|) == Returned([]) then None
      else Some(TouchingOf(cells, names, share, i, |cells|).value)
  {
    var row := RowOf(cells, names, share);
    TableFoldValid(names, row, |cells|);
    TableFoldEntry(names, row, |cells|, i);
    assert row(i) == TouchingOf(cells, names, share, i, |cells|);
  }

  /** With distinct names no room lists itself, so the self-containment
    * filter of the CSV rows drops nothing. */
  lemma NoSelfListing<C>(cells: seq<C>, names: seq<string>, share: (C, C) -> Outcome<bool>, i: nat)
    requires |names| == |cells| && i < |cells| && Distinct(names)
    requires TouchingOf(cells, names, share, i, |cells|).Returned?
    ensures names[i] !in TouchingOf(cells, names, share, i, |cells|).value
  {
    TouchingOfMembers(cells, names, share, i, |cells|);
  }

  /** With distinct names and a symmetric test, j is listed for i iff i is
    * listed for j. */
  lemma TouchingSymmetric<C>(cells: seq<C>, names: seq<string>, share: (C, C) -> Outcome<bool>, i: nat, j: nat)
    requires |names| == |cells| && i < |cells| && j < |cells| && Distinct(names)
    requires forall a, b :: 0 <= a < |cells| && 0 <= b < |cells| ==> share(cells[a], cells[b]) == share(cells[b], cells[a])
    requires TouchingOf(cells, names, share, i, |cells|).Returned? && TouchingOf(cells, names, share, j, |cells|).Returned?
    ensures names[j] in TouchingOf(cells, names, share, i, |cells|).value <==>
      names[i] in TouchingOf(cells, names, share, j, |cells|).value
  {
    TouchingOfMembers(cells, names, share, i, |cells|);
    TouchingOfMembers(cells, names, share, j, |cells|);
  }

  // ---------------------------------------------------------------------
  // csv_data

  function NotListingItself(): ((string, seq<string>)) -> bool
  {
    (e: (string, seq<string>)) => e.0 !in e.1
  }

  function RowsOf(entries: seq<(string, seq<string>)>, joined: bool): (rows: seq<seq<string>>)
    ensures |rows| == |entries|
  {
    if |entries| == 0 then []
    else
      var e := entries[|entries| - 1];
      RowsOf(entries[..|entries| - 1], joined) + [if joined then Text.JoinedRow(e.0, e.1) else Text.SpreadRow(e.0, e.1)]
  }

  lemma RowsOfSnoc(entries: seq<(string, seq<string>)>, e: (string, seq<string>), joined: bool)
    ensures RowsOf(entries + [e], joined) == RowsOf(entries, joined) + [if joined then Text.JoinedRow(e.0, e.1) else Text.SpreadRow(e.0, e.1)]
  {
    assert (entries + [e])[..|entries|] == entries;
  }

  /** The loop that fills `csv_data`: an entry whose own key is among its
    * neighbours gives no row. */
  method CsvData(touchingCells: Dict<string, seq<string>>, joined: bool) returns (rows: seq<seq<string>>)
    ensures rows == RowsOf(Keep(touchingCells, NotListingItself()), joined)
  {
    rows := [];
    for k := 0 to |touchingCells|
      invariant rows == RowsOf(Keep(touchingCells[..k], NotListingItself()), joined)
    {
      KeepStep(touchingCells, NotListingItself(), k);
      ghost var kept := Keep(touchingCells[..k], NotListingItself());
      var (cellName, touchCellNames) := touchingCells[k];
      if cellName !in touchCellNames {
        RowsOfSnoc(kept, touchingCells[k], joined);
        rows := rows + [if joined then Text.JoinedRow(cellName, touchCellNames) else Text.SpreadRow(cellName, touchCellNames)];
      } else {
        assert kept + [] == kept;
      }
    }
    assert touchingCells[..|touchingCells|] == touchingCells;
  }

  /** When rooms carry distinct names the CSV has one row per entry of
    * `touching_cells`. */
  lemma {:induction false} DistinctNamesKeepAllRows<C>(cells: seq<C>, names: seq<string>, share: (C, C) -> Outcome<bool>)
    requires |names| == |cells| && Distinct(names)
    requires TouchingTable(cells, names, share, |cells|).Returned?
    ensures Keep(TouchingTable(cells, names, share, |cells|).value, NotListingItself()) ==
      TouchingTable(cells, names, share, |cells|).value
  {
    var d := TouchingTable(cells, names, share, |cells|).value;
    TableFoldValid(names, RowOf(cells, names, share), |cells|);
    forall k | 0 <= k < |d| ensures NotListingItself()(d[k]) {
      TouchingTableKeys(cells, names, share, d[k].0);
      assert HasKey(d, d[k].0);
      var i :| 0 <= i < |cells| && names[i] == d[k].0 && TouchingOf(cells, names, share, i, |cells|) != Returned([]);
      TouchingTableEntry(cells, names, share, i);
      GetAt(d, k);
      NoSelfListing(cells, names, share, i);
    }
    KeepAll(d, NotListingItself());
  }

  /** Two cells that share a name and touch each other make an entry that
    * lists its own key, and no row is written for it. */
  lemma SharedNameDropsRow<C>(c1: C, c2: C, share: (C, C) -> Outcome<bool>)
    requires share(c1, c2) == Returned(true) && share(c2, c1) == Returned(true)
    ensures TouchingTable([c1, c2], ["A", "A"], share, 2) == Returned([("A", ["A"])])
    ensures Keep([("A", ["A"])], NotListingItself()) == []
  {
    var cells, names := [c1, c2], ["A", "A"];
    assert TouchingOf(cells, names, share, 0, 1) == Returned([]);
    assert TouchingOf(cells, names, share, 0, 2) == Returned([] + ["A"]);
    assert TouchingOf(cells, names, share, 1, 1) == Returned([] + ["A"]);
    assert TouchingOf(cells, names, share, 1, 2) == TouchingOf(cells, names, share, 1, 1);
    assert ([] + ["A"]) == ["A"];
    assert TouchingTable(cells, names, share, 1) == Returned([("A", ["A"])]);
    var one: seq<(string, seq<string>)> := [("A", ["A"])];
    assert Put(one, "A", ["A"]) == [("A", ["A"])] + one[1..];
    assert one[1..] == [];
    assert TouchingTable(cells, names, share, 2) == Returned(Put(one, "A", ["A"]));
    assert [("A", ["A"])] + one[1..] == one;
    assert one[..0] == [];
  }
}
