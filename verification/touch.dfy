/**
 * The touch tests wrapped around the topology kernel.
 *
 * The kernel itself (merging two cells, listing the cells of the result,
 * finding shared faces) is not modelled: for each pair of cells it reports a
 * `MergeOutcome`. What is modelled is the control flow the scripts put
 * around it: which exceptions each variant catches, whether a merge with
 * fewer than two cells is skipped or indexes out of range, and where the
 * scan stops.
 */
module TouchTest {
  import opened Common

  /** The kernel's answer for one merge: the number of cells of the merged
    * topology and whether its first two cells share a face, or the exception
    * raised by `Topology.Merge` / `Topology.SharedFaces`. */
  datatype MergeOutcome = Merged(cellCount: nat, sharesFace: bool) | KernelRaised(exc: PyException)

  /** The merge produced two cells that share a face: the only "touch". */
  predicate Touches(m: MergeOutcome)
  {
    m.Merged? && m.cellCount >= 2 && m.sharesFace
  }

  /** Body of the try block that first checks `len(merged_cells) < 2`. */
  function CheckedSharedFaces(m: MergeOutcome): (o: Outcome<bool>)
    ensures o.Raised? <==> m.KernelRaised?
    ensures o.Returned? ==> (o.value <==> Touches(m))
  {
    match m
    case KernelRaised(e) => Raised(e)
    case Merged(n, s) => if n < 2 then Returned(false) else Returned(s)
  }

  /** Body that reads `Topology.Cells(merged)[0]` and `[1]` unguarded. */
  function UncheckedSharedFaces(m: MergeOutcome): (o: Outcome<bool>)
    ensures m.Merged? && m.cellCount < 2 ==> o == Raised(IndexError)
    ensures m.KernelRaised? ==> o == Raised(m.exc)
    ensures o.Returned? ==> (o.value <==> Touches(m))
  {
    match m
    case KernelRaised(e) => Raised(e)
    case Merged(n, s) =>
      if n < 2 then Raised(IndexError) else Returned(s)
  }

  /** What one pair contributes to a scan: go on, stop with True, or propagate. */
  datatype Step = Continue | Hit | Throw(exc: PyException)

  /** `except RuntimeError: continue` */
  function CatchRuntimeError(o: Outcome<bool>): (s: Step)
    ensures s == Hit <==> o == Returned(true)
    ensures s.Throw? <==> o.Raised? && o.exc != RuntimeError
    ensures s.Throw? ==> s.exc == o.exc
  {
    match o
    case Returned(b) => if b then Hit else Continue
    case Raised(e) => if e == RuntimeError then Continue else Throw(e)
  }

  /** No handler around the body. */
  function CatchNothing(o: Outcome<bool>): (s: Step)
    ensures s == Hit <==> o == Returned(true)
    ensures s.Throw? <==> o.Raised?
    ensures s.Throw? ==> s.exc == o.exc
  {
    match o
    case Returned(b) => if b then Hit else Continue
    case Raised(e) => Throw(e)
  }

  /** `except Exception:` the error is reported and the pair skipped. */
  function CatchAll(o: Outcome<bool>): (s: Step)
    ensures s == Hit <==> o == Returned(true)
    ensures !s.Throw?
  {
    if o == Returned(true) then Hit else Continue
  }

  /** Pair step of `find_touching_walls` in the scripts that check the cell
    * count and catch RuntimeError. */
  function CaughtStep<C>(merge: (C, C) -> MergeOutcome): (C, C) -> Step
  {
    (a, b) => CatchRuntimeError(CheckedSharedFaces(merge(a, b)))
  }

  /** Pair step of the `find_touching_walls` with no handler at all. */
  function UncaughtStep<C>(merge: (C, C) -> MergeOutcome): (C, C) -> Step
  {
    (a, b) => CatchNothing(UncheckedSharedFaces(merge(a, b)))
  }

  /** Pair step that skips cells that are not topologies and catches only
    * RuntimeError around unguarded cell indexing. */
  function TypedStep<C>(merge: (C, C) -> MergeOutcome, isTopology: C -> bool): (C, C) -> Step
  {
    (a, b) =>
      if !isTopology(a) || !isTopology(b) then Continue
      else CatchRuntimeError(UncheckedSharedFaces(merge(a, b)))
  }

  // ---------------------------------------------------------------------
  // The nested scan over cells1 x cells2 with early exit.

  /** The first step of a row that is not Continue, else Continue. */
  function RowScan<C>(c: C, cells2: seq<C>, step: (C, C) -> Step): Step
    decreases |cells2|
  {
    if |cells2| == 0 then Continue
    else
      var s := step(c, cells2[0]);
      if s.Continue? then RowScan(c, cells2[1..], step) else s
  }

  /** Row-major scan of cells1 x cells2: True at the first Hit, the exception
    * at the first Throw, False when every pair continues. */
  function PairScan<C>(cells1: seq<C>, cells2: seq<C>, step: (C, C) -> Step): Outcome<bool>
    decreases |cells1|
  {
    if |cells1| == 0 then Returned(false)
    else
      match RowScan(cells1[0], cells2, step)
      case Continue => PairScan(cells1[1..], cells2, step)
      case Hit => Returned(true)
      case Throw(e) => Raised(e)
  }

  /** How a scan ends at a step that is not Continue. */
  function Stop(s: Step): Outcome<bool>
  {
    match s
    case Continue => Returned(false)
    case Hit => Returned(true)
    case Throw(e) => Raised(e)
  }

  /** Every pair strictly before (i, j) in row-major order continues. */
  predicate ContinuesBefore<C>(cells1: seq<C>, cells2: seq<C>, step: (C, C) -> Step, i: int, j: int)
  {
    forall a, b :: 0 <= a < |cells1| && 0 <= b < |cells2| && (a < i || (a == i && b < j)) ==>
      step(cells1[a], cells2[b]) == Continue
  }

  lemma {:induction false} RowScanFirst<C>(c: C, cells2: seq<C>, step: (C, C) -> Step, j: nat)
    requires j <= |cells2|
    requires forall b :: 0 <= b < j ==> step(c, cells2[b]) == Continue
    ensures j < |cells2| ==> RowScan(c, cells2, step) == (if step(c, cells2[j]).Continue? then RowScan(c, cells2[j + 1..], step) else step(c, cells2[j]))
    ensures j == |cells2| ==> RowScan(c, cells2, step) == Continue
    decreases j
  {
    if j > 0 {
      assert step(c, cells2[0]) == Continue;
      RowScanFirst(c, cells2[1..], step, j - 1);
      assert cells2[1..][j - 1..] == cells2[j..];
      if j < |cells2| {
        assert cells2[1..][j..] == cells2[j + 1..];
      }
    }
  }

  /** A scan whose pairs before (i, j) all continue ends at (i, j) unless
    * that pair continues too. */
  lemma {:induction false} PairScanFirst<C>(cells1: seq<C>, cells2: seq<C>, step: (C, C) -> Step, i: nat, j: nat)
    requires i < |cells1| && j < |cells2|
    requires ContinuesBefore(cells1, cells2, step, i, j)
    requires !step(cells1[i], cells2[j]).Continue?
    ensures PairScan(cells1, cells2, step) == Stop(step(cells1[i], cells2[j]))
    decreases i
  {
    if i == 0 {
      RowScanFirst(cells1[0], cells2, step, j);
    } else {
      RowScanFirst(cells1[0], cells2, step, |cells2|);
      PairScanFirst(cells1[1..], cells2, step, i - 1, j);
    }
  }

  lemma {:induction false} PairScanAll<C>(cells1: seq<C>, cells2: seq<C>, step: (C, C) -> Step)
    requires ContinuesBefore(cells1, cells2, step, |cells1|, 0)
    ensures PairScan(cells1, cells2, step) == Returned(false)
    decreases |cells1|
  {
    if |cells1| > 0 {
      RowScanFirst(cells1[0], cells2, step, |cells2|);
      PairScanAll(cells1[1..], cells2, step);
    }
  }

  /** When no pair throws, the scan answers whether some pair hits. */
  lemma {:induction false} PairScanNoThrow<C>(cells1: seq<C>, cells2: seq<C>, step: (C, C) -> Step)
    requires forall a, b :: 0 <= a < |cells1| && 0 <= b < |cells2| ==> !step(cells1[a], cells2[b]).Throw?
    ensures PairScan(cells1, cells2, step) ==
      Returned(exists a, b :: 0 <= a < |cells1| && 0 <= b < |cells2| && step(cells1[a], cells2[b]) == Hit)
    decreases |cells1|
  {
    if |cells1| > 0 {
      var row := RowScan(cells1[0], cells2, step);
      RowScanNoThrow(cells1[0], cells2, step);
      PairScanNoThrow(cells1[1..], cells2, step);
      if row.Continue? {
        forall b | 0 <= b < |cells2| ensures step(cells1[0], cells2[b]) != Hit { }
        if exists a, b :: 0 <= a < |cells1| && 0 <= b < |cells2| && step(cells1[a], cells2[b]) == Hit {
          var a, b :| 0 <= a < |cells1| && 0 <= b < |cells2| && step(cells1[a], cells2[b]) == Hit;
          assert step(cells1[1..][a - 1], cells2[b]) == Hit;
        }
      } else {
        var b :| 0 <= b < |cells2| && step(cells1[0], cells2[b]) == Hit;
        assert step(cells1[0], cells2[b]) == Hit;
      }
    }
  }

  lemma {:induction false} RowScanNoThrow<C>(c: C, cells2: seq<C>, step: (C, C) -> Step)
    requires forall b :: 0 <= b < |cells2| ==> !step(c, cells2[b]).Throw?
    ensures !RowScan(c, cells2, step).Throw?
    ensures RowScan(c, cells2, step) == Hit <==> exists b :: 0 <= b < |cells2| && step(c, cells2[b]) == Hit
    decreases |cells2|
  {
    if |cells2| > 0 {
      RowScanNoThrow(c, cells2[1..], step);
      if exists b :: 0 <= b < |cells2| && step(c, cells2[b]) == Hit {
        var b :| 0 <= b < |cells2| && step(c, cells2[b]) == Hit;
        if b > 0 {
          assert step(c, cells2[1..][b - 1]) == Hit;
        }
      }
    }
  }

  /** The nested loops of `find_touching_walls`: cells in order, each against
    * every cell of the other wall, leaving at the first pair that is not
    * skipped. */
  method ScanCellPairs<C>(cells1: seq<C>, cells2: seq<C>, step: (C, C) -> Step) returns (touching: Outcome<bool>)
    ensures touching == PairScan(cells1, cells2, step)
  {
    var i := 0;
    while i < |cells1|
      invariant 0 <= i <= |cells1|
      invariant ContinuesBefore(cells1, cells2, step, i, 0)
    {
      var j := 0;
      while j < |cells2|
        invariant 0 <= j <= |cells2|
        invariant ContinuesBefore(cells1, cells2, step, i, j)
      {
        var s := step(cells1[i], cells2[j]);
        if !s.Continue? {
          PairScanFirst(cells1, cells2, step, i, j);
          return Stop(s);
        }
        j := j + 1;
      }
      i := i + 1;
    }
    PairScanAll(cells1, cells2, step);
    return Returned(false);
  }

  /** `find_touching_walls` with the cell-count check and `except RuntimeError`:
    * no RuntimeError escapes it, and it reports a touch only for a pair whose
    * merge has two cells sharing a face. */
  method FindTouchingWallsCaught<C>(cells1: seq<C>, cells2: seq<C>, merge: (C, C) -> MergeOutcome)
    returns (touching: Outcome<bool>)
    ensures touching == PairScan(cells1, cells2, CaughtStep(merge))
    ensures touching != Raised(RuntimeError)
    ensures touching == Returned(true) ==>
      exists a, b :: 0 <= a < |cells1| && 0 <= b < |cells2| && Touches(merge(cells1[a], cells2[b]))
  {
    touching := ScanCellPairs(cells1, cells2, CaughtStep(merge));
    ghost var step := CaughtStep(merge);
    if touching != Returned(false) {
      if ContinuesBefore(cells1, cells2, step, |cells1|, 0) {
        PairScanAll(cells1, cells2, step);
        assert false;
      }
      var a, b := FirstStop(cells1, cells2, step);
      PairScanFirst(cells1, cells2, step, a, b);
      assert step(cells1[a], cells2[b]) == CatchRuntimeError(CheckedSharedFaces(merge(cells1[a], cells2[b])));
    }
  }

  /** Some pair does not continue, so there is a first such pair. */
  lemma FirstStop<C>(cells1: seq<C>, cells2: seq<C>, step: (C, C) -> Step) returns (i: nat, j: nat)
    requires !ContinuesBefore(cells1, cells2, step, |cells1|, 0)
    ensures i < |cells1| && j < |cells2| && !step(cells1[i], cells2[j]).Continue?
    ensures ContinuesBefore(cells1, cells2, step, i, j)
  {
    i := 0;
    while i < |cells1| && forall b :: 0 <= b < |cells2| ==> step(cells1[i], cells2[b]).Continue?
      invariant i <= |cells1| && ContinuesBefore(cells1, cells2, step, i, 0)
    {
      i := i + 1;
    }
    j := 0;
    while step(cells1[i], cells2[j]).Continue?
      invariant j < |cells2| && ContinuesBefore(cells1, cells2, step, i, j)
      invariant exists b :: j <= b < |cells2| && !step(cells1[i], cells2[b]).Continue?
      decreases |cells2| - j
    {
      j := j + 1;
    }
  }

  /** `find_touching_walls` of the scripts without an exception handler: a
    * merge with fewer than two cells that is reached raises IndexError. */
  method FindTouchingWallsUncaught<C>(cells1: seq<C>, cells2: seq<C>, merge: (C, C) -> MergeOutcome)
    returns (touching: Outcome<bool>)
    ensures touching == PairScan(cells1, cells2, UncaughtStep(merge))
  {
    touching := ScanCellPairs(cells1, cells2, UncaughtStep(merge));
  }

  /** `find_touching_walls` that skips non-topology cells and catches only
    * RuntimeError. */
  method FindTouchingWallsTyped<C>(cells1: seq<C>, cells2: seq<C>, merge: (C, C) -> MergeOutcome, isTopology: C -> bool)
    returns (touching: Outcome<bool>)
    ensures touching == PairScan(cells1, cells2, TypedStep(merge, isTopology))
    ensures touching != Raised(RuntimeError)
  {
    touching := ScanCellPairs(cells1, cells2, TypedStep(merge, isTopology));
    ghost var step := TypedStep(merge, isTopology);
    if touching != Returned(false) {
      if ContinuesBefore(cells1, cells2, step, |cells1|, 0) {
        PairScanAll(cells1, cells2, step);
        assert false;
      }
      var a, b := FirstStop(cells1, cells2, step);
      PairScanFirst(cells1, cells2, step, a, b);
      var m := merge(cells1[a], cells2[b]);
      assert isTopology(cells1[a]) && isTopology(cells2[b]) ==>
        step(cells1[a], cells2[b]) == CatchRuntimeError(UncheckedSharedFaces(m));
    }
  }

  /** When the kernel raises nothing but RuntimeError, the guarded test
    * answers True exactly when some pair merges into two cells sharing a face. */
  lemma CaughtTouchIff<C>(cells1: seq<C>, cells2: seq<C>, merge: (C, C) -> MergeOutcome)
    requires forall a, b :: 0 <= a < |cells1| && 0 <= b < |cells2| && merge(cells1[a], cells2[b]).KernelRaised? ==>
      merge(cells1[a], cells2[b]).exc == RuntimeError
    ensures PairScan(cells1, cells2, CaughtStep(merge)) ==
      Returned(exists a, b :: 0 <= a < |cells1| && 0 <= b < |cells2| && Touches(merge(cells1[a], cells2[b])))
  {
    var step := CaughtStep(merge);
    forall a, b | 0 <= a < |cells1| && 0 <= b < |cells2|
      ensures !step(cells1[a], cells2[b]).Throw?
      ensures step(cells1[a], cells2[b]) == Hit <==> Touches(merge(cells1[a], cells2[b]))
    {
    }
    PairScanNoThrow(cells1, cells2, step);
  }

  /** A merge with fewer than two cells is skipped by the checked variant but
    * is an IndexError in the unchecked ones. */
  lemma ShortMergeHandling<C>(merge: (C, C) -> MergeOutcome, isTopology: C -> bool, a: C, b: C)
    requires merge(a, b).Merged? && merge(a, b).cellCount < 2
    ensures CaughtStep(merge)(a, b) == Continue
    ensures UncaughtStep(merge)(a, b) == Throw(IndexError)
    ensures isTopology(a) && isTopology(b) ==> TypedStep(merge, isTopology)(a, b) == Throw(IndexError)
    ensures !isTopology(a) || !isTopology(b) ==> TypedStep(merge, isTopology)(a, b) == Continue
  {
  }

  /** The unchecked test stops with an exception at the first pair whose merge
    * has fewer than two cells when no earlier pair touched. */
  lemma UncaughtShortMergeRaises<C>(cells1: seq<C>, cells2: seq<C>, merge: (C, C) -> MergeOutcome, i: nat, j: nat)
    requires i < |cells1| && j < |cells2|
    requires ContinuesBefore(cells1, cells2, UncaughtStep(merge), i, j)
    requires merge(cells1[i], cells2[j]).Merged? && merge(cells1[i], cells2[j]).cellCount < 2
    ensures PairScan(cells1, cells2, UncaughtStep(merge)) == Raised(IndexError)
  {
    PairScanFirst(cells1, cells2, UncaughtStep(merge), i, j);
  }

  // ---------------------------------------------------------------------
  // find_touching_rooms: one layer against every room of a dict.

  /** Scan of the rooms in dict order, written by the last room so that it
    * follows the loop: the touching room guids, or the first exception. */
  function RoomScan<R>(rooms: seq<(string, R)>, step: R -> Step): Outcome<seq<string>>
    decreases |rooms|
  {
    if |rooms| == 0 then Returned([])
    else
      var last := rooms[|rooms| - 1];
      match RoomScan(rooms[..|rooms| - 1], step)
      case Raised(e) => Raised(e)
      case Returned(found) =>
        match step(last.1)
        case Continue => Returned(found)
        case Hit => Returned(found + [last.0])
        case Throw(e) => Raised(e)
  }

  lemma {:induction false} RoomScanRaisedStays<R>(rooms: seq<(string, R)>, step: R -> Step, n: nat, e: PyException)
    requires n <= |rooms| && RoomScan(rooms[..n], step) == Raised(e)
    ensures RoomScan(rooms, step) == Raised(e)
    decreases |rooms| - n
  {
    if n < |rooms| {
      assert rooms[..n + 1][..n] == rooms[..n];
      RoomScanRaisedStays(rooms, step, n + 1, e);
    } else {
      assert rooms[..n] == rooms;
    }
  }

  /** When no room's step throws, the scan returns exactly the guids of the
    * rooms that hit, in dict order. */
  lemma {:induction false} RoomScanNoThrow<R>(rooms: seq<(string, R)>, step: R -> Step)
    requires forall k :: 0 <= k < |rooms| ==> !step(rooms[k].1).Throw?
    ensures RoomScan(rooms, step).Returned?
    ensures IsSubsequence(RoomScan(rooms, step).value, Keys(rooms))
    ensures forall g :: g in RoomScan(rooms, step).value <==>
      exists k :: 0 <= k < |rooms| && rooms[k].0 == g && step(rooms[k].1) == Hit
    decreases |rooms|
  {
    if |rooms| > 0 {
      var init := rooms[..|rooms| - 1];
      RoomScanNoThrow(init, step);
      assert Keys(rooms) == Keys(init) + [rooms[|rooms| - 1].0];
      var found := RoomScan(init, step).value;
      SubsequenceSnoc(found, Keys(init), rooms[|rooms| - 1].0, step(rooms[|rooms| - 1].1) == Hit);
      forall g ensures g in RoomScan(rooms, step).value <==>
        exists k :: 0 <= k < |rooms| && rooms[k].0 == g && step(rooms[k].1) == Hit
      {
        if exists k :: 0 <= k < |rooms| && rooms[k].0 == g && step(rooms[k].1) == Hit {
          var k :| 0 <= k < |rooms| && rooms[k].0 == g && step(rooms[k].1) == Hit;
          if k < |rooms| - 1 {
            assert init[k] == rooms[k];
          }
        }
        if g in found {
          var k :| 0 <= k < |init| && init[k].0 == g && step(init[k].1) == Hit;
          assert rooms[k] == init[k];
        }
      }
    }
  }

  function Keys<R>(rooms: seq<(string, R)>): (ks: seq<string>)
    ensures |ks| == |rooms| && forall k :: 0 <= k < |rooms| ==> ks[k] == rooms[k].0
  {
    seq(|rooms|, k requires 0 <= k < |rooms| => rooms[k].0)
  }

  /** `find_touching_rooms`: the loop over the room dict with the handler the
    * step encodes. */
  method FindTouchingRooms<R>(rooms: seq<(string, R)>, step: R -> Step) returns (touching: Outcome<seq<string>>)
    ensures touching == RoomScan(rooms, step)
  {
    var found: seq<string> := [];
    var k := 0;
    while k < |rooms|
      invariant 0 <= k <= |rooms|
      invariant RoomScan(rooms[..k], step) == Returned(found)
    {
      assert rooms[..k + 1][..k] == rooms[..k];
      var s := step(rooms[k].1);
      match s {
        case Continue =>
        case Hit =>
          found := found + [rooms[k].0];
        case Throw(e) =>
          RoomScanRaisedStays(rooms, step, k + 1, e);
          return Raised(e);
      }
      k := k + 1;
    }
    assert rooms[..k] == rooms;
    return Returned(found);
  }

  /** The layer's step for one room with `except Exception` around the merge. */
  function RoomStepCaught<R>(merge: R -> MergeOutcome): R -> Step
  {
    r => CatchAll(UncheckedSharedFaces(merge(r)))
  }

  /** The layer's step for one room without any handler. */
  function RoomStepUncaught<R>(merge: R -> MergeOutcome): R -> Step
  {
    r => CatchNothing(UncheckedSharedFaces(merge(r)))
  }

  /** The guarded `find_touching_rooms` never raises and returns, in dict
    * order, exactly the rooms whose merge with the layer has two cells
    * sharing a face. */
  lemma FindTouchingRoomsCaughtResult<R>(rooms: seq<(string, R)>, merge: R -> MergeOutcome)
    ensures RoomScan(rooms, RoomStepCaught(merge)).Returned?
    ensures IsSubsequence(RoomScan(rooms, RoomStepCaught(merge)).value, Keys(rooms))
    ensures forall g :: g in RoomScan(rooms, RoomStepCaught(merge)).value <==>
      exists k :: 0 <= k < |rooms| && rooms[k].0 == g && Touches(merge(rooms[k].1))
  {
    var step := RoomStepCaught(merge);
    assert forall k :: 0 <= k < |rooms| ==> (step(rooms[k].1) == Hit <==> Touches(merge(rooms[k].1)));
    RoomScanNoThrow(rooms, step);
  }

  /** The unguarded `find_touching_rooms` raises as soon as one room's merge
    * fails or has fewer than two cells, whatever the other rooms give. */
  lemma FindTouchingRoomsUncaughtRaises<R>(rooms: seq<(string, R)>, merge: R -> MergeOutcome, k: nat)
    requires k < |rooms| && !Touches(merge(rooms[k].1))
    requires merge(rooms[k].1).KernelRaised? || merge(rooms[k].1).cellCount < 2
    ensures RoomScan(rooms, RoomStepUncaught(merge)).Raised?
  {
    var step := RoomStepUncaught(merge);
    RoomScanRaisedAt(rooms, step, k);
  }

  lemma {:induction false} RoomScanRaisedAt<R>(rooms: seq<(string, R)>, step: R -> Step, k: nat)
    requires k < |rooms| && step(rooms[k].1).Throw?
    ensures RoomScan(rooms, step).Raised?
  {
    var pre := rooms[..k + 1];
    assert pre[..k] == rooms[..k];
    assert pre[k] == rooms[k];
    match RoomScan(rooms[..k], step) {
      case Raised(e) =>
        assert RoomScan(pre, step) == Raised(e);
        RoomScanRaisedStays(rooms, step, k + 1, e);
      case Returned(_) =>
        RoomScanRaisedStays(rooms, step, k + 1, step(rooms[k].1).exc);
    }
  }
}
