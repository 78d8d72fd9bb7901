/**
 * The wall-layer loop of the enrichment scripts. For each wall of
 * `dic_walls`, in dict order, each layer whose topology dictionary has a
 * material name becomes a Material node `<wall>_<index>_<material>`, linked
 * to its wall ("ConsistsOf") and to the previous named layer of the same
 * wall ("InternallyConnected"); the first and the last layer of the wall are
 * also compared with the rooms, and each room touched is linked ("IsFacing").
 *
 * The rooms a layer touches come from find_touching_rooms (module
 * TouchTest); here that call is a function of the layer.
 */
module LayerChain {
  import opened Common
  import opened Text
  import opened PyDict
  import opened TouchTest
  import SpaceFilters

  /** What the loop sends to the database. */
  datatype LayerWrite =
    | MaterialNode(material: string, uniqueId: string)
    | Relation(source: string, target: string, relation: string)

  /** The writes made, in order, and the exception that ended the loop. */
  datatype LayerRun = LayerRun(writes: seq<LayerWrite>, raised: Option<PyException>)

  /** `f"{wall_guid}_{index}_{material_name}"`. */
  function UniqueId(wallGuid: string, index: nat, material: string): string
  {
    wallGuid + "_" + DecimalString(index) + "_" + material
  }

  /** `if material_name:` — a name that is there and not empty. */
  predicate HasMaterial(m: Option<string>)
  {
    m.Some? && |m.value| > 0
  }

  /** The id of layer `i`, when it has a material name. */
  function LayerId<L>(wallGuid: string, layers: seq<L>, material: L -> Option<string>, i: nat): string
    requires i < |layers| && HasMaterial(material(layers[i]))
  {
    UniqueId(wallGuid, i, material(layers[i]).value)
  }

  /** `previous_unique_id` when the loop reaches layer `n`: the id of the
    * last layer before it with a material name; a layer without one leaves
    * it as it was. */
  function PreviousId<L>(wallGuid: string, layers: seq<L>, material: L -> Option<string>, n: nat): Option<string>
    requires n <= |layers|
    decreases n
  {
    if n == 0 then None
    else if HasMaterial(material(layers[n - 1])) then Some(LayerId(wallGuid, layers, material, n - 1))
    else PreviousId(wallGuid, layers, material, n - 1)
  }

  function FacingWrites(uid: string, rooms: seq<string>): (ws: seq<LayerWrite>)
    ensures |ws| == |rooms|
    ensures forall k :: 0 <= k < |rooms| ==> ws[k] == Relation(uid, rooms[k], "IsFacing")
  {
    seq(|rooms|, k requires 0 <= k < |rooms| => Relation(uid, rooms[k], "IsFacing"))
  }

  /** The writes of the node and its first two links for a named layer. */
  function LinkWrites(wallGuid: string, material: string, uid: string, previous: Option<string>): seq<LayerWrite>
  {
    [MaterialNode(material, uid), Relation(wallGuid, uid, "ConsistsOf")]
      + (if previous.Some? then [Relation(previous.value, uid, "InternallyConnected")] else [])
  }

  /** What the loop does for layer `i`: nothing without a material name;
    * otherwise the node and its links and, for the first and the last
    * layer, the rooms `touching` finds, or the exception it raises after
    * the links are written. */
  function LayerStep<L>(wallGuid: string, layers: seq<L>, material: L -> Option<string>,
                        touching: L -> Outcome<seq<string>>, i: nat): LayerRun
    requires i < |layers|
  {
    if !HasMaterial(material(layers[i])) then LayerRun([], None)
    else
      var uid := LayerId(wallGuid, layers, material, i);
      var linked := LinkWrites(wallGuid, material(layers[i]).value, uid, PreviousId(wallGuid, layers, material, i));
      if i == 0 || i == |layers| - 1 then
        match touching(layers[i])
        case Raised(e) => LayerRun(linked, Some(e))
        case Returned(rooms) => LayerRun(linked + FacingWrites(uid, rooms), None)
      else LayerRun(linked, None)
  }

  /** The inner loop over the first `n` layers of one wall. */
  function WallRun<L>(wallGuid: string, layers: seq<L>, material: L -> Option<string>,
                      touching: L -> Outcome<seq<string>>, n: nat): LayerRun
    requires n <= |layers|
    decreases n
  {
    if n == 0 then LayerRun([], None)
    else
      var r := WallRun(wallGuid, layers, material, touching, n - 1);
      if r.raised.Some? then r
      else
        var s := LayerStep(wallGuid, layers, material, touching, n - 1);
        LayerRun(r.writes + s.writes, s.raised)
  }

  /** The touch test of one wall's layers, from the test of the whole run. */
  function TouchingOf<L>(touchingIn: (string, L) -> Outcome<seq<string>>, wallGuid: string): L -> Outcome<seq<string>>
  {
    layer => touchingIn(wallGuid, layer)
  }

  /** The outer loop over `dic_walls.items()`: each wall's run starts with
    * no previous layer; the first exception ends the script. */
  function AllWalls<L>(walls: seq<(string, seq<L>)>, material: L -> Option<string>,
                       touchingIn: (string, L) -> Outcome<seq<string>>): LayerRun
    decreases |walls|
  {
    if |walls| == 0 then LayerRun([], None)
    else
      var r := AllWalls(walls[..|walls| - 1], material, touchingIn);
      var w := walls[|walls| - 1];
      if r.raised.Some? then r
      else
        var s := WallRun(w.0, w.1, material, TouchingOf(touchingIn, w.0), |w.1|);
        LayerRun(r.writes + s.writes, s.raised)
  }

  // ---------------------------------------------------------------------
  // The loops

  lemma {:induction false} WallRunRaisedStays<L>(wallGuid: string, layers: seq<L>, material: L -> Option<string>,
                                                 touching: L -> Outcome<seq<string>>, n: nat, m: nat)
    requires n <= m <= |layers| && WallRun(wallGuid, layers, material, touching, n).raised.Some?
    ensures WallRun(wallGuid, layers, material, touching, m) == WallRun(wallGuid, layers, material, touching, n)
    decreases m
  {
    if m > n {
      WallRunRaisedStays(wallGuid, layers, material, touching, n, m - 1);
    }
  }

  /** One pass of the inner loop's body: layer `index`, with the
    * `previous_unique_id` the loop carries. */
  method ProcessLayer<L>(wallGuid: string, layers: seq<L>, material: L -> Option<string>,
                         touching: L -> Outcome<seq<string>>, index: nat, previous: Option<string>)
    returns (step: LayerRun)
    requires index < |layers| && previous == PreviousId(wallGuid, layers, material, index)
    ensures step == LayerStep(wallGuid, layers, material, touching, index)
  {
    var m := material(layers[index]);
    if !HasMaterial(m) {
      return LayerRun([], None);
    }
    var uid := UniqueId(wallGuid, index, m.value);
    var writes := [MaterialNode(m.value, uid), Relation(wallGuid, uid, "ConsistsOf")];
    if previous.Some? {
      writes := writes + [Relation(previous.value, uid, "InternallyConnected")];
    }
    assert writes == LinkWrites(wallGuid, m.value, uid, previous);
    if index == 0 || index == |layers| - 1 {
      var found := touching(layers[index]);
      if found.Raised? {
        return LayerRun(writes, Some(found.exc));
      }
      var rooms := found.value;
      ghost var linked := writes;
      for k := 0 to |rooms|
        invariant writes == linked + FacingWrites(uid, rooms[..k])
      {
        assert FacingWrites(uid, rooms[..k + 1]) == FacingWrites(uid, rooms[..k]) + [Relation(uid, rooms[k], "IsFacing")];
        writes := writes + [Relation(uid, rooms[k], "IsFacing")];
      }
      assert rooms[..|rooms|] == rooms;
    }
    step := LayerRun(writes, None);
  }

  /** The inner loop, `previous_unique_id` carried from layer to layer. */
  method ProcessWall<L>(wallGuid: string, layers: seq<L>, material: L -> Option<string>, touching: L -> Outcome<seq<string>>)
    returns (run: LayerRun)
    ensures run == WallRun(wallGuid, layers, material, touching, |layers|)
  {
    var writes: seq<LayerWrite> := [];
    var previous: Option<string> := None;
    for index := 0 to |layers|
      invariant WallRun(wallGuid, layers, material, touching, index) == LayerRun(writes, None)
      invariant previous == PreviousId(wallGuid, layers, material, index)
    {
      var step := ProcessLayer(wallGuid, layers, material, touching, index, previous);
      writes := writes + step.writes;
      if step.raised.Some? {
        WallRunRaisedStays(wallGuid, layers, material, touching, index + 1, |layers|);
        return LayerRun(writes, step.raised);
      }
      var m := material(layers[index]);
      if HasMaterial(m) {
        previous := Some(UniqueId(wallGuid, index, m.value));
      }
    }
    run := LayerRun(writes, None);
  }

  lemma AllWallsStep<L>(walls: seq<(string, seq<L>)>, material: L -> Option<string>,
                        touchingIn: (string, L) -> Outcome<seq<string>>, i: nat)
    requires i < |walls|
    ensures AllWalls(walls[..i + 1], material, touchingIn) ==
      (var r := AllWalls(walls[..i], material, touchingIn);
       if r.raised.Some? then r
       else
         var s := WallRun(walls[i].0, walls[i].1, material, TouchingOf(touchingIn, walls[i].0), |walls[i].1|);
         LayerRun(r.writes + s.writes, s.raised))
  {
    assert walls[..i + 1][..i] == walls[..i];
  }

  lemma {:induction false} AllWallsRaisedStays<L>(walls: seq<(string, seq<L>)>, material: L -> Option<string>,
                                                  touchingIn: (string, L) -> Outcome<seq<string>>, n: nat)
    requires n <= |walls| && AllWalls(walls[..n], material, touchingIn).raised.Some?
    ensures AllWalls(walls, material, touchingIn) == AllWalls(walls[..n], material, touchingIn)
    decreases |walls| - n
  {
    if n < |walls| {
      AllWallsStep(walls, material, touchingIn, n);
      AllWallsRaisedStays(walls, material, touchingIn, n + 1);
    } else {
      assert walls[..n] == walls;
    }
  }

  /** The outer loop over the walls. */
  method ProcessWalls<L>(walls: seq<(string, seq<L>)>, material: L -> Option<string>, touchingIn: (string, L) -> Outcome<seq<string>>)
    returns (run: LayerRun)
    ensures run == AllWalls(walls, material, touchingIn)
  {
    var writes: seq<LayerWrite> := [];
    for i := 0 to |walls|
      invariant AllWalls(walls[..i], material, touchingIn) == LayerRun(writes, None)
    {
      AllWallsStep(walls, material, touchingIn, i);
      var wallRun := ProcessWall(walls[i].0, walls[i].1, material, TouchingOf(touchingIn, walls[i].0));
      writes := writes + wallRun.writes;
      if wallRun.raised.Some? {
        AllWallsRaisedStays(walls, material, touchingIn, i + 1);
        return LayerRun(writes, wallRun.raised);
      }
    }
    assert walls[..|walls|] == walls;
    run := LayerRun(writes, None);
  }

  // ---------------------------------------------------------------------
  // The ids

  /** Two layers share an id only when they have the same index and the same
    * material name: the index ends at the first `_` after the wall guid. */
  lemma UniqueIdInjective(wallGuid: string, i: nat, m: string, j: nat, m': string)
    requires UniqueId(wallGuid, i, m) == UniqueId(wallGuid, j, m')
    ensures i == j && m == m'
  {
    var di, dj := DecimalString(i), DecimalString(j);
    var p := wallGuid + "_";
    var a, b := di + "_" + m, dj + "_" + m';
    DropPrefix(p, di, m);
    DropPrefix(p, dj, m');
    assert a == UniqueId(wallGuid, i, m)[|p|..] == b;
    DigitsThenUnderscore(di, m, dj, m');
    DecimalStringInjective(i, j);
  }

  /** The id read after the `<guid>_` prefix. */
  lemma DropPrefix(p: string, digits: string, rest: string)
    ensures (p + digits + "_" + rest)[|p|..] == digits + "_" + rest
  {
    assert p + digits + "_" + rest == p + (digits + "_" + rest);
  }

  /** `<digits>_<rest>` splits at its first `_`: equal ids have equal digits
    * and equal rests. */
  lemma DigitsThenUnderscore(d: string, m: string, d': string, m': string)
    requires forall k :: 0 <= k < |d| ==> '0' <= d[k] <= '9'
    requires forall k :: 0 <= k < |d'| ==> '0' <= d'[k] <= '9'
    requires d + "_" + m == d' + "_" + m'
    ensures d == d' && m == m'
  {
    var a := d + "_" + m;
    FirstUnderscore(d, m);
    FirstUnderscore(d', m');
    assert a[|d|] == '_' && a[|d'|] == '_';
    assert |d| == |d'|;
    assert d == a[..|d|] && d' == a[..|d'|];
    assert m == a[|d| + 1..] && m' == a[|d'| + 1..];
  }

  /** In `<digits>_<rest>` the first `_` follows the digits. */
  lemma FirstUnderscore(digits: string, rest: string)
    requires forall k :: 0 <= k < |digits| ==> '0' <= digits[k] <= '9'
    ensures (digits + "_" + rest)[|digits|] == '_'
    ensures forall k :: 0 <= k < |digits| ==> (digits + "_" + rest)[k] != '_'
  {
  }

  /** Layer `i` is the last layer before `n` with a material name. */
  predicate LastNamedBefore<L>(layers: seq<L>, material: L -> Option<string>, i: int, n: int)
  {
    && 0 <= i < n <= |layers|
    && HasMaterial(material(layers[i]))
    && forall k :: i < k < n ==> !HasMaterial(material(layers[k]))
  }

  /** `previous_unique_id` is None exactly while no earlier layer had a
    * material name, and otherwise the id of the last one that had. */
  lemma {:induction false} PreviousIdLast<L>(wallGuid: string, layers: seq<L>, material: L -> Option<string>, n: nat)
    requires n <= |layers|
    ensures PreviousId(wallGuid, layers, material, n).None? <==>
      forall k :: 0 <= k < n ==> !HasMaterial(material(layers[k]))
    ensures forall i :: LastNamedBefore(layers, material, i, n) ==>
      PreviousId(wallGuid, layers, material, n) == Some(LayerId(wallGuid, layers, material, i))
    ensures PreviousId(wallGuid, layers, material, n).Some? ==>
      exists i :: LastNamedBefore(layers, material, i, n) &&
        PreviousId(wallGuid, layers, material, n) == Some(LayerId(wallGuid, layers, material, i))
    decreases n
  {
    if n > 0 {
      PreviousIdLast(wallGuid, layers, material, n - 1);
      if HasMaterial(material(layers[n - 1])) {
        assert LastNamedBefore(layers, material, n - 1, n);
        forall i | LastNamedBefore(layers, material, i, n)
          ensures i == n - 1
        {
        }
      } else {
        forall i | LastNamedBefore(layers, material, i, n)
          ensures LastNamedBefore(layers, material, i, n - 1)
        {
        }
        if PreviousId(wallGuid, layers, material, n).Some? {
          var i :| LastNamedBefore(layers, material, i, n - 1) &&
            PreviousId(wallGuid, layers, material, n - 1) == Some(LayerId(wallGuid, layers, material, i));
          assert LastNamedBefore(layers, material, i, n);
        }
      }
    }
  }

  // ---------------------------------------------------------------------
  // What one layer writes

  /** Every write of a layer belongs to a layer with a material name: its
    * node, its `ConsistsOf` link from the wall, its `InternallyConnected`
    * link from the previous named layer, or an `IsFacing` link to a room
    * the test found, made only for the first or the last layer. */
  lemma LayerStepWrites<L>(wallGuid: string, layers: seq<L>, material: L -> Option<string>,
                           touching: L -> Outcome<seq<string>>, i: nat, w: LayerWrite)
    requires i < |layers| && w in LayerStep(wallGuid, layers, material, touching, i).writes
    ensures HasMaterial(material(layers[i]))
    ensures w.MaterialNode? ==> w == MaterialNode(material(layers[i]).value, LayerId(wallGuid, layers, material, i))
    ensures w.Relation? ==> w.relation == "ConsistsOf" || w.relation == "InternallyConnected" || w.relation == "IsFacing"
    ensures w.Relation? && w.relation == "ConsistsOf" ==>
      w.source == wallGuid && w.target == LayerId(wallGuid, layers, material, i)
    ensures w.Relation? && w.relation == "InternallyConnected" ==>
      w.target == LayerId(wallGuid, layers, material, i) && PreviousId(wallGuid, layers, material, i) == Some(w.source)
    ensures w.Relation? && w.relation == "IsFacing" ==>
      && w.source == LayerId(wallGuid, layers, material, i)
      && (i == 0 || i == |layers| - 1)
      && touching(layers[i]).Returned? && w.target in touching(layers[i]).value
  {
    var uid := LayerId(wallGuid, layers, material, i);
    var linked := LinkWrites(wallGuid, material(layers[i]).value, uid, PreviousId(wallGuid, layers, material, i));
    if w !in linked {
      var rooms := touching(layers[i]).value;
      var k :| 0 <= k < |rooms| && FacingWrites(uid, rooms)[k] == w;
    }
  }

  /** A named layer writes its node and its `ConsistsOf` link, its
    * `InternallyConnected` link when an earlier layer was named, and, when it
    * is the first or the last layer and the test returns, an `IsFacing`
    * link to each room found. */
  lemma LayerStepHas<L>(wallGuid: string, layers: seq<L>, material: L -> Option<string>,
                        touching: L -> Outcome<seq<string>>, i: nat)
    requires i < |layers| && HasMaterial(material(layers[i]))
    ensures var ws := LayerStep(wallGuid, layers, material, touching, i).writes;
      var uid := LayerId(wallGuid, layers, material, i);
      && MaterialNode(material(layers[i]).value, uid) in ws
      && Relation(wallGuid, uid, "ConsistsOf") in ws
      && (PreviousId(wallGuid, layers, material, i).Some? ==>
            Relation(PreviousId(wallGuid, layers, material, i).value, uid, "InternallyConnected") in ws)
      && ((i == 0 || i == |layers| - 1) && touching(layers[i]).Returned? ==>
            forall room :: room in touching(layers[i]).value ==> Relation(uid, room, "IsFacing") in ws)
  {
    var uid := LayerId(wallGuid, layers, material, i);
    var ws := LayerStep(wallGuid, layers, material, touching, i).writes;
    var linked := LinkWrites(wallGuid, material(layers[i]).value, uid, PreviousId(wallGuid, layers, material, i));
    assert linked[0] == MaterialNode(material(layers[i]).value, uid) && linked[1] == Relation(wallGuid, uid, "ConsistsOf");
    assert linked <= ws;
    if PreviousId(wallGuid, layers, material, i).Some? {
      assert linked[2] == Relation(PreviousId(wallGuid, layers, material, i).value, uid, "InternallyConnected");
    }
    if (i == 0 || i == |layers| - 1) && touching(layers[i]).Returned? {
      var rooms := touching(layers[i]).value;
      forall room | room in rooms ensures Relation(uid, room, "IsFacing") in ws {
        var k :| 0 <= k < |rooms| && rooms[k] == room;
        assert ws[|linked| + k] == FacingWrites(uid, rooms)[k];
      }
    }
  }

  // ---------------------------------------------------------------------
  // What one wall writes

  lemma {:induction false} WallRunFrom<L>(wallGuid: string, layers: seq<L>, material: L -> Option<string>,
                                          touching: L -> Outcome<seq<string>>, n: nat, w: LayerWrite)
    requires n <= |layers| && w in WallRun(wallGuid, layers, material, touching, n).writes
    ensures exists i :: 0 <= i < n && w in LayerStep(wallGuid, layers, material, touching, i).writes
    decreases n
  {
    var r := WallRun(wallGuid, layers, material, touching, n - 1);
    if r.raised.Some? || w in r.writes {
      WallRunFrom(wallGuid, layers, material, touching, n - 1, w);
    } else {
      assert w in LayerStep(wallGuid, layers, material, touching, n - 1).writes;
    }
  }

  lemma {:induction false} WallRunHas<L>(wallGuid: string, layers: seq<L>, material: L -> Option<string>,
                                         touching: L -> Outcome<seq<string>>, n: nat, i: nat, w: LayerWrite)
    requires i < n <= |layers| && WallRun(wallGuid, layers, material, touching, n).raised.None?
    requires w in LayerStep(wallGuid, layers, material, touching, i).writes
    ensures w in WallRun(wallGuid, layers, material, touching, n).writes
    decreases n
  {
    var r := WallRun(wallGuid, layers, material, touching, n - 1);
    assert r.raised.None?;
    if i < n - 1 {
      WallRunHas(wallGuid, layers, material, touching, n - 1, i, w);
    }
  }

  /** Material nodes: one per layer with a material name, with the index of
    * the layer among all layers of the wall, skipped ones included. */
  lemma WallMaterialNodes<L>(wallGuid: string, layers: seq<L>, material: L -> Option<string>,
                             touching: L -> Outcome<seq<string>>, name: string, uid: string)
    ensures MaterialNode(name, uid) in WallRun(wallGuid, layers, material, touching, |layers|).writes ==>
      exists i :: 0 <= i < |layers| && material(layers[i]) == Some(name) && name != "" && uid == UniqueId(wallGuid, i, name)
    ensures WallRun(wallGuid, layers, material, touching, |layers|).raised.None? ==>
      forall i :: 0 <= i < |layers| && material(layers[i]) == Some(name) && name != "" ==>
        MaterialNode(name, UniqueId(wallGuid, i, name)) in WallRun(wallGuid, layers, material, touching, |layers|).writes
  {
    var run := WallRun(wallGuid, layers, material, touching, |layers|);
    if MaterialNode(name, uid) in run.writes {
      WallRunFrom(wallGuid, layers, material, touching, |layers|, MaterialNode(name, uid));
      var i :| 0 <= i < |layers| && MaterialNode(name, uid) in LayerStep(wallGuid, layers, material, touching, i).writes;
      LayerStepWrites(wallGuid, layers, material, touching, i, MaterialNode(name, uid));
    }
    if run.raised.None? {
      forall i | 0 <= i < |layers| && material(layers[i]) == Some(name) && name != ""
        ensures MaterialNode(name, UniqueId(wallGuid, i, name)) in run.writes
      {
        LayerStepHas(wallGuid, layers, material, touching, i);
        WallRunHas(wallGuid, layers, material, touching, |layers|, i, MaterialNode(name, UniqueId(wallGuid, i, name)));
      }
    }
  }

  /** The `InternallyConnected` links of a wall join each named layer to the
    * last named layer before it, and nothing else. */
  lemma WallChain<L>(wallGuid: string, layers: seq<L>, material: L -> Option<string>,
                     touching: L -> Outcome<seq<string>>, s: string, t: string)
    ensures Relation(s, t, "InternallyConnected") in WallRun(wallGuid, layers, material, touching, |layers|).writes ==>
      exists i, j ::
        && LastNamedBefore(layers, material, i, j)
        && j < |layers| && HasMaterial(material(layers[j]))
        && s == LayerId(wallGuid, layers, material, i)
        && t == LayerId(wallGuid, layers, material, j)
    ensures WallRun(wallGuid, layers, material, touching, |layers|).raised.None? ==>
      forall i, j :: LastNamedBefore(layers, material, i, j) && j < |layers| && HasMaterial(material(layers[j])) ==>
        Relation(LayerId(wallGuid, layers, material, i), LayerId(wallGuid, layers, material, j), "InternallyConnected")
          in WallRun(wallGuid, layers, material, touching, |layers|).writes
  {
    var run := WallRun(wallGuid, layers, material, touching, |layers|);
    var w := Relation(s, t, "InternallyConnected");
    if w in run.writes {
      WallRunFrom(wallGuid, layers, material, touching, |layers|, w);
      var j :| 0 <= j < |layers| && w in LayerStep(wallGuid, layers, material, touching, j).writes;
      LayerStepWrites(wallGuid, layers, material, touching, j, w);
      PreviousIdLast(wallGuid, layers, material, j);
      var i :| LastNamedBefore(layers, material, i, j) && Some(s) == Some(LayerId(wallGuid, layers, material, i));
    }
    if run.raised.None? {
      forall i, j | LastNamedBefore(layers, material, i, j) && j < |layers| && HasMaterial(material(layers[j]))
        ensures Relation(LayerId(wallGuid, layers, material, i), LayerId(wallGuid, layers, material, j), "InternallyConnected") in run.writes
      {
        PreviousIdLast(wallGuid, layers, material, j);
        LayerStepHas(wallGuid, layers, material, touching, j);
        WallRunHas(wallGuid, layers, material, touching, |layers|, j,
          Relation(LayerId(wallGuid, layers, material, i), LayerId(wallGuid, layers, material, j), "InternallyConnected"));
      }
    }
  }

  /** Each wall's chain starts afresh: its first named layer has no
    * `InternallyConnected` link into it. */
  lemma WallChainStart<L>(wallGuid: string, layers: seq<L>, material: L -> Option<string>,
                          touching: L -> Outcome<seq<string>>, j: nat, s: string)
    requires j < |layers| && HasMaterial(material(layers[j]))
    requires forall k :: 0 <= k < j ==> !HasMaterial(material(layers[k]))
    ensures Relation(s, LayerId(wallGuid, layers, material, j), "InternallyConnected")
      !in WallRun(wallGuid, layers, material, touching, |layers|).writes
  {
    var w := Relation(s, LayerId(wallGuid, layers, material, j), "InternallyConnected");
    if w in WallRun(wallGuid, layers, material, touching, |layers|).writes {
      WallRunFrom(wallGuid, layers, material, touching, |layers|, w);
      var i :| 0 <= i < |layers| && w in LayerStep(wallGuid, layers, material, touching, i).writes;
      LayerStepWrites(wallGuid, layers, material, touching, i, w);
      UniqueIdInjective(wallGuid, i, material(layers[i]).value, j, material(layers[j]).value);
      PreviousIdLast(wallGuid, layers, material, j);
      assert false;
    }
  }

  /** `IsFacing` links leave only the first and the last layer of a wall, and
    * go to rooms the test returned for that layer. */
  lemma WallFacing<L>(wallGuid: string, layers: seq<L>, material: L -> Option<string>,
                      touching: L -> Outcome<seq<string>>, s: string, room: string)
    requires Relation(s, room, "IsFacing") in WallRun(wallGuid, layers, material, touching, |layers|).writes
    ensures exists i ::
      && (i == 0 || i == |layers| - 1)
      && 0 <= i < |layers| && HasMaterial(material(layers[i]))
      && s == LayerId(wallGuid, layers, material, i)
      && touching(layers[i]).Returned? && room in touching(layers[i]).value
  {
    var w := Relation(s, room, "IsFacing");
    WallRunFrom(wallGuid, layers, material, touching, |layers|, w);
    var i :| 0 <= i < |layers| && w in LayerStep(wallGuid, layers, material, touching, i).writes;
    LayerStepWrites(wallGuid, layers, material, touching, i, w);
  }

  /** A wall whose tests all return finishes without an exception. */
  lemma {:induction false} WallRunReturns<L>(wallGuid: string, layers: seq<L>, material: L -> Option<string>,
                                             touching: L -> Outcome<seq<string>>, n: nat)
    requires n <= |layers| && forall k :: 0 <= k < |layers| ==> touching(layers[k]).Returned?
    ensures WallRun(wallGuid, layers, material, touching, n).raised.None?
    decreases n
  {
    if n > 0 {
      WallRunReturns(wallGuid, layers, material, touching, n - 1);
      assert touching(layers[n - 1]).Returned?;
    }
  }

  // ---------------------------------------------------------------------
  // What the whole loop writes

  lemma {:induction false} AllWallsFrom<L>(walls: seq<(string, seq<L>)>, material: L -> Option<string>,
                                           touchingIn: (string, L) -> Outcome<seq<string>>, w: LayerWrite)
    requires w in AllWalls(walls, material, touchingIn).writes
    ensures exists k ::
      && 0 <= k < |walls|
      && w in WallRun(walls[k].0, walls[k].1, material, TouchingOf(touchingIn, walls[k].0), |walls[k].1|).writes
    decreases |walls|
  {
    var init := walls[..|walls| - 1];
    var r := AllWalls(init, material, touchingIn);
    if r.raised.Some? || w in r.writes {
      AllWallsFrom(init, material, touchingIn, w);
      var k :| 0 <= k < |init| &&
        w in WallRun(init[k].0, init[k].1, material, TouchingOf(touchingIn, init[k].0), |init[k].1|).writes;
      assert init[k] == walls[k];
    }
  }

  lemma {:induction false} AllWallsHas<L>(walls: seq<(string, seq<L>)>, material: L -> Option<string>,
                                          touchingIn: (string, L) -> Outcome<seq<string>>, k: nat, w: LayerWrite)
    requires k < |walls| && AllWalls(walls, material, touchingIn).raised.None?
    requires w in WallRun(walls[k].0, walls[k].1, material, TouchingOf(touchingIn, walls[k].0), |walls[k].1|).writes
    ensures w in AllWalls(walls, material, touchingIn).writes
    decreases |walls|
  {
    var init := walls[..|walls| - 1];
    assert AllWalls(init, material, touchingIn).raised.None?;
    if k < |walls| - 1 {
      assert init[k] == walls[k];
      AllWallsHas(init, material, touchingIn, k, w);
    }
  }

  /** The whole loop finishes without an exception when every test returns. */
  lemma {:induction false} AllWallsReturns<L>(walls: seq<(string, seq<L>)>, material: L -> Option<string>,
                                              touchingIn: (string, L) -> Outcome<seq<string>>)
    requires forall wallGuid, layer :: touchingIn(wallGuid, layer).Returned?
    ensures AllWalls(walls, material, touchingIn).raised.None?
    decreases |walls|
  {
    if |walls| > 0 {
      var w := walls[|walls| - 1];
      AllWallsReturns(walls[..|walls| - 1], material, touchingIn);
      WallRunReturns(w.0, w.1, material, TouchingOf(touchingIn, w.0), |w.1|);
    }
  }

  /** `InternallyConnected` links never cross walls: both ends are layers of
    * the same wall entry, the source the last named layer before the target. */
  lemma AllWallsChain<L>(walls: seq<(string, seq<L>)>, material: L -> Option<string>,
                         touchingIn: (string, L) -> Outcome<seq<string>>, s: string, t: string)
    requires Relation(s, t, "InternallyConnected") in AllWalls(walls, material, touchingIn).writes
    ensures exists k, i, j ::
      && 0 <= k < |walls| && LastNamedBefore(walls[k].1, material, i, j)
      && j < |walls[k].1| && HasMaterial(material(walls[k].1[j]))
      && s == LayerId(walls[k].0, walls[k].1, material, i)
      && t == LayerId(walls[k].0, walls[k].1, material, j)
  {
    AllWallsFrom(walls, material, touchingIn, Relation(s, t, "InternallyConnected"));
    var k :| 0 <= k < |walls| && Relation(s, t, "InternallyConnected") in
      WallRun(walls[k].0, walls[k].1, material, TouchingOf(touchingIn, walls[k].0), |walls[k].1|).writes;
    WallChain(walls[k].0, walls[k].1, material, TouchingOf(touchingIn, walls[k].0), s, t);
  }

  // ---------------------------------------------------------------------
  // The three scripts

  /** The layer's merge against one room. */
  function MergeWith<L, R>(merge: (L, R) -> MergeOutcome, layer: L): R -> MergeOutcome
  {
    room => merge(layer, room)
  }

  /** The room test of `005A_EnrichtGraph_Alternative.py` and of the
    * deprecated `005_EnrichGraph2.py`: the layer against those rooms of the
    * wall's `ContainedIn` query (`roomsOf`) that have a topology in
    * `dic_spaces`, every exception of the merge caught. */
  function GuardedTouching<L, R>(roomsOf: string -> seq<string>, spaces: Dict<string, R>, merge: (L, R) -> MergeOutcome)
    : (string, L) -> Outcome<seq<string>>
    requires PyDict.Valid(spaces)
  {
    (wallGuid, layer) => RoomScan(SpaceFilters.RelevantRooms(roomsOf(wallGuid), spaces), RoomStepCaught(MergeWith(merge, layer)))
  }

  /** The room test of `09A_AddLayerInfostoNeo4j.py`: the layer against every
    * room of `dic_spaces`, whatever the wall, with no handler. */
  function UnguardedTouching<L, R>(spaces: Dict<string, R>, merge: (L, R) -> MergeOutcome): (string, L) -> Outcome<seq<string>>
  {
    (wallGuid, layer) => RoomScan(spaces, RoomStepUncaught(MergeWith(merge, layer)))
  }

  /** With the guarded test the loop never stops on an exception. */
  lemma GuardedNeverRaises<L, R>(walls: seq<(string, seq<L>)>, material: L -> Option<string>,
                                 roomsOf: string -> seq<string>, spaces: Dict<string, R>, merge: (L, R) -> MergeOutcome)
    requires PyDict.Valid(spaces)
    ensures AllWalls(walls, material, GuardedTouching(roomsOf, spaces, merge)).raised.None?
  {
    var touchingIn := GuardedTouching(roomsOf, spaces, merge);
    forall wallGuid, layer ensures touchingIn(wallGuid, layer).Returned? {
      FindTouchingRoomsCaughtResult(SpaceFilters.RelevantRooms(roomsOf(wallGuid), spaces), MergeWith(merge, layer));
    }
    AllWallsReturns(walls, material, touchingIn);
  }

  /** The guarded test's verdict: the room is one of the wall's rooms, has a
    * topology, and merges with the layer into two cells sharing a face. */
  predicate RoomFacing<L, R>(roomsOf: string -> seq<string>, spaces: Dict<string, R>, merge: (L, R) -> MergeOutcome,
                             wallGuid: string, layer: L, room: string)
  {
    room in roomsOf(wallGuid) && Get(spaces, room).Some? && Touches(merge(layer, Get(spaces, room).value))
  }

  lemma GuardedTouchingResult<L, R>(roomsOf: string -> seq<string>, spaces: Dict<string, R>, merge: (L, R) -> MergeOutcome,
                                    wallGuid: string, layer: L, room: string)
    requires PyDict.Valid(spaces)
    ensures GuardedTouching(roomsOf, spaces, merge)(wallGuid, layer).Returned?
    ensures room in GuardedTouching(roomsOf, spaces, merge)(wallGuid, layer).value <==>
      RoomFacing(roomsOf, spaces, merge, wallGuid, layer, room)
  {
    var rel := SpaceFilters.RelevantRooms(roomsOf(wallGuid), spaces);
    FindTouchingRoomsCaughtResult(rel, MergeWith(merge, layer));
    var found := RoomScan(rel, RoomStepCaught(MergeWith(merge, layer))).value;
    assert GuardedTouching(roomsOf, spaces, merge)(wallGuid, layer) == Returned(found);
    if room in found {
      var r :| 0 <= r < |rel| && rel[r].0 == room && Touches(merge(layer, rel[r].1));
      PyDict.GetAt(rel, r);
    }
    if RoomFacing(roomsOf, spaces, merge, wallGuid, layer, room) {
      var t := Get(spaces, room).value;
      assert Get(rel, room) == Some(t);
      var r :| 0 <= r < |rel| && rel[r] == (room, t);
    }
  }

  /** With the guarded test, the first or the last layer of a wall, when
    * named, faces exactly the rooms of RoomFacing. */
  lemma GuardedWallFacing<L, R>(wallGuid: string, layers: seq<L>, material: L -> Option<string>,
                                roomsOf: string -> seq<string>, spaces: Dict<string, R>, merge: (L, R) -> MergeOutcome,
                                i: nat, room: string)
    requires PyDict.Valid(spaces)
    requires i < |layers| && HasMaterial(material(layers[i])) && (i == 0 || i == |layers| - 1)
    ensures Relation(LayerId(wallGuid, layers, material, i), room, "IsFacing") in
      WallRun(wallGuid, layers, material, TouchingOf(GuardedTouching(roomsOf, spaces, merge), wallGuid), |layers|).writes
      <==> RoomFacing(roomsOf, spaces, merge, wallGuid, layers[i], room)
  {
    var touchingIn := GuardedTouching(roomsOf, spaces, merge);
    var touching := TouchingOf(touchingIn, wallGuid);
    var uid := LayerId(wallGuid, layers, material, i);
    var w := Relation(uid, room, "IsFacing");
    GuardedTouchingResult(roomsOf, spaces, merge, wallGuid, layers[i], room);
    assert touching(layers[i]) == touchingIn(wallGuid, layers[i]);
    if w in WallRun(wallGuid, layers, material, touching, |layers|).writes {
      WallFacing(wallGuid, layers, material, touching, uid, room);
      var i' :|
        && (i' == 0 || i' == |layers| - 1)
        && 0 <= i' < |layers| && HasMaterial(material(layers[i']))
        && uid == LayerId(wallGuid, layers, material, i')
        && touching(layers[i']).Returned? && room in touching(layers[i']).value;
      UniqueIdInjective(wallGuid, i, material(layers[i]).value, i', material(layers[i']).value);
    }
    if RoomFacing(roomsOf, spaces, merge, wallGuid, layers[i], room) {
      forall k | 0 <= k < |layers| ensures touching(layers[k]).Returned? {
        GuardedTouchingResult(roomsOf, spaces, merge, wallGuid, layers[k], room);
      }
      LayerStepHas(wallGuid, layers, material, touching, i);
      WallRunReturns(wallGuid, layers, material, touching, |layers|);
      WallRunHas(wallGuid, layers, material, touching, |layers|, i, w);
    }
  }

  /** The guarded scripts: every `IsFacing` link leaves the first or the last
    * named layer of some wall towards a room of RoomFacing for that wall and
    * layer, and every such pair is linked. */
  lemma GuardedFacing<L, R>(walls: seq<(string, seq<L>)>, material: L -> Option<string>,
                            roomsOf: string -> seq<string>, spaces: Dict<string, R>, merge: (L, R) -> MergeOutcome,
                            s: string, room: string)
    requires PyDict.Valid(spaces)
    ensures Relation(s, room, "IsFacing") in AllWalls(walls, material, GuardedTouching(roomsOf, spaces, merge)).writes ==>
      exists k, i ::
        && 0 <= k < |walls| && 0 <= i < |walls[k].1| && HasMaterial(material(walls[k].1[i]))
        && (i == 0 || i == |walls[k].1| - 1)
        && s == LayerId(walls[k].0, walls[k].1, material, i)
        && RoomFacing(roomsOf, spaces, merge, walls[k].0, walls[k].1[i], room)
    ensures forall k, i ::
      && 0 <= k < |walls| && 0 <= i < |walls[k].1| && HasMaterial(material(walls[k].1[i]))
      && (i == 0 || i == |walls[k].1| - 1)
      && RoomFacing(roomsOf, spaces, merge, walls[k].0, walls[k].1[i], room)
      ==> Relation(LayerId(walls[k].0, walls[k].1, material, i), room, "IsFacing")
            in AllWalls(walls, material, GuardedTouching(roomsOf, spaces, merge)).writes
  {
    var touchingIn := GuardedTouching(roomsOf, spaces, merge);
    var w := Relation(s, room, "IsFacing");
    if w in AllWalls(walls, material, touchingIn).writes {
      AllWallsFrom(walls, material, touchingIn, w);
      var k :| 0 <= k < |walls| &&
        w in WallRun(walls[k].0, walls[k].1, material, TouchingOf(touchingIn, walls[k].0), |walls[k].1|).writes;
      WallFacing(walls[k].0, walls[k].1, material, TouchingOf(touchingIn, walls[k].0), s, room);
      var i :|
        && (i == 0 || i == |walls[k].1| - 1)
        && 0 <= i < |walls[k].1| && HasMaterial(material(walls[k].1[i]))
        && s == LayerId(walls[k].0, walls[k].1, material, i)
        && TouchingOf(touchingIn, walls[k].0)(walls[k].1[i]).Returned?
        && room in TouchingOf(touchingIn, walls[k].0)(walls[k].1[i]).value;
      GuardedWallFacing(walls[k].0, walls[k].1, material, roomsOf, spaces, merge, i, room);
    }
    forall k, i |
      && 0 <= k < |walls| && 0 <= i < |walls[k].1| && HasMaterial(material(walls[k].1[i]))
      && (i == 0 || i == |walls[k].1| - 1)
      && RoomFacing(roomsOf, spaces, merge, walls[k].0, walls[k].1[i], room)
      ensures Relation(LayerId(walls[k].0, walls[k].1, material, i), room, "IsFacing")
            in AllWalls(walls, material, touchingIn).writes
    {
      GuardedWallFacing(walls[k].0, walls[k].1, material, roomsOf, spaces, merge, i, room);
      GuardedNeverRaises(walls, material, roomsOf, spaces, merge);
      AllWallsHas(walls, material, touchingIn, k, Relation(LayerId(walls[k].0, walls[k].1, material, i), room, "IsFacing"));
    }
  }

  /** With the unguarded test a single failing merge of the first wall's
    * first named layer ends the whole script: no later wall is processed. */
  lemma UnguardedFirstLayerRaises<L, R>(walls: seq<(string, seq<L>)>, material: L -> Option<string>,
                                        spaces: Dict<string, R>, merge: (L, R) -> MergeOutcome, r: nat)
    requires |walls| > 0 && |walls[0].1| > 0 && HasMaterial(material(walls[0].1[0]))
    requires r < |spaces| && !Touches(merge(walls[0].1[0], spaces[r].1))
    requires merge(walls[0].1[0], spaces[r].1).KernelRaised? || merge(walls[0].1[0], spaces[r].1).cellCount < 2
    ensures AllWalls(walls, material, UnguardedTouching(spaces, merge)).raised.Some?
  {
    var touchingIn := UnguardedTouching(spaces, merge);
    var layers := walls[0].1;
    var touching := TouchingOf(touchingIn, walls[0].0);
    FindTouchingRoomsUncaughtRaises(spaces, MergeWith(merge, layers[0]), r);
    assert touching(layers[0]).Raised?;
    assert WallRun(walls[0].0, layers, material, touching, 1).raised.Some?;
    WallRunRaisedStays(walls[0].0, layers, material, touching, 1, |layers|);
    AllWallsStep(walls, material, touchingIn, 0);
    AllWallsRaisedStays(walls, material, touchingIn, 1);
  }
}
