/**
 * `clean_indices_list`: the outer faces of an IfcPolygonalFaceSet are kept
 * only when none of their coordinate indices is used by an inner loop
 * (a void) of any face.
 */
module FaceIndices {
  import opened Common

  /** The void tuples laid end to end: `[i for tup in voids for i in tup]`. */
  function Flatten(voids: seq<seq<int>>): (flat: seq<int>)
    ensures forall x :: x in flat <==> exists k :: 0 <= k < |voids| && x in voids[k]
    decreases |voids|
  {
    if |voids| == 0 then []
    else
      var init := voids[..|voids| - 1];
      var flat := Flatten(init) + voids[|voids| - 1];
      assert forall k :: 0 <= k < |init| ==> init[k] == voids[k];
      flat
  }

  /** Some index of the face occurs in some void tuple. */
  predicate UsesVoid(indices: seq<int>, voids: seq<seq<int>>)
  {
    exists i :: 0 <= i < |indices| && indices[i] in Flatten(voids)
  }

  /** The filter's test as a function value. */
  function NoVoid(voids: seq<seq<int>>): seq<int> -> bool
  {
    indices => !UsesVoid(indices, voids)
  }

  /** `any(index in flat for index in indices)`, stopping at the first hit. */
  method AnyVoidIndex(indices: seq<int>, flat: seq<int>) returns (found: bool)
    ensures found <==> exists i :: 0 <= i < |indices| && indices[i] in flat
  {
    for i := 0 to |indices|
      invariant forall j :: 0 <= j < i ==> indices[j] !in flat
    {
      if indices[i] in flat {
        return true;
      }
    }
    return false;
  }

  /** `clean_indices_list` as the loop appends to `cleaned_indices_list`. */
  method CleanIndicesList(indicesList: seq<seq<int>>, voids: seq<seq<int>>) returns (cleaned: seq<seq<int>>)
    ensures cleaned == Keep(indicesList, NoVoid(voids))
  {
    cleaned := [];
    for k := 0 to |indicesList|
      invariant cleaned == Keep(indicesList[..k], NoVoid(voids))
    {
      assert indicesList[..k + 1][..k] == indicesList[..k];
      var hit := AnyVoidIndex(indicesList[k], Flatten(voids));
      if !hit {
        cleaned := cleaned + [indicesList[k]];
      }
    }
    assert indicesList[..|indicesList|] == indicesList;
  }

  /** A face is kept exactly when it is in the input and none of its indices
    * belongs to any void tuple. */
  lemma CleanIndicesMembers(indicesList: seq<seq<int>>, voids: seq<seq<int>>, face: seq<int>)
    ensures face in Keep(indicesList, NoVoid(voids)) <==>
      && face in indicesList
      && forall i, k :: 0 <= i < |face| && 0 <= k < |voids| ==> face[i] !in voids[k]
  {
    KeepMembers(indicesList, NoVoid(voids));
    if forall i, k :: 0 <= i < |face| && 0 <= k < |voids| ==> face[i] !in voids[k] {
      assert !UsesVoid(face, voids);
    }
  }

  /** The kept faces are the input's, in their order; a kept face occurs
    * as often as in the input, a face using a void not at all. */
  lemma CleanIndicesOrder(indicesList: seq<seq<int>>, voids: seq<seq<int>>, face: seq<int>)
    ensures IsSubsequence(Keep(indicesList, NoVoid(voids)), indicesList)
    ensures Count(Keep(indicesList, NoVoid(voids)), face) == if UsesVoid(face, voids) then 0 else Count(indicesList, face)
  {
    KeepSubsequence(indicesList, NoVoid(voids));
    KeepCount(indicesList, NoVoid(voids), face);
  }

  /** Without voids every face is kept; cleaning twice is cleaning once. */
  lemma CleanIndicesIdentityAndIdempotent(indicesList: seq<seq<int>>, voids: seq<seq<int>>)
    ensures Keep(indicesList, NoVoid([])) == indicesList
    ensures Keep(Keep(indicesList, NoVoid(voids)), NoVoid(voids)) == Keep(indicesList, NoVoid(voids))
  {
    KeepAll(indicesList, NoVoid([]));
    KeepIdempotent(indicesList, NoVoid(voids));
  }
}
