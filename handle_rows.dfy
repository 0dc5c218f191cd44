/**
 * The per-constrained-vertex rows `handle_vertex_positions`: how they are
 * gathered from a position matrix (onNewHandleID, get_new_handle_locations)
 * and scattered back into V (the igl::slice_into at the top of solve).
 */
module HandleRows {
  import opened Vec
  import opened HandleIds
  import opened HandleVertices

  /** The mouse modes of the viewer (NONE is spelled Idle here). */
  datatype MouseMode = Select | Translate | Rotate | Idle

  /** The state of a drag: the handle being moved, the mode, and the current translation and rotation. */
  datatype DragState = DragState(moving: int, mode: MouseMode, translation: Vec3, rotation: Quat)

  /** Every entry of hv indexes a row of a matrix with n rows. */
  predicate RowsOf(hv: seq<int>, n: int) {
    forall i :: 0 <= i < |hv| ==> 0 <= hv[i] < n
  }

  /** Row i of the result is row hv[i] of vs. */
  function Gather(hv: seq<int>, vs: seq<Vec3>): (rows: seq<Vec3>)
    requires RowsOf(hv, |vs|)
    ensures |rows| == |hv|
  {
    seq(|hv|, i requires 0 <= i < |hv| => vs[hv[i]])
  }

  /** Rows that agree entry by entry with the gathered rows are the gathered rows. */
  lemma GatherEntries(hv: seq<int>, vs: seq<Vec3>, rows: seq<Vec3>)
    requires RowsOf(hv, |vs|) && |rows| == |hv|
    requires forall j :: 0 <= j < |hv| ==> rows[j] == vs[hv[j]]
    ensures rows == Gather(hv, vs)
  {
  }

  /**
   * igl::slice_into along rows: vs with row hv[i] overwritten by rows[i],
   * written in the order i = 0, 1, ...
   */
  function Scatter(vs: seq<Vec3>, hv: seq<int>, rows: seq<Vec3>): (r: seq<Vec3>)
    requires |rows| == |hv| && RowsOf(hv, |vs|)
    ensures |r| == |vs|
  {
    if hv == [] then vs
    else
      var n := |hv| - 1;
      Scatter(vs, hv[..n], rows[..n])[hv[n] := rows[n]]
  }

  /** Rows whose index is not on the list keep their value. */
  lemma {:induction false} ScatterMisses(vs: seq<Vec3>, hv: seq<int>, rows: seq<Vec3>)
    requires |rows| == |hv| && RowsOf(hv, |vs|)
    ensures forall j :: 0 <= j < |vs| && j !in hv ==> Scatter(vs, hv, rows)[j] == vs[j]
  {
    if hv != [] {
      var n := |hv| - 1;
      ScatterMisses(vs, hv[..n], rows[..n]);
      assert forall j :: j in hv[..n] ==> j in hv;
    }
  }

  /** With no index repeated, row hv[i] of the scatter is rows[i]. */
  lemma {:induction false} ScatterHits(vs: seq<Vec3>, hv: seq<int>, rows: seq<Vec3>)
    requires |rows| == |hv| && RowsOf(hv, |vs|) && Increasing(hv)
    ensures forall i :: 0 <= i < |hv| ==> Scatter(vs, hv, rows)[hv[i]] == rows[i]
  {
    if hv != [] {
      var n := |hv| - 1;
      ScatterHits(vs, hv[..n], rows[..n]);
      assert forall i :: 0 <= i < n ==> hv[..n][i] == hv[i] && rows[..n][i] == rows[i];
    }
  }

  /**
   * With no index repeated, the scatter puts rows[i] at row hv[i] and
   * leaves every other row as it was.
   */
  lemma {:induction false} ScatterAt(vs: seq<Vec3>, hv: seq<int>, rows: seq<Vec3>)
    requires |rows| == |hv| && RowsOf(hv, |vs|) && Increasing(hv)
    ensures forall i :: 0 <= i < |hv| ==> Scatter(vs, hv, rows)[hv[i]] == rows[i]
    ensures forall j :: 0 <= j < |vs| && j !in hv ==> Scatter(vs, hv, rows)[j] == vs[j]
  {
    ScatterHits(vs, hv, rows);
    ScatterMisses(vs, hv, rows);
  }

  /** Reading back the rows just scattered gives them unchanged. */
  lemma {:induction false} GatherScatter(vs: seq<Vec3>, hv: seq<int>, rows: seq<Vec3>)
    requires |rows| == |hv| && RowsOf(hv, |vs|) && Increasing(hv)
    ensures Gather(hv, Scatter(vs, hv, rows)) == rows
  {
    ScatterAt(vs, hv, rows);
  }

  /** Scattering rows gathered from vs itself leaves vs unchanged. */
  lemma ScatterGather(vs: seq<Vec3>, hv: seq<int>)
    requires RowsOf(hv, |vs|) && Increasing(hv)
    ensures Scatter(vs, hv, Gather(hv, vs)) == vs
  {
    ScatterAt(vs, hv, Gather(hv, vs));
    var r := Scatter(vs, hv, Gather(hv, vs));
    forall j | 0 <= j < |vs| ensures r[j] == vs[j] {
      if j in hv {
        var i :| 0 <= i < |hv| && hv[i] == j;
      }
    }
  }

  /**
   * The goal position get_new_handle_locations computes for a constrained
   * vertex with id `id` at position p: the moving handle is translated, or
   * rotated about its centroid by `rotate` (igl::rotate_by_quat); every
   * other handle stays where it is.
   */
  function Goal(id: int, p: Vec3, drag: DragState, centroids: seq<Vec3>, rotate: (Quat, Vec3) -> Vec3): (r: Vec3)
    requires id >= 0 && id == drag.moving ==> id < |centroids|
    ensures r != p ==> id >= 0 && id == drag.moving && (drag.mode == Translate || drag.mode == Rotate)
  {
    if id >= 0 && id == drag.moving then
      match drag.mode
      case Translate => Add(p, drag.translation)
      case Rotate => Add(rotate(drag.rotation, Sub(p, centroids[id])), centroids[id])
      case _ => p
    else p
  }

  /** One goal row per constrained vertex, in the order of Constrained(ids). */
  function Targets(ids: seq<int>, vs: seq<Vec3>, drag: DragState, centroids: seq<Vec3>,
                   rotate: (Quat, Vec3) -> Vec3): (rows: seq<Vec3>)
    requires |vs| == |ids| && drag.moving < |centroids|
    ensures |rows| == |Constrained(ids)|
  {
    var hv := Constrained(ids);
    seq(|hv|, i requires 0 <= i < |hv| => Goal(ids[hv[i]], vs[hv[i]], drag, centroids, rotate))
  }

  /** Rows that agree entry by entry with the goal rows are the targets. */
  lemma TargetEntries(ids: seq<int>, vs: seq<Vec3>, drag: DragState, centroids: seq<Vec3>,
                      rotate: (Quat, Vec3) -> Vec3, rows: seq<Vec3>)
    requires |vs| == |ids| && drag.moving < |centroids| && |rows| == |Constrained(ids)|
    requires forall j :: 0 <= j < |rows| ==>
               rows[j] == Goal(ids[Constrained(ids)[j]], vs[Constrained(ids)[j]], drag, centroids, rotate)
    ensures rows == Targets(ids, vs, drag, centroids, rotate)
  {
  }

  /**
   * Scattering the drag targets back into the mesh moves each constrained
   * vertex to its goal and leaves every free vertex where it was.
   */
  lemma ScatterTargets(ids: seq<int>, vs: seq<Vec3>, drag: DragState, centroids: seq<Vec3>,
                       rotate: (Quat, Vec3) -> Vec3)
    requires |vs| == |ids| && drag.moving < |centroids|
    ensures forall j :: 0 <= j < |vs| ==>
              Scatter(vs, Constrained(ids), Targets(ids, vs, drag, centroids, rotate))[j]
              == if ids[j] >= 0 then Goal(ids[j], vs[j], drag, centroids, rotate) else vs[j]
  {
    var hv := Constrained(ids);
    var rows := Targets(ids, vs, drag, centroids, rotate);
    ConstrainedSound(ids);
    ScatterAt(vs, hv, rows);
    forall j | 0 <= j < |vs| && ids[j] >= 0
      ensures Scatter(vs, hv, rows)[j] == Goal(ids[j], vs[j], drag, centroids, rotate)
    {
      ConstrainedComplete(ids, j);
      var i :| 0 <= i < |hv| && hv[i] == j;
    }
  }

  /**
   * A translation drag followed by the scatter of solve moves exactly the
   * vertices of the dragged handle, each by the translation.
   */
  lemma TranslateDragMovesOnlyMovingHandle(ids: seq<int>, vs: seq<Vec3>, drag: DragState,
                                           centroids: seq<Vec3>, rotate: (Quat, Vec3) -> Vec3)
    requires |vs| == |ids| && drag.moving < |centroids|
    requires drag.mode == Translate && drag.moving >= 0
    ensures forall j :: 0 <= j < |vs| ==>
              Scatter(vs, Constrained(ids), Targets(ids, vs, drag, centroids, rotate))[j]
              == if ids[j] == drag.moving then Add(vs[j], drag.translation) else vs[j]
  {
    ScatterTargets(ids, vs, drag, centroids, rotate);
  }

  /**
   * With no handle being moved, or in a mode other than TRANSLATE and
   * ROTATE, the targets scatter back to the very mesh they came from.
   */
  lemma IdleDragKeepsMesh(ids: seq<int>, vs: seq<Vec3>, drag: DragState,
                          centroids: seq<Vec3>, rotate: (Quat, Vec3) -> Vec3)
    requires |vs| == |ids| && drag.moving < |centroids|
    requires drag.moving < 0 || drag.mode == Select || drag.mode == Idle
    ensures Scatter(vs, Constrained(ids), Targets(ids, vs, drag, centroids, rotate)) == vs
  {
    ScatterTargets(ids, vs, drag, centroids, rotate);
  }
}
