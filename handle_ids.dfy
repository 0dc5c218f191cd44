/**
 * The vertex-to-handle table `handle_id`: one entry per vertex, -1 for a
 * free vertex, otherwise the number of the handle the vertex belongs to.
 * This module states how applySelection rewrites the table and why the
 * handle numbers stay dense.
 */
module HandleIds {

  /** The id of a vertex that belongs to no handle. */
  const Free := -1

  function Max(a: int, b: int): int {
    if a < b then b else a
  }

  /** The largest entry of a non-empty table (Eigen's maxCoeff). */
  function MaxId(ids: seq<int>): (m: int)
    requires |ids| > 0
    ensures forall i :: 0 <= i < |ids| ==> ids[i] <= m
    ensures exists i :: 0 <= i < |ids| && ids[i] == m
  {
    if |ids| == 1 then ids[0]
    else
      var n := |ids| - 1;
      var m0 := MaxId(ids[..n]);
      assert exists i :: 0 <= i < n && ids[i] == m0 by {
        var i :| 0 <= i < n && ids[..n][i] == m0;
      }
      Max(m0, ids[n])
  }

  /** The id applySelection hands out: one more than the largest id in the table. */
  function NewHandleId(ids: seq<int>): (r: int)
    requires |ids| > 0
    ensures forall i :: 0 <= i < |ids| ==> ids[i] < r
    ensures exists i :: 0 <= i < |ids| && ids[i] == r - 1
  {
    MaxId(ids) + 1
  }

  /** Some vertex carries id h. */
  ghost predicate InUse(ids: seq<int>, h: int) {
    exists i :: 0 <= i < |ids| && ids[i] == h
  }

  /**
   * Every entry is Free or a handle number below k, and every handle
   * number below k is used: the handles are exactly 0..k-1.
   */
  ghost predicate Dense(ids: seq<int>, k: int) {
    && k >= 0
    && (forall i :: 0 <= i < |ids| ==> Free <= ids[i] < k)
    && (forall h :: 0 <= h < k ==> InUse(ids, h))
  }

  /** Every selected vertex is a vertex of the table. */
  predicate Selectable(ids: seq<int>, sel: seq<int>) {
    forall j :: 0 <= j < |sel| ==> 0 <= sel[j] < |ids|
  }

  /** Some selected vertex is still free, so the selection starts a new handle. */
  ghost predicate SelectsFree(ids: seq<int>, sel: seq<int>) {
    exists j :: 0 <= j < |sel| && 0 <= sel[j] < |ids| && ids[sel[j]] == Free
  }

  /**
   * The table after applySelection's loop has visited the selection in
   * order, writing `id` into every selected entry that is still Free.
   * The ensures say the result does not depend on that order: exactly the
   * selected free vertices get `id`; assigned vertices, unselected vertices
   * and repeated selections keep their entry.
   */
  function Assign(ids: seq<int>, sel: seq<int>, id: int): (r: seq<int>)
    requires Selectable(ids, sel)
    ensures |r| == |ids|
    ensures forall i :: 0 <= i < |ids| ==>
              r[i] == if ids[i] == Free && i in sel then id else ids[i]
  {
    if sel == [] then ids
    else
      var n := |sel| - 1;
      assert sel == sel[..n] + [sel[n]];
      var prev := Assign(ids, sel[..n], id);
      var s := sel[n];
      if prev[s] == Free then prev[s := id] else prev
  }

  /** A dense table of k handles has largest id k - 1, so the next handle is numbered k. */
  lemma DenseMaxId(ids: seq<int>, k: int)
    requires |ids| > 0 && Dense(ids, k)
    ensures MaxId(ids) == k - 1
    ensures NewHandleId(ids) == k
  {
    var m := MaxId(ids);
    var i :| 0 <= i < |ids| && ids[i] == m;
    if k > 0 {
      assert InUse(ids, k - 1);
      var j :| 0 <= j < |ids| && ids[j] == k - 1;
    }
  }

  /** On a table where every vertex is free the first handle gets number 0. */
  lemma FirstHandleIdIsZero(ids: seq<int>)
    requires |ids| > 0
    requires forall i :: 0 <= i < |ids| ==> ids[i] == Free
    ensures NewHandleId(ids) == 0
  {
    DenseMaxId(ids, 0);
  }

  /**
   * applySelection keeps the handle numbers dense: if they were 0..k-1,
   * afterwards they are 0..k when a selected vertex was free and still
   * 0..k-1 otherwise.
   */
  lemma {:induction false} AssignKeepsDense(ids: seq<int>, sel: seq<int>, k: int)
    requires |ids| > 0 && Selectable(ids, sel) && Dense(ids, k)
    ensures Dense(Assign(ids, sel, NewHandleId(ids)), if SelectsFree(ids, sel) then k + 1 else k)
  {
    DenseMaxId(ids, k);
    var r := Assign(ids, sel, k);
    var k' := if SelectsFree(ids, sel) then k + 1 else k;
    forall h | 0 <= h < k ensures InUse(r, h) {
      assert InUse(ids, h);
      var i :| 0 <= i < |ids| && ids[i] == h;
      assert r[i] == h;
    }
    if SelectsFree(ids, sel) {
      var j :| 0 <= j < |sel| && 0 <= sel[j] < |ids| && ids[sel[j]] == Free;
      assert r[sel[j]] == k;
      assert InUse(r, k);
    } else {
      assert forall i :: 0 <= i < |ids| ==> r[i] == ids[i];
    }
    assert Dense(r, k');
  }
}
