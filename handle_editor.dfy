/**
 * The state the deformation viewer keeps in globals (the mesh V and
 * V_original, the handle tables, the selection and the drag state) and
 * the callbacks that keep the handle tables consistent with each other.
 */
module HandleEditor {
  import opened Vec
  import opened HandleIds
  import opened HandleVertices
  import opened HandleRows
  import opened HandleCentroids

  datatype Option<T> = None | Some(value: T)

  /** What the viewer shows: which of V_original or the solver's outputs V is set to. */
  datatype ViewMode = Original | Smooth | DeformedSmooth | Deformed

  /** The entry points of the deformation solver solve can call, with the handle rows they receive. */
  datatype SolverCall =
    | SmoothMesh
    | DeformedSmoothMesh(targets: seq<Vec3>)
    | DeformedMesh(targets: seq<Vec3>)
    | DeformationTransferMesh(targets: seq<Vec3>)

  /** The solver entry solve calls for a view mode; None for ORIGINAL, which copies V_original instead. */
  function SolverCallFor(mode: ViewMode, transfer: bool, targets: seq<Vec3>): (r: Option<SolverCall>)
    ensures r.None? <==> mode == Original
    ensures r.Some? && !r.value.SmoothMesh? ==> r.value.targets == targets
    ensures r.Some? && r.value.DeformationTransferMesh? <==> mode == Deformed && transfer
  {
    match mode
    case Original => None
    case Smooth => Some(SmoothMesh)
    case DeformedSmooth => Some(DeformedSmoothMesh(targets))
    case Deformed => Some(if transfer then DeformationTransferMesh(targets) else DeformedMesh(targets))
  }

  /**
   * The loop of applySelection: each selected vertex that is still Free
   * gets `index`, in selection order.
   */
  method AssignSelected(ids: array<int>, sel: seq<int>, index: int)
    requires Selectable(ids[..], sel)
    modifies ids
    ensures ids[..] == Assign(old(ids[..]), sel, index)
  {
    var i := 0;
    while i < |sel|
      invariant 0 <= i <= |sel|
      invariant ids[..] == Assign(old(ids[..]), sel[..i], index)
    {
      assert sel[..i + 1][..i] == sel[..i];
      var s := sel[i];
      if ids[s] == Free {
        ids[s] := index;
      }
      i := i + 1;
    }
    assert sel[..i] == sel;
  }

  /**
   * The loop of onNewHandleID over the table `ids` and the rows of
   * V_original: size the list as #V minus the free vertices, then walk the
   * vertices with a cursor, recording each constrained vertex and its row.
   */
  method CollectHandleVertices(ids: seq<int>, vOriginal: seq<Vec3>) returns (hv: array<int>, rows: array<Vec3>)
    requires |ids| == |vOriginal|
    requires forall i :: 0 <= i < |ids| ==> ids[i] >= Free
    ensures fresh(hv) && fresh(rows)
    ensures hv[..] == Constrained(ids)
    ensures rows[..] == Gather(Constrained(ids), vOriginal)
  {
    ghost var c := Constrained(ids);
    var n := |ids|;
    var numFree := Count(ids, Free);
    ConstrainedLength(ids);
    hv := new int[n - numFree];
    rows := new Vec3[n - numFree];
    var count := 0;
    var vi := 0;
    while vi < n
      invariant 0 <= vi <= n && count == |Constrained(ids[..vi])| && count <= |c|
      invariant vi == n ==> count == |c|
      invariant forall j :: 0 <= j < count ==> hv[j] == c[j]
      invariant forall j :: 0 <= j < count ==> rows[j] == vOriginal[c[j]]
    {
      NextConstrained(ids, vi);
      if ids[vi] >= 0 {
        rows[count] := vOriginal[vi];
        hv[count] := vi;
        count := count + 1;
      }
      vi := vi + 1;
    }
    SameEntries(hv[..], c);
    GatherEntries(c, vOriginal, rows[..]);
  }

  /**
   * The loops of compute_handle_centroids for k handles: accumulate each
   * handle's position sum and vertex count, then divide sum by count.
   */
  method AverageHandles(ids: seq<int>, vs: seq<Vec3>, k: int) returns (centroids: array<Vec3>)
    requires |ids| == |vs| && Dense(ids, k)
    ensures fresh(centroids) && centroids.Length == k
    ensures forall h :: 0 <= h < k ==> Count(ids, h) > 0 && centroids[h] == Centroid(ids, vs, h)
  {
    centroids := new Vec3[k](_ => Zero);
    var num := new int[k](_ => 0);
    var vi := 0;
    while vi < |vs|
      invariant 0 <= vi <= |vs|
      invariant forall h :: 0 <= h < k ==> centroids[h] == SumOf(ids[..vi], vs[..vi], h)
      invariant forall h :: 0 <= h < k ==> num[h] == Count(ids[..vi], h)
    {
      assert ids[..vi + 1][..vi] == ids[..vi];
      assert vs[..vi + 1][..vi] == vs[..vi];
      var r := ids[vi];
      if r != Free {
        centroids[r] := Add(centroids[r], vs[vi]);
        num[r] := num[r] + 1;
      }
      vi := vi + 1;
    }
    assert ids[..vi] == ids;
    assert vs[..vi] == vs;
    DenseCountsPositive(ids, k);
    var i := 0;
    while i < k
      invariant 0 <= i <= k
      invariant forall h :: 0 <= h < i ==> centroids[h] == Centroid(ids, vs, h)
      invariant forall h :: i <= h < k ==> centroids[h] == SumOf(ids, vs, h) && num[h] == Count(ids, h)
    {
      centroids[i] := Div(centroids[i], num[i]);
      i := i + 1;
    }
  }

  /**
   * The loop of get_new_handle_locations: walk the vertices with a cursor
   * and write the goal position of each constrained vertex into `rows`.
   */
  method FillTargets(ids: seq<int>, vs: seq<Vec3>, drag: DragState, centroids: seq<Vec3>,
                     rotate: (Quat, Vec3) -> Vec3, rows: array<Vec3>)
    requires |ids| == |vs| && drag.moving < |centroids|
    requires rows.Length == |Constrained(ids)|
    modifies rows
    ensures rows[..] == Targets(ids, vs, drag, centroids, rotate)
  {
    ghost var c := Constrained(ids);
    var count := 0;
    var vi := 0;
    while vi < |vs|
      invariant 0 <= vi <= |vs| && count == |Constrained(ids[..vi])| && count <= |c|
      invariant vi == |vs| ==> count == |c|
      invariant forall j :: 0 <= j < count ==> rows[j] == Goal(ids[c[j]], vs[c[j]], drag, centroids, rotate)
    {
      NextConstrained(ids, vi);
      if ids[vi] >= 0 {
        var goal := vs[vi];
        if ids[vi] == drag.moving {
          if drag.mode == Translate {
            goal := Add(goal, drag.translation);
          } else if drag.mode == Rotate {
            var center := centroids[drag.moving];
            goal := Add(rotate(drag.rotation, Sub(goal, center)), center);
          }
        }
        rows[count] := goal;
        count := count + 1;
      }
      vi := vi + 1;
    }
    TargetEntries(ids, vs, drag, centroids, rotate, rows[..]);
  }

  /** igl::slice_into along rows: row hv[i] of vs becomes rows[i], for i = 0, 1, ... */
  method SliceInto(rows: seq<Vec3>, hv: seq<int>, vs: array<Vec3>)
    requires |rows| == |hv| && RowsOf(hv, vs.Length)
    modifies vs
    ensures vs[..] == Scatter(old(vs[..]), hv, rows)
  {
    ghost var v0 := vs[..];
    var i := 0;
    while i < |hv|
      invariant 0 <= i <= |hv|
      invariant vs[..] == Scatter(v0, hv[..i], rows[..i])
    {
      assert hv[..i + 1][..i] == hv[..i];
      assert rows[..i + 1][..i] == rows[..i];
      vs[hv[i]] := rows[i];
      i := i + 1;
    }
    assert hv[..i] == hv;
    assert rows[..i] == rows;
  }

  class Editor {
    /** Current and original vertex positions, #V rows. */
    var v: array<Vec3>
    var vOriginal: array<Vec3>
    /** Vertex-to-handle table, #V entries, Free for a free vertex. */
    var handleId: array<int>
    /** The constrained vertices, #HV entries, ascending. */
    var handleVertices: array<int>
    /** The target row of each constrained vertex, #HV rows. */
    var handleVertexPositions: array<Vec3>
    /** The centroid of each handle, #H rows. */
    var handleCentroids: array<Vec3>
    /** The vertices of the current selection. */
    var selected: seq<int>
    /** The handle being dragged, or -1. */
    var movingHandle: int
    var translation: Vec3
    var rotation: Quat
    var mouseMode: MouseMode
    var viewMode: ViewMode
    var useDeformationTransfer: bool
    var needsSolve: bool
    /** Whether a mouse press started a stroke or a drag (`doit`). */
    var dragging: bool
    /** The number of handles #H. */
    ghost var numHandles: nat

    /** The array fields, so that a method can promise not to replace them. */
    function Arrays(): (array<Vec3>, array<Vec3>, array<int>, array<int>, array<Vec3>, array<Vec3>)
      reads this
    {
      (v, vOriginal, handleId, handleVertices, handleVertexPositions, handleCentroids)
    }

    /** The drag state read by get_new_handle_locations. */
    function Drag(): DragState
      reads this
    {
      DragState(movingHandle, mouseMode, translation, rotation)
    }

    /**
     * The part of the invariant that holds at every step: non-empty mesh,
     * distinct buffers, dense handle ids, and a moving handle and a
     * selection that index into the tables.
     */
    ghost predicate Core()
      reads this`v, this`vOriginal, this`handleId, this`handleVertices, this`handleVertexPositions
      reads this`handleCentroids, this`numHandles, this`movingHandle, this`selected, handleId
    {
      && v.Length > 0
      && vOriginal.Length == v.Length && handleId.Length == v.Length
      && v != vOriginal && v != handleVertexPositions && v != handleCentroids
      && vOriginal != handleVertexPositions && vOriginal != handleCentroids
      && handleVertexPositions != handleCentroids
      && handleId != handleVertices
      && Dense(handleId[..], numHandles)
      && -1 <= movingHandle < numHandles
      && Selectable(handleId[..], selected)
    }

    /**
     * The full invariant: handle_vertices lists the constrained vertices in
     * ascending order, one target row per constrained vertex, one centroid
     * row per handle.
     */
    ghost predicate Valid()
      reads this`v, this`vOriginal, this`handleId, this`handleVertices, this`handleVertexPositions
      reads this`handleCentroids, this`numHandles, this`movingHandle, this`selected, handleId, handleVertices
    {
      && Core()
      && handleVertices[..] == Constrained(handleId[..])
      && handleVertexPositions.Length == handleVertices.Length
      && handleCentroids.Length == numHandles
    }

    /** The initial globals followed by load_mesh: every vertex free, no handles, V_original = V. */
    constructor (mesh: seq<Vec3>)
      requires |mesh| > 0
      ensures Valid()
      ensures v[..] == mesh && vOriginal[..] == mesh
      ensures forall i :: 0 <= i < handleId.Length ==> handleId[i] == Free
      ensures handleVertices.Length == 0 && handleVertexPositions.Length == 0 && numHandles == 0
      ensures selected == [] && movingHandle == -1 && translation == Zero && rotation == Identity
      ensures mouseMode == Idle && viewMode == Original
      ensures !useDeformationTransfer && !needsSolve && !dragging
      ensures fresh(v) && fresh(vOriginal) && fresh(handleId)
      ensures fresh(handleVertices) && fresh(handleVertexPositions) && fresh(handleCentroids)
    {
      v := new Vec3[|mesh|](i requires 0 <= i < |mesh| => mesh[i]);
      vOriginal := new Vec3[|mesh|](i requires 0 <= i < |mesh| => mesh[i]);
      handleId := new int[|mesh|](_ => Free);
      handleVertices := new int[0];
      handleVertexPositions := new Vec3[0];
      handleCentroids := new Vec3[0];
      selected := [];
      movingHandle := -1;
      translation := Zero;
      rotation := Identity;
      mouseMode := Idle;
      viewMode := Original;
      useDeformationTransfer := false;
      needsSolve := false;
      dragging := false;
      numHandles := 0;
      new;
      AllFreeTable(handleId[..]);
    }

    /** The "Mouse Mode" combo box. */
    method SetMouseMode(mode: MouseMode)
      requires Valid()
      modifies this
      ensures Valid() && Arrays() == old(Arrays())
      ensures mouseMode == mode
      ensures Drag() == old(Drag()).(mode := mode)
      ensures selected == old(selected) && viewMode == old(viewMode) && needsSolve == old(needsSolve)
      ensures dragging == old(dragging) && numHandles == old(numHandles)
      ensures useDeformationTransfer == old(useDeformationTransfer)
    {
      mouseMode := mode;
    }

    /** The "View Mode" combo box: a new view mode asks for a solve. */
    method SetViewMode(mode: ViewMode)
      requires Valid()
      modifies this
      ensures Valid() && Arrays() == old(Arrays())
      ensures viewMode == mode && needsSolve
      ensures Drag() == old(Drag()) && selected == old(selected)
      ensures dragging == old(dragging) && numHandles == old(numHandles)
      ensures useDeformationTransfer == old(useDeformationTransfer)
    {
      viewMode := mode;
      needsSolve := true;
    }

    /** The "Deformation Transfer" checkbox: a toggle asks for a solve. */
    method SetDeformationTransfer(on: bool)
      requires Valid()
      modifies this
      ensures Valid() && Arrays() == old(Arrays())
      ensures useDeformationTransfer == on && needsSolve
      ensures Drag() == old(Drag()) && selected == old(selected) && viewMode == old(viewMode)
      ensures dragging == old(dragging) && numHandles == old(numHandles)
    {
      useDeformationTransfer := on;
      needsSolve := true;
    }

    /** The "Clear Selection" button. */
    method ClearSelection()
      requires Valid()
      modifies this
      ensures Valid() && Arrays() == old(Arrays())
      ensures selected == []
      ensures Drag() == old(Drag()) && viewMode == old(viewMode) && needsSolve == old(needsSolve)
      ensures dragging == old(dragging) && numHandles == old(numHandles)
      ensures useDeformationTransfer == old(useDeformationTransfer)
    {
      selected := [];
    }

    /**
     * applySelection: every selected vertex that is still free joins a new
     * handle numbered one past the largest id; the selection is emptied and
     * the handle tables are rebuilt.
     */
    method ApplySelection()
      requires Valid()
      modifies this, handleId, v
      ensures Valid()
      ensures v == old(v) && vOriginal == old(vOriginal) && handleId == old(handleId)
      ensures handleId[..] == Assign(old(handleId[..]), old(selected), old(NewHandleId(handleId[..])))
      ensures numHandles == if old(SelectsFree(handleId[..], selected)) then old(numHandles) + 1 else old(numHandles)
      ensures selected == []
      ensures fresh(handleVertices) && fresh(handleVertexPositions) && fresh(handleCentroids)
      ensures handleVertexPositions[..] == Gather(handleVertices[..], vOriginal[..])
      ensures v[..] == vOriginal[..]
      ensures forall h :: 0 <= h < numHandles ==>
                Count(handleId[..], h) > 0 && handleCentroids[h] == Centroid(handleId[..], v[..], h)
      ensures Drag() == old(Drag()) && viewMode == old(viewMode) && needsSolve == old(needsSolve)
      ensures dragging == old(dragging) && useDeformationTransfer == old(useDeformationTransfer)
    {
      var index := MaxId(handleId[..]) + 1;
      ghost var ids0 := handleId[..];
      AssignKeepsDense(ids0, selected, numHandles);
      DenseMaxId(ids0, numHandles);
      AssignSelected(handleId, selected, index);
      ghost var ids1 := handleId[..];
      numHandles := if SelectsFree(ids0, selected) then numHandles + 1 else numHandles;
      selected := [];
      assert handleId[..] == ids1;
      OnNewHandleId();
    }

    /**
     * onNewHandleID: rebuild handle_vertices (the constrained vertices in
     * ascending order) and their rows of V_original, reset V to V_original
     * and recompute the centroids.
     */
    method OnNewHandleId()
      requires Core()
      modifies this, v
      ensures Valid()
      ensures v == old(v) && vOriginal == old(vOriginal) && handleId == old(handleId)
      ensures fresh(handleVertices) && fresh(handleVertexPositions) && fresh(handleCentroids)
      ensures handleVertexPositions[..] == Gather(handleVertices[..], vOriginal[..])
      ensures v[..] == vOriginal[..]
      ensures forall h :: 0 <= h < numHandles ==>
                Count(handleId[..], h) > 0 && handleCentroids[h] == Centroid(handleId[..], v[..], h)
      ensures numHandles == old(numHandles) && selected == old(selected)
      ensures Drag() == old(Drag()) && viewMode == old(viewMode) && needsSolve == old(needsSolve)
      ensures dragging == old(dragging) && useDeformationTransfer == old(useDeformationTransfer)
    {
      ghost var ids := handleId[..];
      handleVertices, handleVertexPositions := CollectHandleVertices(handleId[..], vOriginal[..]);
      forall i | 0 <= i < v.Length {
        v[i] := vOriginal[i];
      }
      assert handleId[..] == ids;
      ComputeHandleCentroids();
    }

    /**
     * compute_handle_centroids: count the vertices of each handle, sum
     * their positions, and divide each sum by its count.
     */
    method ComputeHandleCentroids()
      requires Core()
      modifies this
      ensures Core() && Arrays() == old(Arrays()).(5 := handleCentroids)
      ensures fresh(handleCentroids) && handleCentroids.Length == numHandles
      ensures forall h :: 0 <= h < numHandles ==>
                Count(handleId[..], h) > 0 && handleCentroids[h] == Centroid(handleId[..], v[..], h)
      ensures numHandles == old(numHandles) && selected == old(selected)
      ensures Drag() == old(Drag()) && viewMode == old(viewMode) && needsSolve == old(needsSolve)
      ensures dragging == old(dragging) && useDeformationTransfer == old(useDeformationTransfer)
    {
      DenseMaxId(handleId[..], numHandles);
      var k := MaxId(handleId[..]) + 1;
      handleCentroids := AverageHandles(handleId[..], v[..], k);
    }

    /**
     * get_new_handle_locations: one row per constrained vertex, in
     * ascending vertex order, holding the vertex's goal position under the
     * current drag.
     */
    method GetNewHandleLocations(rotate: (Quat, Vec3) -> Vec3)
      requires Valid()
      modifies handleVertexPositions
      ensures Valid()
      ensures handleVertexPositions[..] == Targets(handleId[..], v[..], Drag(), handleCentroids[..], rotate)
    {
      FillTargets(handleId[..], v[..], Drag(), handleCentroids[..], rotate, handleVertexPositions);
    }

    /**
     * The scatter at the top of solve (igl::slice_into): row
     * handle_vertices[i] of V becomes target row i; free vertices keep
     * their rows.
     */
    method ScatterHandleRows()
      requires Valid()
      modifies v
      ensures Valid()
      ensures v[..] == Scatter(old(v[..]), handleVertices[..], handleVertexPositions[..])
      ensures forall i :: 0 <= i < handleVertices.Length ==> v[handleVertices[i]] == handleVertexPositions[i]
      ensures forall j :: 0 <= j < v.Length && handleId[j] == Free ==> v[j] == old(v[j])
    {
      SliceInto(handleVertexPositions[..], handleVertices[..], v);
      ConstrainedSound(handleId[..]);
      ScatterAt(old(v[..]), handleVertices[..], handleVertexPositions[..]);
    }

    /**
     * solve: scatter the target rows into V, then set V to V_original
     * (ORIGINAL) or to what the solver entry for the view mode returns;
     * `solver` stands for the deformation solver.
     */
    method Solve(solver: SolverCall -> seq<Vec3>) returns (ok: bool)
      requires Valid()
      requires SolverCallFor(viewMode, useDeformationTransfer, handleVertexPositions[..]).Some? ==>
                 |solver(SolverCallFor(viewMode, useDeformationTransfer, handleVertexPositions[..]).value)| == v.Length
      modifies this, v
      ensures Valid() && Arrays() == old(Arrays())
      ensures ok && !needsSolve
      ensures v[..] == match SolverCallFor(viewMode, useDeformationTransfer, handleVertexPositions[..])
                       case None => vOriginal[..]
                       case Some(call) => solver(call)
      ensures Drag() == old(Drag()) && viewMode == old(viewMode) && selected == old(selected)
      ensures dragging == old(dragging) && numHandles == old(numHandles)
      ensures useDeformationTransfer == old(useDeformationTransfer)
    {
      ScatterHandleRows();
      var call := SolverCallFor(viewMode, useDeformationTransfer, handleVertexPositions[..]);
      var rows := if call.None? then vOriginal[..] else solver(call.value);
      needsSolve := false;
      ghost var targets, original := handleVertexPositions[..], vOriginal[..];
      forall i | 0 <= i < v.Length {
        v[i] := rows[i];
      }
      assert v[..] == rows;
      assert handleVertexPositions[..] == targets && vOriginal[..] == original;
      ok := true;
    }

    /** callback_pre_draw, as far as the mesh goes: a pending solve is run before drawing. */
    method PreDraw(solver: SolverCall -> seq<Vec3>)
      requires Valid()
      requires SolverCallFor(viewMode, useDeformationTransfer, handleVertexPositions[..]).Some? ==>
                 |solver(SolverCallFor(viewMode, useDeformationTransfer, handleVertexPositions[..]).value)| == v.Length
      modifies this, v
      ensures Valid() && Arrays() == old(Arrays()) && !needsSolve
      ensures old(needsSolve) ==>
                v[..] == match SolverCallFor(viewMode, useDeformationTransfer, handleVertexPositions[..])
                         case None => vOriginal[..]
                         case Some(call) => solver(call)
      ensures !old(needsSolve) ==> v[..] == old(v[..])
      ensures Drag() == old(Drag()) && viewMode == old(viewMode) && selected == old(selected)
      ensures dragging == old(dragging) && numHandles == old(numHandles)
      ensures useDeformationTransfer == old(useDeformationTransfer)
    {
      if needsSolve {
        var _ := Solve(solver);
      }
    }

    /**
     * callback_mouse_down. `picked` is the vertex under the cursor (or -1)
     * and `strokeStarted` whether the lasso accepted the first stroke point.
     * In TRANSLATE or ROTATE mode a press on a handle vertex makes that
     * handle the moving one and recomputes the target rows.
     */
    method MouseDown(rightButton: bool, picked: int, strokeStarted: bool, rotate: (Quat, Vec3) -> Vec3)
      returns (handled: bool)
      requires Valid()
      requires picked < v.Length
      modifies this, handleVertexPositions
      ensures Valid() && Arrays() == old(Arrays())
      ensures var grab := !rightButton && (mouseMode == Translate || mouseMode == Rotate)
                          && picked >= 0 && handleId[picked] >= 0;
              && movingHandle == (if grab then handleId[picked] else old(movingHandle))
              && (grab ==> handleVertexPositions[..] == Targets(handleId[..], v[..], Drag(), handleCentroids[..], rotate))
              && (!grab ==> handleVertexPositions[..] == old(handleVertexPositions[..]))
              && dragging == (old(dragging) || grab || (!rightButton && mouseMode == Select && strokeStarted))
      ensures handled == (!rightButton && dragging)
      ensures mouseMode == old(mouseMode) && translation == old(translation) && rotation == old(rotation)
      ensures selected == old(selected) && viewMode == old(viewMode) && needsSolve == old(needsSolve)
      ensures numHandles == old(numHandles) && useDeformationTransfer == old(useDeformationTransfer)
    {
      if rightButton {
        return false;
      }
      if mouseMode == Select {
        if strokeStarted {
          dragging := true;
        }
      } else if mouseMode == Translate || mouseMode == Rotate {
        if picked >= 0 && handleId[picked] >= 0 {
          movingHandle := handleId[picked];
          dragging := true;
          GetNewHandleLocations(rotate);
        }
      }
      handled := dragging;
    }

    /**
     * Whether callback_mouse_move, as written, reads the centroid row of
     * the moving handle: a press that is still down in TRANSLATE or ROTATE
     * mode.
     */
    predicate ReadsCentroidRow()
      reads this`dragging, this`mouseMode
    {
      dragging && (mouseMode == Translate || mouseMode == Rotate)
    }

    /** Whether moving_handle names a row of handle_centroids. */
    predicate CentroidRowInRange()
      reads this`movingHandle, this`handleCentroids
    {
      0 <= movingHandle < handleCentroids.Length
    }

    /**
     * callback_mouse_move during a drag: the new translation `t` (TRANSLATE)
     * or rotation `q` (ROTATE), as the camera code computed it from the
     * moving handle's centroid, is stored, the target rows are recomputed
     * and a solve is requested. Unlike the callback as written, nothing is
     * moved when no handle was grabbed (moving_handle == -1), since there is
     * then no centroid row to read; the press is still reported as handled.
     */
    method MouseMove(t: Vec3, q: Quat, rotate: (Quat, Vec3) -> Vec3) returns (handled: bool)
      requires Valid()
      modifies this, handleVertexPositions
      ensures Valid() && Arrays() == old(Arrays())
      ensures var drags := old(dragging) && (mouseMode == Translate || mouseMode == Rotate) && movingHandle >= 0;
              && (drags ==> CentroidRowInRange())
              && handled == (old(dragging) && mouseMode != Idle)
              && translation == (if drags && mouseMode == Translate then t else old(translation))
              && rotation == (if drags && mouseMode == Rotate then q else old(rotation))
              && (drags ==> handleVertexPositions[..] == Targets(handleId[..], v[..], Drag(), handleCentroids[..], rotate))
              && (!drags ==> handleVertexPositions[..] == old(handleVertexPositions[..]))
              && needsSolve == (old(needsSolve) || drags)
      ensures movingHandle == old(movingHandle) && mouseMode == old(mouseMode) && dragging == old(dragging)
      ensures selected == old(selected) && viewMode == old(viewMode)
      ensures numHandles == old(numHandles) && useDeformationTransfer == old(useDeformationTransfer)
    {
      handled := false;
      if dragging && mouseMode == Select {
        handled := true;
      } else if dragging && (mouseMode == Translate || mouseMode == Rotate) {
        handled := true;
        if movingHandle < 0 {
          return;
        }
        if mouseMode == Translate {
          translation := t;
        } else {
          rotation := q;
        }
        needsSolve := true;
        GetNewHandleLocations(rotate);
      }
    }

    /**
     * callback_mouse_up: ends a stroke (the lasso's `stroke` becomes the
     * selection) or a drag (translation zero, rotation the identity, no
     * moving handle, centroids recomputed).
     */
    method MouseUp(stroke: seq<int>) returns (handled: bool)
      requires Valid()
      requires Selectable(handleId[..], stroke)
      modifies this
      ensures Valid() && Arrays() == old(Arrays()).(5 := handleCentroids)
      ensures !dragging && handled == (old(dragging) && mouseMode != Idle)
      ensures selected == if old(dragging) && mouseMode == Select then stroke else old(selected)
      ensures var ends := old(dragging) && (mouseMode == Translate || mouseMode == Rotate);
              && (ends ==> movingHandle == -1 && translation == Zero && rotation == Identity)
              && (ends ==> forall h :: 0 <= h < numHandles ==>
                             Count(handleId[..], h) > 0 && handleCentroids[h] == Centroid(handleId[..], v[..], h))
              && (!ends ==> Drag() == old(Drag()) && handleCentroids == old(handleCentroids))
      ensures mouseMode == old(mouseMode) && viewMode == old(viewMode) && needsSolve == old(needsSolve)
      ensures numHandles == old(numHandles) && useDeformationTransfer == old(useDeformationTransfer)
    {
      handled := false;
      if dragging {
        dragging := false;
        if mouseMode == Select {
          selected := stroke;
          handled := true;
        } else if mouseMode == Translate || mouseMode == Rotate {
          translation := Zero;
          rotation := Identity;
          movingHandle := -1;
          handled := true;
          ComputeHandleCentroids();
        }
      }
    }
  }

  /**
   * The sequence that reaches the out-of-range read in callback_mouse_move
   * as written: load a mesh, pick SELECT, press where the lasso starts a
   * stroke, then switch to TRANSLATE with Alt-T while the button is still
   * down. The next mouse move reads handle_centroids.row(moving_handle)
   * with moving_handle == -1 and no centroid rows.
   */
  method StrokeThenTranslateMode(mesh: seq<Vec3>, rotate: (Quat, Vec3) -> Vec3) returns (e: Editor)
    requires |mesh| > 0
    ensures e.Valid() && e.ReadsCentroidRow() && !e.CentroidRowInRange()
    ensures e.movingHandle == -1 && e.handleCentroids.Length == 0
  {
    e := new Editor(mesh);
    e.SetMouseMode(Select);
    var _ := e.MouseDown(false, -1, true, rotate);
    e.SetMouseMode(Translate);
  }
}
