# Handle bookkeeping of the assignment-5 deformation viewer

The viewer in `assignment5/src/main.cpp` lets the user lasso vertices of a
mesh, turn the selection into a *handle*, and drag handles around while a
deformation solver recomputes the mesh. Around the solver it keeps a few
integer-indexed tables in globals:

- `handle_id`: one entry per vertex, `-1` for a free vertex, otherwise the
  number of the handle the vertex belongs to;
- `handle_vertices`: the constrained vertices, in ascending vertex order;
- `handle_vertex_positions`: one target row per constrained vertex;
- `handle_centroids`: one centroid row per handle;
- the drag state `moving_handle`, `translation` and `rotation`.

This project models those tables and the callbacks that maintain them.
The globals become the fields of the class `HandleEditor.Editor`. The
Eigen vectors and matrices that the code writes row by row become arrays,
and the selection becomes a sequence field. Each loop of the source is a
method with loop invariants, proved against a specification function on
sequences:

- `Assign` for the loop of `applySelection`;
- `Constrained` and `Gather` for the cursor loop of `onNewHandleID`;
- `SumOf`, `Count` and `Centroid` for `compute_handle_centroids`;
- `Targets` for `get_new_handle_locations`;
- `Scatter` for the `igl::slice_into` call at the top of `solve`.

Lemmas about these functions state what the tables promise. The handle
numbers stay dense (exactly `0..k-1` are in use). The handle-vertex list
is complete and strictly increasing, and its length is `#V` minus the free
vertices. The target rows are aligned with that list. Every handle count is
positive, so the centroid division never divides by zero, and the counts add
up to the number of handle vertices. The scatter writes exactly the
constrained rows. Scattering the targets of a translation drag moves
exactly the vertices of the dragged handle, and moving those vertices
moves their centroid by the same translation. These two statements are
about the scattered targets only: `solve` then overwrites V, with
V_original in ORIGINAL mode and with the solver's output in the other
modes, where the solver may move free vertices too.

`Editor.Valid()` is the invariant that every callback keeps:

- the mesh is non-empty and the arrays are distinct;
- the ids are dense over `0..numHandles-1`;
- `handle_vertices == Constrained(handle_id)`;
- there is one target row per handle vertex and one centroid row per handle;
- the moving handle is `-1` or a handle;
- the selection indexes vertices.

Positions are triples of reals (`Vec.Vec3`) and the rotation is a
quaternion of four reals (`Vec.Quat`, stored x, y, z, w as Eigen stores it).

Some code is not visible from this file or is floating-point geometry. It
enters as a parameter:

- the deformation solver, as `solver: SolverCall -> seq<Vec3>`;
- `igl::rotate_by_quat`, as `rotate`;
- the translation and rotation that `computeTranslation` and
  `computeRotation` return, as the arguments `t` and `q` of `MouseMove`;
- the lasso's picked vertex, whether a stroke started, and the finished
  stroke, as arguments of `MouseDown` and `MouseUp`.

## Model

| member | source | states |
|---|---|---|
| HandleIds.MaxId | assignment5/src/main.cpp:433 | `maxCoeff` of a non-empty table bounds every entry and is one of the entries |
| HandleIds.DenseMaxId | assignment5/src/main.cpp:433 | on a table whose handles are exactly 0..k-1 the largest id is k-1, so the new handle id `maxCoeff()+1` is k |
| HandleIds.FirstHandleIdIsZero | assignment5/src/main.cpp:433 | when every vertex is free (as `load_mesh` leaves the table) the first handle gets id 0 |
| HandleIds.Assign | assignment5/src/main.cpp:434-438 | after the selection loop, exactly the selected vertices whose id was -1 carry the new id; assigned vertices, unselected vertices and repeated selections keep their entry |
| HandleIds.AssignKeepsDense | assignment5/src/main.cpp:433-438 | if the ids in use were exactly 0..k-1, after the loop they are 0..k when a selected vertex was free and 0..k-1 otherwise |
| HandleIds.NewHandleId | assignment5/src/main.cpp:433 | the id `maxCoeff()+1` is larger than every id in the table and exactly one more than the largest |
| HandleVertices.Constrained | assignment5/src/main.cpp:418-424 | the list the cursor loop of `onNewHandleID` builds is no longer than the table and indexes vertices of the mesh |
| HandleVertices.ConstrainedSound | assignment5/src/main.cpp:418-424 | every vertex on the list has id >= 0 and the list is strictly increasing |
| HandleVertices.ConstrainedComplete | assignment5/src/main.cpp:418-424 | every vertex with id >= 0 is on the list |
| HandleVertices.ConstrainedPrefix | assignment5/src/main.cpp:418-424 | the list built from a prefix of the table is a prefix of the whole list: the loop only appends |
| HandleVertices.NextConstrained | assignment5/src/main.cpp:421-423 | the `count++` cursor step: a constrained vertex lands at position `count` of the final list and the list grows by one exactly then |
| HandleVertices.Count | assignment5/src/main.cpp:414 | the number of vertices with a given id (`numFree` here; `num[r]` at line 455 counts a handle the same way) is at most the number of vertices |
| HandleVertices.ConstrainedLength | assignment5/src/main.cpp:414-415 | when no id is below -1, `V.rows() - numFree` is exactly the number of constrained vertices |
| HandleVertices.AllFreeTable | assignment5/src/main.cpp:146 | a table of free vertices has no handles (dense with 0 handles) and an empty handle-vertex list |
| HandleVertices.DenseCountsPositive | assignment5/src/main.cpp:450-460 | under dense ids every handle 0..k-1 has a positive vertex count, so the division by `num[i]` never divides by zero |
| HandleVertices.CountsSumToHandleVertices | assignment5/src/main.cpp:446-457 | when every id is -1 or below k, the per-handle counts `num[r]` add up to the number of handle vertices |
| HandleRows.Gather | assignment5/src/main.cpp:422 | the rows copied from V_original for the handle vertices: one row per handle vertex (their contents are stated by GatherScatter and ScatterGather) |
| HandleRows.Goal | assignment5/src/main.cpp:119-134 | the goal of a constrained vertex differs from its current row only if it belongs to the moving handle and the mode is TRANSLATE or ROTATE |
| HandleRows.Targets | assignment5/src/main.cpp:117-137 | one goal row per constrained vertex (row-by-row contents are stated by ScatterTargets and FillTargets) |
| HandleRows.Scatter | assignment5/src/main.cpp:100 | `igl::slice_into` along rows keeps the number of rows of V |
| HandleRows.ScatterHits | assignment5/src/main.cpp:100 | with no index repeated, row `handle_vertices[i]` of the result is target row i |
| HandleRows.ScatterMisses | assignment5/src/main.cpp:100 | rows whose index is not on the list are left untouched |
| HandleRows.ScatterAt | assignment5/src/main.cpp:100 | both of the above together |
| HandleRows.GatherScatter | assignment5/src/main.cpp:100 | reading back the rows just scattered gives the target rows unchanged |
| HandleRows.ScatterGather | assignment5/src/main.cpp:422-426 | scattering rows gathered from a mesh (what `onNewHandleID` stores) leaves that mesh unchanged |
| HandleRows.ScatterTargets | assignment5/src/main.cpp:117-137 | scattering the drag targets moves every constrained vertex to its goal position and leaves every free vertex in place |
| HandleRows.TranslateDragMovesOnlyMovingHandle | assignment5/src/main.cpp:122-124 | in TRANSLATE mode the targets scattered into V move exactly the vertices of the moving handle, each by `translation` |
| HandleRows.IdleDragKeepsMesh | assignment5/src/main.cpp:117-137 | with no moving handle, or in SELECT or NONE mode, the targets scatter back to the very mesh they came from |
| HandleCentroids.SumOf | assignment5/src/main.cpp:451-457 | the accumulated row of a handle with no vertex stays the zero row that `setZero` left |
| HandleCentroids.Centroid | assignment5/src/main.cpp:459-460 | the centroid times the vertex count `num[i]` gives back the accumulated sum: it is the mean of the handle's rows |
| HandleCentroids.SumOfTranslated | assignment5/src/main.cpp:450-457 | translating the vertices of handle h by t adds `num[h]` copies of t to the sum of h and leaves the other sums alone |
| HandleCentroids.TranslatedCentroid | assignment5/src/main.cpp:444-462 | translating the vertices of handle h by t moves the centroid of h by t and keeps every other centroid |
| HandleEditor.SolverCallFor | assignment5/src/main.cpp:102-111 | ORIGINAL calls no solver entry (V is copied from V_original) and every other view mode calls one; the deformed entries receive the target rows; the deformation-transfer entry is called exactly in DEFORMED mode with the flag set |
| HandleEditor.AssignSelected | assignment5/src/main.cpp:434-438 | the in-place loop over `handle_id` leaves the table `Assign(old table, selection, index)` |
| HandleEditor.CollectHandleVertices | assignment5/src/main.cpp:414-424 | the cursor loop fills `handle_vertices` with `Constrained(handle_id)` and row i of `handle_vertex_positions` with row `handle_vertices[i]` of `V_original` |
| HandleEditor.AverageHandles | assignment5/src/main.cpp:446-460 | for dense ids the accumulate-and-divide loops leave one row per handle, each the centroid of its vertices, with a positive count |
| HandleEditor.FillTargets | assignment5/src/main.cpp:117-137 | the cursor loop writes exactly `Targets(...)`: one goal row per constrained vertex, in ascending vertex order |
| HandleEditor.SliceInto | assignment5/src/main.cpp:100 | the row loop of `slice_into` leaves V equal to `Scatter(old V, handle_vertices, handle_vertex_positions)` |
| HandleEditor.Editor.constructor | assignment5/src/main.cpp:26-71 | the initial globals plus `load_mesh`: V = V_original = the mesh, every vertex free, no handles, empty lists, NONE and ORIGINAL modes, identity rotation; every array is freshly allocated; the invariant holds |
| HandleEditor.Editor.SetMouseMode | assignment5/src/main.cpp:179-181 | the "Mouse Mode" combo sets the mode and nothing else |
| HandleEditor.Editor.SetViewMode | assignment5/src/main.cpp:183-186 | the "View Mode" combo sets the view mode and asks for a solve |
| HandleEditor.Editor.SetDeformationTransfer | assignment5/src/main.cpp:199-201 | the "Deformation Transfer" checkbox sets the flag and asks for a solve |
| HandleEditor.Editor.ClearSelection | assignment5/src/main.cpp:188-190 | the "Clear Selection" button empties the selection and changes nothing else |
| HandleEditor.Editor.ApplySelection | assignment5/src/main.cpp:432-442 | the table becomes `Assign(table, selection, maxCoeff+1)`, the handle count grows by one exactly when a selected vertex was free, the selection is emptied, the lists are rebuilt, V is reset to V_original, and the centroids are recomputed; the invariant is kept |
| HandleEditor.Editor.OnNewHandleId | assignment5/src/main.cpp:412-430 | rebuilds `handle_vertices` as the constrained vertices in ascending order with their V_original rows, sets V to V_original, and recomputes the centroids; it re-establishes the full invariant from the table alone |
| HandleEditor.Editor.ComputeHandleCentroids | assignment5/src/main.cpp:444-462 | one centroid row per handle (`maxCoeff()+1` of them), each the mean of the current rows of its vertices, with a positive count; no other array is replaced |
| HandleEditor.Editor.GetNewHandleLocations | assignment5/src/main.cpp:117-137 | the target rows become `Targets` of the current table, mesh, drag state and centroids; the invariant is kept |
| HandleEditor.Editor.ScatterHandleRows | assignment5/src/main.cpp:100 | V becomes the scatter of the target rows; every constrained row holds its target and every free vertex keeps its row |
| HandleEditor.Editor.Solve | assignment5/src/main.cpp:99-115 | after the scatter, V is V_original (ORIGINAL) or the output of the solver entry for the view mode and the transfer flag; `needs_solve` is cleared and the result is true |
| HandleEditor.Editor.PreDraw | assignment5/src/main.cpp:305-309 | a pending solve is run before drawing, otherwise V is unchanged |
| HandleEditor.Editor.MouseDown | assignment5/src/main.cpp:217-239 | a right click does nothing; in TRANSLATE or ROTATE a press on a handle vertex makes its handle the moving one and recomputes the targets; in SELECT a started stroke starts the drag; the result is `doit` |
| HandleEditor.Editor.MouseMove | assignment5/src/main.cpp:241-274 | during a TRANSLATE or ROTATE drag of a grabbed handle the new translation or rotation is stored, the targets are recomputed and a solve is requested, and the centroid row read for it is in range; a SELECT drag, or a TRANSLATE or ROTATE press that grabbed no handle, only reports handled; otherwise nothing changes |
| HandleEditor.StrokeThenTranslateMode | assignment5/src/main.cpp:217-262 | a SELECT press that starts a stroke followed by Alt-T (line 395) reaches a valid state where the mouse-move callback as written reads centroid row `moving_handle` = -1 of a table with no rows |
| HandleEditor.Editor.MouseUp | assignment5/src/main.cpp:276-302 | ends the drag; a SELECT stroke becomes the selection; a TRANSLATE or ROTATE drag resets `moving_handle` to -1, the translation to zero and the rotation to (0,0,0,1), and recomputes the centroids |

## Left out

- The deformation solver (`Deformation`: `set_initial_mesh`, `update_handle_vertex_selection`, the `get_*_mesh` entries) is not part of this model. `Solve` takes it as a function parameter, and `OnNewHandleId` and the constructor do not model the two calls into it.
- `computeTranslation`, `computeRotation` and `igl::rotate_by_quat` are viewport and quaternion geometry in libigl. Their results enter as parameters, so the rotated goal positions are stated only in terms of the given `rotate`.
- Floating point is not modelled. Positions are exact reals, and the `float`/`double` casts in `get_new_handle_locations` and the rounding of the centroid division are not modelled.
- The lasso (`strokeAdd`, `strokeReset`, `pickVertex`, `strokeFinish`) is a separate class. Its results are arguments of `MouseDown` and `MouseUp`.
- MouseDown: the lasso's `strokeReset` after a rejected stroke point and the `down_mouse_x/y` bookkeeping are not modelled.
- MouseMove: `down_mouse_x/y` are not modelled, and neither is the lasso stroke point added during a SELECT drag. It models the corrected callback described under Findings, which moves nothing when no handle was grabbed.
- Solve: the solver is modelled as a function of the `SolverCall` alone and does not read V, so the scatter at `assignment5/src/main.cpp:100` never affects what `Solve` leaves in V. The scatter is still modelled and proved (`ScatterHandleRows`, `SliceInto`).
- The UI is not modelled: rendering, the ImGui menu layout, vertex colouring and stroke drawing in `callback_pre_draw`, `main`, and the face array `F`.
- File I/O is not modelled: `load_mesh` reads the mesh through `igl::read_triangle_mesh`. The constructor takes the vertex rows it reads.
- The keyboard shortcuts in `callback_key_down` (S, Alt-T, Alt-R, A) are not modelled. They set the mouse mode (`SetMouseMode`) or call `applySelection` (`ApplySelection`).
- The "Clear Constraints" button is not modelled. It resets `handle_id` without calling `onNewHandleID`, so afterwards `handle_vertices` no longer matches the table and the invariant `Valid()` does not hold.
- The `UPDATE_ONLY_ON_UP` build variant is not modelled: the solve on mouse release and the edge drawing of the moving handle.
- An empty mesh is excluded by the constructor's precondition: `maxCoeff()` on an empty table is undefined in Eigen.

## Findings

| source | as written | input that shows it | evidently intended | confidence | as-written member | corrected member |
|---|---|---|---|---|---|---|
| assignment5/src/main.cpp:247-262 | during a TRANSLATE or ROTATE drag, `callback_mouse_move` passes `handle_centroids.row(moving_handle)` to `computeTranslation`/`computeRotation` without checking that a handle was grabbed | load a mesh, choose SELECT, press where the lasso starts a stroke (`doit` becomes true, `moving_handle` stays -1), press Alt-T, move the mouse: row -1 of a centroid table with no rows is read | a mouse move only drags a handle that the press grabbed, so the centroid row it reads exists | medium, not executed | HandleEditor.StrokeThenTranslateMode | HandleEditor.Editor.MouseMove |
