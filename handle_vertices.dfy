/**
 * The list `handle_vertices` that onNewHandleID rebuilds from the
 * vertex-to-handle table, and the per-handle vertex counts that
 * compute_handle_centroids accumulates.
 */
module HandleVertices {
  import opened HandleIds

  /** Strictly increasing, hence free of repeats. */
  predicate Increasing(hv: seq<int>) {
    forall i, j :: 0 <= i < j < |hv| ==> hv[i] < hv[j]
  }

  /**
   * The constrained vertices (id >= 0) in the order the vertex loop of
   * onNewHandleID meets them: the list for the table's first |ids| - 1
   * entries, then the last vertex if it is constrained.
   */
  function Constrained(ids: seq<int>): (hv: seq<int>)
    ensures |hv| <= |ids|
    ensures forall i :: 0 <= i < |hv| ==> 0 <= hv[i] < |ids|
  {
    if ids == [] then []
    else
      var n := |ids| - 1;
      Constrained(ids[..n]) + if ids[n] >= 0 then [n] else []
  }

  /** Every vertex on the list is constrained, and the list is in ascending vertex order. */
  lemma {:induction false} ConstrainedSound(ids: seq<int>)
    ensures forall i :: 0 <= i < |Constrained(ids)| ==> ids[Constrained(ids)[i]] >= 0
    ensures Increasing(Constrained(ids))
  {
    if ids != [] {
      var n := |ids| - 1;
      var hv0 := Constrained(ids[..n]);
      ConstrainedSound(ids[..n]);
      assert forall i :: 0 <= i < |hv0| ==> ids[hv0[i]] == ids[..n][hv0[i]];
    }
  }

  /** One more vertex of the table extends the list of the prefix by that vertex, if it is constrained. */
  lemma ConstrainedStep(ids: seq<int>, j: nat)
    requires j < |ids|
    ensures Constrained(ids[..j + 1]) == Constrained(ids[..j]) + if ids[j] >= 0 then [j] else []
  {
    assert ids[..j + 1][..j] == ids[..j];
  }

  /** Every constrained vertex is on the list: with Constrained's ensures, membership is exactly "id >= 0". */
  lemma {:induction false} ConstrainedComplete(ids: seq<int>, v: int)
    requires 0 <= v < |ids| && ids[v] >= 0
    ensures v in Constrained(ids)
  {
    var n := |ids| - 1;
    if v < n {
      assert ids[..n][v] == ids[v];
      ConstrainedComplete(ids[..n], v);
    }
  }

  /**
   * The list of a prefix of the table is a prefix of the list of the whole
   * table: the vertex loop only ever appends.
   */
  lemma {:induction false} ConstrainedPrefix(ids: seq<int>, j: nat)
    requires j <= |ids|
    ensures |Constrained(ids[..j])| <= |Constrained(ids)|
    ensures Constrained(ids[..j]) == Constrained(ids)[..|Constrained(ids[..j])|]
  {
    if j < |ids| {
      var n := |ids| - 1;
      assert ids[..n][..j] == ids[..j];
      ConstrainedPrefix(ids[..n], j);
    } else {
      assert ids[..j] == ids;
    }
  }

  /**
   * The cursor step of the vertex loops: with `count` the length of the
   * list so far, vertex j, when constrained, is entry `count` of the whole
   * list, and the list grows by one exactly then.
   */
  lemma NextConstrained(ids: seq<int>, j: nat)
    requires j < |ids|
    ensures var count := |Constrained(ids[..j])|;
            && |Constrained(ids[..j + 1])| == count + (if ids[j] >= 0 then 1 else 0)
            && |Constrained(ids[..j + 1])| <= |Constrained(ids)|
            && (ids[j] >= 0 ==> Constrained(ids)[count] == j)
            && (j + 1 == |ids| ==> Constrained(ids[..j + 1]) == Constrained(ids))
  {
    ConstrainedStep(ids, j);
    ConstrainedPrefix(ids, j + 1);
    var count := |Constrained(ids[..j])|;
    if ids[j] >= 0 {
      assert Constrained(ids[..j + 1])[count] == j;
    }
    if j + 1 == |ids| {
      assert ids[..j + 1] == ids;
    }
  }

  /** Two lists that agree entry by entry are equal. */
  lemma SameEntries(a: seq<int>, b: seq<int>)
    requires |a| == |b| && forall j :: 0 <= j < |a| ==> a[j] == b[j]
    ensures a == b
  {
  }

  /** A table of free vertices only has no handles and an empty handle-vertex list. */
  lemma {:induction false} AllFreeTable(ids: seq<int>)
    requires forall i :: 0 <= i < |ids| ==> ids[i] == Free
    ensures Dense(ids, 0) && Constrained(ids) == []
  {
    if ids != [] {
      AllFreeTable(ids[..|ids| - 1]);
    }
  }

  /** The number of vertices whose id is h (h = Free counts the free vertices). */
  function Count(ids: seq<int>, h: int): (c: nat)
    ensures c <= |ids|
  {
    if ids == [] then 0
    else
      var n := |ids| - 1;
      Count(ids[..n], h) + if ids[n] == h then 1 else 0
  }

  /**
   * onNewHandleID sizes the list as #V minus the free vertices. When no
   * entry is below Free, that is exactly the number of constrained vertices.
   */
  lemma {:induction false} ConstrainedLength(ids: seq<int>)
    requires forall i :: 0 <= i < |ids| ==> ids[i] >= Free
    ensures |Constrained(ids)| == |ids| - Count(ids, Free)
  {
    if ids != [] {
      ConstrainedLength(ids[..|ids| - 1]);
    }
  }

  /** A handle with a vertex on it has a positive count. */
  lemma {:induction false} CountPositive(ids: seq<int>, h: int, i: int)
    requires 0 <= i < |ids| && ids[i] == h
    ensures Count(ids, h) > 0
  {
    var n := |ids| - 1;
    if i < n {
      assert ids[..n][i] == h;
      CountPositive(ids[..n], h, i);
    }
  }

  /**
   * Under dense ids every one of the handles 0..k-1 has a vertex, so no
   * count compute_handle_centroids divides by is zero.
   */
  lemma DenseCountsPositive(ids: seq<int>, k: int)
    requires Dense(ids, k)
    ensures forall h :: 0 <= h < k ==> Count(ids, h) > 0
  {
    forall h | 0 <= h < k ensures Count(ids, h) > 0 {
      assert InUse(ids, h);
      var i :| 0 <= i < |ids| && ids[i] == h;
      CountPositive(ids, h, i);
    }
  }

  /** The counts of the handles 0..k-1 added up. */
  function SumCounts(ids: seq<int>, k: nat): nat {
    if k == 0 then 0 else SumCounts(ids, k - 1) + Count(ids, k - 1)
  }

  lemma {:induction false} SumCountsEmpty(k: nat)
    ensures SumCounts([], k) == 0
  {
    if k > 0 {
      SumCountsEmpty(k - 1);
    }
  }

  /** Appending one vertex adds one to the total exactly when its id is among 0..k-1. */
  lemma {:induction false} SumCountsAppend(ids: seq<int>, x: int, k: nat)
    ensures SumCounts(ids + [x], k) == SumCounts(ids, k) + if 0 <= x < k then 1 else 0
  {
    assert (ids + [x])[..|ids|] == ids;
    if k > 0 {
      SumCountsAppend(ids, x, k - 1);
    }
  }

  /**
   * When every id is Free or below k, the counts of handles 0..k-1 add up
   * to the number of constrained vertices.
   */
  lemma {:induction false} CountsSumToHandleVertices(ids: seq<int>, k: nat)
    requires forall i :: 0 <= i < |ids| ==> Free <= ids[i] < k
    ensures SumCounts(ids, k) == |Constrained(ids)|
  {
    if ids == [] {
      SumCountsEmpty(k);
    } else {
      var n := |ids| - 1;
      CountsSumToHandleVertices(ids[..n], k);
      assert ids == ids[..n] + [ids[n]];
      SumCountsAppend(ids[..n], ids[n], k);
    }
  }
}
