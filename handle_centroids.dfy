/**
 * The per-handle sums and centroids that compute_handle_centroids builds
 * in `handle_centroids`.
 */
module HandleCentroids {
  import opened Vec
  import opened HandleVertices

  /** The sum of the positions of the vertices whose id is h. */
  function SumOf(ids: seq<int>, vs: seq<Vec3>, h: int): (r: Vec3)
    requires |ids| == |vs|
    ensures Count(ids, h) == 0 ==> r == Zero
  {
    if ids == [] then Zero
    else
      var n := |ids| - 1;
      var s := SumOf(ids[..n], vs[..n], h);
      if ids[n] == h then Add(s, vs[n]) else s
  }

  /** The centroid of handle h: its position sum over its vertex count. */
  function Centroid(ids: seq<int>, vs: seq<Vec3>, h: int): (r: Vec3)
    requires |ids| == |vs| && Count(ids, h) > 0
    ensures Scale(Count(ids, h) as real, r) == SumOf(ids, vs, h)
  {
    var s := SumOf(ids, vs, h);
    var n := Count(ids, h);
    ScaleDiv(s, n);
    Div(s, n)
  }

  /**
   * Moving the vertices of handle h by t adds t once per vertex of h to
   * the position sum of h, and leaves the sums of other handles alone.
   */
  lemma {:induction false} SumOfTranslated(ids: seq<int>, vs: seq<Vec3>, ws: seq<Vec3>, h: int, t: Vec3, g: int)
    requires |ids| == |vs| == |ws|
    requires forall j :: 0 <= j < |vs| ==> ws[j] == if ids[j] == h then Add(vs[j], t) else vs[j]
    ensures SumOf(ids, ws, g) == if g == h then Add(SumOf(ids, vs, g), Scale(Count(ids, h) as real, t))
                                 else SumOf(ids, vs, g)
  {
    if ids == [] {
      assert Scale(0.0, t) == Zero;
    } else {
      var n := |ids| - 1;
      SumOfTranslated(ids[..n], vs[..n], ws[..n], h, t, g);
      if ids[n] == h {
        ScaleSucc(Count(ids[..n], h) as real, t);
      }
    }
  }

  /**
   * Translating every vertex of handle h by t translates the centroid of h
   * by t and keeps every other handle's centroid.
   */
  lemma TranslatedCentroid(ids: seq<int>, vs: seq<Vec3>, ws: seq<Vec3>, h: int, t: Vec3, g: int)
    requires |ids| == |vs| == |ws| && Count(ids, g) > 0
    requires forall j :: 0 <= j < |vs| ==> ws[j] == if ids[j] == h then Add(vs[j], t) else vs[j]
    ensures Centroid(ids, ws, g) == if g == h then Add(Centroid(ids, vs, g), t) else Centroid(ids, vs, g)
  {
    SumOfTranslated(ids, vs, ws, h, t, g);
    if g == h {
      DivShift(SumOf(ids, vs, h), Count(ids, h), t);
    }
  }
}
