/**
 * The map drawn for a route (`create_map`): one pass over the rows that adds
 * every row's coordinate to the route line and, for rows whose colour passes
 * the filter, buffers green points and draws markers.
 */
module RouteMap {
  import opened Wrappers
  import opened Suitability
  import opened Clustering

  /** Baguio city, where the map is centred, and the initial zoom. */
  const BaguioCenter: Point := Point(16.4023, 120.596)
  const ZoomStart: nat := 13

  /** The drawn map: its view, its circle markers in drawing order, and the route line if any. */
  datatype RenderedMap = RenderedMap(center: Point, zoom: nat, markers: seq<Marker>, route: Option<seq<Point>>)

  /** The rows whose colour passes the filter, tagged with that colour, in row order. */
  function Kept(points: seq<Point>, scores: seq<real>, filter: set<Color>): (items: seq<Tagged>)
    requires |scores| == |points|
    ensures |items| <= |points|
    ensures forall k :: 0 <= k < |items| ==> items[k].color in filter
    decreases |points|
  {
    if points == [] then []
    else
      var c := GetColor(scores[0]);
      (if c in filter then [Tagged(points[0], c)] else []) + Kept(points[1..], scores[1..], filter)
  }

  /** The markers drawn when pending green points are flushed: one small green marker each. */
  function Flush(pending: seq<Point>): (ms: seq<Marker>)
    ensures |ms| == |pending|
    ensures forall k :: 0 <= k < |ms| ==> ms[k] == PointMarker(pending[k], Green)
  {
    DrawAll(Lone(pending))
  }

  /**
   * The markers the loop still draws, from the state where `pending` green
   * points are buffered, over the remaining rows, including the final flush.
   */
  function Emit(pending: seq<Point>, points: seq<Point>, scores: seq<real>, filter: set<Color>): seq<Marker>
    requires |pending| < ClusterSize
    requires |scores| == |points|
    decreases |points|
  {
    if points == [] then Flush(pending)
    else
      var c := GetColor(scores[0]);
      if c !in filter then Emit(pending, points[1..], scores[1..], filter)
      else if c == Green then
        var buffered := pending + [points[0]];
        if |buffered| >= ClusterSize then [ClusterMarker(buffered)] + Emit([], points[1..], scores[1..], filter)
        else Emit(buffered, points[1..], scores[1..], filter)
      else Flush(pending) + [PointMarker(points[0], c)] + Emit([], points[1..], scores[1..], filter)
  }

  /**
   * The loop draws exactly the reference markers: the pending greens followed by
   * the remaining in-filter rows, grouped into clusters and single points.
   */
  lemma {:induction false} EmitMatchesGrouping(pending: seq<Point>, points: seq<Point>, scores: seq<real>, filter: set<Color>)
    requires |pending| < ClusterSize
    requires |scores| == |points|
    ensures Emit(pending, points, scores, filter) == Markers(Greens(pending) + Kept(points, scores, filter))
    decreases |points|
  {
    if points == [] {
      GroupingShortRun(pending);
      assert Greens(pending) + Kept(points, scores, filter) == Greens(pending);
    } else {
      var c := GetColor(scores[0]);
      if c !in filter {
        EmitMatchesGrouping(pending, points[1..], scores[1..], filter);
        assert Kept(points, scores, filter) == Kept(points[1..], scores[1..], filter);
      } else if c == Green && |pending| + 1 < ClusterSize {
        EmitMatchesGrouping(pending + [points[0]], points[1..], scores[1..], filter);
        BufferGreen(pending, points, scores, filter);
      } else {
        EmitMatchesGrouping([], points[1..], scores[1..], filter);
        assert Greens([]) + Kept(points[1..], scores[1..], filter) == Kept(points[1..], scores[1..], filter);
        if c == Green {
          CompleteCluster(pending, points, scores, filter);
        } else {
          FlushThenOwn(pending, points, scores, filter);
        }
      }
    }
  }

  /** A first row whose colour passes the filter is the first kept row. */
  lemma KeptFirst(points: seq<Point>, scores: seq<real>, filter: set<Color>)
    requires |scores| == |points| && points != []
    requires GetColor(scores[0]) in filter
    ensures Kept(points, scores, filter)
         == [Tagged(points[0], GetColor(scores[0]))] + Kept(points[1..], scores[1..], filter)
  {
  }

  /** Step case of EmitMatchesGrouping: a green row joins the buffer without completing a cluster. */
  lemma BufferGreen(pending: seq<Point>, points: seq<Point>, scores: seq<real>, filter: set<Color>)
    requires |scores| == |points| && points != []
    requires GetColor(scores[0]) == Green && Green in filter
    ensures Greens(pending + [points[0]]) + Kept(points[1..], scores[1..], filter)
         == Greens(pending) + Kept(points, scores, filter)
  {
    var t := Tagged(points[0], Green);
    var rest := Kept(points[1..], scores[1..], filter);
    assert Kept(points, scores, filter) == [t] + rest by {
      KeptFirst(points, scores, filter);
    }
    GreensSnoc(pending, points[0]);
    assert (Greens(pending) + [t]) + rest == Greens(pending) + ([t] + rest);
  }

  /** Step case of EmitMatchesGrouping: a green row completes a cluster of five. */
  lemma CompleteCluster(pending: seq<Point>, points: seq<Point>, scores: seq<real>, filter: set<Color>)
    requires |scores| == |points| && points != []
    requires GetColor(scores[0]) == Green && Green in filter && |pending| + 1 == ClusterSize
    ensures Markers(Greens(pending) + Kept(points, scores, filter))
         == [ClusterMarker(pending + [points[0]])] + Markers(Kept(points[1..], scores[1..], filter))
  {
    var buffered := pending + [points[0]];
    var rest := Kept(points[1..], scores[1..], filter);
    BufferGreen(pending, points, scores, filter);
    MarkersAfterFullCluster(buffered, rest);
  }

  /** Step case of EmitMatchesGrouping: an in-filter row of another colour flushes the buffer, then is drawn. */
  lemma FlushThenOwn(pending: seq<Point>, points: seq<Point>, scores: seq<real>, filter: set<Color>)
    requires |scores| == |points| && points != [] && |pending| < ClusterSize
    requires GetColor(scores[0]) != Green && GetColor(scores[0]) in filter
    ensures Markers(Greens(pending) + Kept(points, scores, filter))
         == Flush(pending) + [PointMarker(points[0], GetColor(scores[0]))] + Markers(Kept(points[1..], scores[1..], filter))
  {
    var t := Tagged(points[0], GetColor(scores[0]));
    var rest := Kept(points[1..], scores[1..], filter);
    KeptFirst(points, scores, filter);
    GroupingFlushBefore(pending, t, rest);
    DrawAllAppend(Lone(pending) + [Alone(t)], Grouping(rest));
    DrawAllAppend(Lone(pending), [Alone(t)]);
  }

  /** Draws the buffered green points one by one, in buffer order. */
  method DrawPending(pending: seq<Point>) returns (ms: seq<Marker>)
    ensures ms == Flush(pending)
  {
    ms := [];
    for k := 0 to |pending|
      invariant ms == Flush(pending[..k])
    {
      ms := ms + [PointMarker(pending[k], Green)];
    }
    assert pending[..|pending|] == pending;
  }

  /**
   * The map for a route. `scores[k]` is the model's prediction for row `k`;
   * `filter` holds the colours whose markers are shown.
   */
  method CreateMap(points: seq<Point>, scores: seq<real>, filter: set<Color>) returns (m: RenderedMap)
    requires |scores| == |points|
    ensures m.center == BaguioCenter && m.zoom == ZoomStart
    ensures m.markers == Markers(Kept(points, scores, filter))
    ensures m.route == if points == [] then None else Some(points)
  {
    var route: seq<Point> := [];
    var markers: seq<Marker> := [];
    var greenCluster: seq<Point> := [];
    var i := 0;
    while i < |points|
      invariant 0 <= i <= |points|
      invariant route == points[..i]
      invariant |greenCluster| < ClusterSize
      invariant markers + Emit(greenCluster, points[i..], scores[i..], filter) == Emit([], points, scores, filter)
    {
      var p := points[i];
      var color := GetColor(scores[i]);
      route := route + [p];
      if color in filter {
        if color == Green {
          greenCluster := greenCluster + [p];
          if |greenCluster| >= ClusterSize {
            markers := markers + [ClusterMarker(greenCluster)];
            greenCluster := [];
          }
        } else {
          if greenCluster != [] {
            var flushed := DrawPending(greenCluster);
            markers := markers + flushed;
            greenCluster := [];
          }
          markers := markers + [PointMarker(p, color)];
        }
      }
      assert points[i..][1..] == points[i + 1..] && scores[i..][1..] == scores[i + 1..];
      i := i + 1;
    }
    // Green points still pending after the last row are drawn singly.
    if greenCluster != [] {
      var flushed := DrawPending(greenCluster);
      markers := markers + flushed;
    }
    assert points[..i] == points;
    EmitMatchesGrouping([], points, scores, filter);
    assert Greens([]) + Kept(points, scores, filter) == Kept(points, scores, filter);
    m := RenderedMap(BaguioCenter, ZoomStart, markers, if route == [] then None else Some(route));
  }

  // ---------------------------------------------------------------------------
  // Properties stated over the rows of the route.

  /** Number of rows whose score gives colour `c`. */
  function RowsOfColor(scores: seq<real>, c: Color): nat
    decreases |scores|
  {
    if scores == [] then 0 else (if GetColor(scores[0]) == c then 1 else 0) + RowsOfColor(scores[1..], c)
  }

  lemma {:induction false} KeptCounts(points: seq<Point>, scores: seq<real>, filter: set<Color>, c: Color)
    requires |scores| == |points|
    ensures CountColor(Kept(points, scores, filter), c) == if c in filter then RowsOfColor(scores, c) else 0
    decreases |points|
  {
    if points != [] {
      KeptCounts(points[1..], scores[1..], filter, c);
      var d := GetColor(scores[0]);
      var rest := Kept(points[1..], scores[1..], filter);
      if d in filter {
        KeptFirst(points, scores, filter);
        CountColorAppend([Tagged(points[0], d)], rest, c);
      } else {
        assert Kept(points, scores, filter) == [] + rest == rest;
      }
    }
  }

  /**
   * Conservation over the route: the rows of an in-filter colour are all drawn,
   * green ones five per cluster marker plus one per single green marker, other
   * colours one single marker per row; a colour outside the filter draws nothing.
   */
  lemma RouteMarkerCounts(points: seq<Point>, scores: seq<real>, filter: set<Color>, c: Color)
    requires |scores| == |points|
    ensures var ms := Markers(Kept(points, scores, filter));
      (if c in filter then RowsOfColor(scores, c) else 0)
      == (if c == Green then ClusterSize * ClusterCount(ms) else 0) + PointCount(ms, c)
  {
    KeptCounts(points, scores, filter, c);
    MarkerCounts(Kept(points, scores, filter), c);
  }

  lemma {:induction false} KeptAppend(p1: seq<Point>, s1: seq<real>, p2: seq<Point>, s2: seq<real>, filter: set<Color>)
    requires |s1| == |p1| && |s2| == |p2|
    ensures Kept(p1 + p2, s1 + s2, filter) == Kept(p1, s1, filter) + Kept(p2, s2, filter)
    decreases |p1|
  {
    if p1 == [] {
      assert p1 + p2 == p2 && s1 + s2 == s2;
    } else {
      var c := GetColor(s1[0]);
      assert (p1 + p2)[1..] == p1[1..] + p2 && (s1 + s2)[1..] == s1[1..] + s2;
      assert (p1 + p2)[0] == p1[0] && (s1 + s2)[0] == s1[0];
      KeptAppend(p1[1..], s1[1..], p2, s2, filter);
      var head := if c in filter then [Tagged(p1[0], c)] else [];
      assert Kept(p1 + p2, s1 + s2, filter) == head + Kept(p1[1..] + p2, s1[1..] + s2, filter);
      assert Kept(p1, s1, filter) == head + Kept(p1[1..], s1[1..], filter);
    }
  }

  /**
   * A row whose colour is filtered out influences no marker wherever it stands:
   * dropping it from the route leaves the markers exactly as they were (in
   * particular it neither joins nor flushes the pending greens).
   */
  lemma FilteredRowIsInvisible(points: seq<Point>, scores: seq<real>, filter: set<Color>, i: nat)
    requires |scores| == |points| && i < |points|
    requires GetColor(scores[i]) !in filter
    ensures Markers(Kept(points, scores, filter))
         == Markers(Kept(points[..i] + points[i + 1..], scores[..i] + scores[i + 1..], filter))
  {
    var pa, pb, sa, sb := points[..i], points[i + 1..], scores[..i], scores[i + 1..];
    KeptWithout(pa, [points[i]], pb, sa, [scores[i]], sb, filter);
    assert points == pa + ([points[i]] + pb) && scores == sa + ([scores[i]] + sb);
  }

  lemma KeptWithout(pa: seq<Point>, pm: seq<Point>, pb: seq<Point>, sa: seq<real>, sm: seq<real>, sb: seq<real>, filter: set<Color>)
    requires |sa| == |pa| && |sm| == |pm| && |sb| == |pb|
    requires Kept(pm, sm, filter) == []
    ensures Kept(pa + (pm + pb), sa + (sm + sb), filter) == Kept(pa + pb, sa + sb, filter)
  {
    KeptAppend(pa, sa, pm + pb, sm + sb, filter);
    KeptAppend(pm, sm, pb, sb, filter);
    KeptAppend(pa, sa, pb, sb, filter);
  }

  /**
   * Five rows scoring 0.9 then one scoring 0.3, with every colour shown: one
   * cluster marker for the five, then one red marker.
   */
  lemma FiveGreensThenRed(points: seq<Point>)
    requires |points| == 6
    ensures Emit([], points, [0.9, 0.9, 0.9, 0.9, 0.9, 0.3], {Green, Yellow, Orange, Red})
         == [ClusterMarker(points[..5]), PointMarker(points[5], Red)]
  {
    var scores := [0.9, 0.9, 0.9, 0.9, 0.9, 0.3];
    var all := {Green, Yellow, Orange, Red};
    assert GetColor(0.9) == Green && GetColor(0.3) == Red;
    assert Emit([], points[5..], scores[5..], all) == Flush([]) + [PointMarker(points[5], Red)] + Emit([], [], [], all);
    assert Emit(points[..4], points[4..], scores[4..], all)
        == [ClusterMarker(points[..4] + [points[4]])] + Emit([], points[5..], scores[5..], all);
    assert points[..4] + [points[4]] == points[..5];
    assert Emit(points[..3], points[3..], scores[3..], all) == Emit(points[..3] + [points[3]], points[4..], scores[4..], all);
    assert points[..3] + [points[3]] == points[..4];
    assert Emit(points[..2], points[2..], scores[2..], all) == Emit(points[..2] + [points[2]], points[3..], scores[3..], all);
    assert points[..2] + [points[2]] == points[..3];
    assert Emit(points[..1], points[1..], scores[1..], all) == Emit(points[..1] + [points[1]], points[2..], scores[2..], all);
    assert points[..1] + [points[1]] == points[..2];
    assert Emit([], points, scores, all) == Emit([] + [points[0]], points[1..], scores[1..], all);
    assert [] + [points[0]] == points[..1];
  }
}
