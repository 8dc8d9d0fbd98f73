/**
 * Reference description of the markers drawn for a route: the rows that pass
 * the colour filter are cut into groups, and every group is drawn as one
 * marker. A maximal run of green rows is cut into blocks of five from its
 * start; each block becomes a cluster marker at the mean of its points and the
 * remainder of the run (fewer than five) becomes one small green marker per
 * point. Every non-green row is a marker of its own colour.
 */
module Clustering {
  import opened Suitability

  datatype Point = Point(lat: real, lon: real)

  /** A row that passed the colour filter: its coordinate and its colour. */
  datatype Tagged = Tagged(at: Point, color: Color)

  /** A circle marker on the map; `isCluster` tells a cluster marker from a single point. */
  datatype Marker = Marker(location: Point, color: Color, radius: nat, isCluster: bool)

  /** A cluster is emitted as soon as this many green points are pending. */
  const ClusterSize: nat := 5
  const ClusterRadius: nat := 10
  const PointRadius: nat := 5

  function SumLat(ps: seq<Point>): real
    decreases |ps|
  {
    if ps == [] then 0.0 else ps[0].lat + SumLat(ps[1..])
  }

  function SumLon(ps: seq<Point>): real
    decreases |ps|
  {
    if ps == [] then 0.0 else ps[0].lon + SumLon(ps[1..])
  }

  /** The coordinate-wise mean of a non-empty list of points. */
  function Mean(ps: seq<Point>): (m: Point)
    requires ps != []
    ensures m.lat * |ps| as real == SumLat(ps)
    ensures m.lon * |ps| as real == SumLon(ps)
  {
    Point(SumLat(ps) / |ps| as real, SumLon(ps) / |ps| as real)
  }

  /** The marker of a cluster of green points. */
  function ClusterMarker(ps: seq<Point>): Marker
    requires ps != []
  {
    Marker(Mean(ps), Green, ClusterRadius, true)
  }

  /** The marker of a single point. */
  function PointMarker(p: Point, c: Color): Marker
  {
    Marker(p, c, PointRadius, false)
  }

  datatype Group = Clustered(members: seq<Point>) | Alone(item: Tagged)

  predicate WellFormed(g: Group)
  {
    g.Clustered? ==> |g.members| == ClusterSize
  }

  function Draw(g: Group): Marker
    requires WellFormed(g)
  {
    match g
    case Clustered(ms) => ClusterMarker(ms)
    case Alone(t) => PointMarker(t.at, t.color)
  }

  function DrawAll(gs: seq<Group>): (ms: seq<Marker>)
    requires forall k :: 0 <= k < |gs| ==> WellFormed(gs[k])
  {
    seq(|gs|, k requires 0 <= k < |gs| => Draw(gs[k]))
  }

  /** Green points as tagged rows. */
  function Greens(ps: seq<Point>): (ts: seq<Tagged>)
  {
    seq(|ps|, k requires 0 <= k < |ps| => Tagged(ps[k], Green))
  }

  function Positions(ts: seq<Tagged>): (ps: seq<Point>)
  {
    seq(|ts|, k requires 0 <= k < |ts| => ts[k].at)
  }

  /** One single green group per point. */
  function Lone(ps: seq<Point>): (gs: seq<Group>)
  {
    seq(|ps|, k requires 0 <= k < |ps| => Alone(Tagged(ps[k], Green)))
  }

  /** The rows a group stands for, in order. */
  function Members(g: Group): seq<Tagged>
  {
    match g
    case Clustered(ms) => Greens(ms)
    case Alone(t) => [t]
  }

  function Flatten(gs: seq<Group>): seq<Tagged>
    decreases |gs|
  {
    if gs == [] then [] else Members(gs[0]) + Flatten(gs[1..])
  }

  /** Length of the run of green rows at the start of `items`. */
  function GreenRun(items: seq<Tagged>): (n: nat)
    ensures n <= |items|
    ensures forall k :: 0 <= k < n ==> items[k].color == Green
    ensures n < |items| ==> items[n].color != Green
    decreases |items|
  {
    if items != [] && items[0].color == Green then 1 + GreenRun(items[1..]) else 0
  }

  /** A run of green points cut into blocks of five from its start, the remainder left single. */
  function Chunk(run: seq<Point>): (gs: seq<Group>)
    ensures forall k :: 0 <= k < |gs| ==> WellFormed(gs[k])
    decreases |run|
  {
    if |run| >= ClusterSize then [Clustered(run[..ClusterSize])] + Chunk(run[ClusterSize..])
    else Lone(run)
  }

  /** The groups of a sequence of in-filter rows, maximal green runs first cut by Chunk. */
  function Grouping(items: seq<Tagged>): (gs: seq<Group>)
    ensures forall k :: 0 <= k < |gs| ==> WellFormed(gs[k])
    decreases |items|
  {
    if items == [] then []
    else if items[0].color != Green then [Alone(items[0])] + Grouping(items[1..])
    else
      var n := GreenRun(items);
      Chunk(Positions(items[..n])) + Grouping(items[n..])
  }

  /** The markers the reference draws for a sequence of in-filter rows. */
  function Markers(items: seq<Tagged>): seq<Marker>
  {
    DrawAll(Grouping(items))
  }

  // ---------------------------------------------------------------------------
  // Partition: every in-filter row is in exactly one group, in order.

  lemma {:induction false} FlattenAppend(a: seq<Group>, b: seq<Group>)
    ensures Flatten(a + b) == Flatten(a) + Flatten(b)
    decreases |a|
  {
    if a == [] {
      assert a + b == b;
    } else {
      assert (a + b)[0] == a[0] && (a + b)[1..] == a[1..] + b;
      FlattenAppend(a[1..], b);
      assert Members(a[0]) + (Flatten(a[1..]) + Flatten(b))
          == (Members(a[0]) + Flatten(a[1..])) + Flatten(b);
    }
  }

  lemma {:induction false} FlattenChunk(run: seq<Point>)
    ensures Flatten(Chunk(run)) == Greens(run)
    decreases |run|
  {
    if |run| >= ClusterSize {
      var gs := Chunk(run);
      assert gs[0] == Clustered(run[..ClusterSize]) && gs[1..] == Chunk(run[ClusterSize..]);
      FlattenChunk(run[ClusterSize..]);
      assert Greens(run[..ClusterSize]) + Greens(run[ClusterSize..]) == Greens(run);
    } else {
      FlattenLone(run);
    }
  }

  lemma {:induction false} FlattenLone(run: seq<Point>)
    ensures Flatten(Lone(run)) == Greens(run)
    decreases |run|
  {
    if run != [] {
      assert Lone(run)[1..] == Lone(run[1..]);
      FlattenLone(run[1..]);
      assert [Tagged(run[0], Green)] + Greens(run[1..]) == Greens(run);
    }
  }

  /** No in-filter row is dropped or drawn twice, and groups keep row order. */
  lemma {:induction false} GroupingPartition(items: seq<Tagged>)
    ensures Flatten(Grouping(items)) == items
    decreases |items|
  {
    if items == [] {
    } else if items[0].color != Green {
      var gs := Grouping(items);
      assert gs[0] == Alone(items[0]) && gs[1..] == Grouping(items[1..]);
      GroupingPartition(items[1..]);
      assert [items[0]] + items[1..] == items;
    } else {
      var n := GreenRun(items);
      FlattenAppend(Chunk(Positions(items[..n])), Grouping(items[n..]));
      FlattenChunk(Positions(items[..n]));
      assert Greens(Positions(items[..n])) == items[..n];
      GroupingPartition(items[n..]);
      assert items[..n] + items[n..] == items;
    }
  }

  // ---------------------------------------------------------------------------
  // How the groups of a sequence that starts with pending green points look.

  /** The green run of `Greens(b) + tail` is `b` followed by the green run of `tail`. */
  lemma {:induction false} GreenRunAfterGreens(b: seq<Point>, tail: seq<Tagged>)
    ensures GreenRun(Greens(b) + tail) == |b| + GreenRun(tail)
    decreases |b|
  {
    var items := Greens(b) + tail;
    if b == [] {
      assert items == tail;
    } else {
      assert items[0] == Tagged(b[0], Green);
      assert items[1..] == Greens(b[1..]) + tail;
      GreenRunAfterGreens(b[1..], tail);
    }
  }

  /** Grouping of a sequence that opens with a green row: the chunks of its green run, then the rest. */
  lemma GroupingGreenFirst(items: seq<Tagged>)
    requires items != [] && items[0].color == Green
    ensures Grouping(items) == Chunk(Positions(items[..GreenRun(items)])) + Grouping(items[GreenRun(items)..])
  {
  }

  lemma SliceAfterPrefix<T>(a: seq<T>, t: seq<T>, g: nat)
    requires g <= |t|
    ensures (a + t)[..|a| + g] == a + t[..g]
    ensures (a + t)[|a| + g..] == t[g..]
  {
  }

  lemma GreensSnoc(ps: seq<Point>, p: Point)
    ensures Greens(ps + [p]) == Greens(ps) + [Tagged(p, Green)]
  {
  }

  lemma PositionsAppend(a: seq<Tagged>, b: seq<Tagged>)
    ensures Positions(a + b) == Positions(a) + Positions(b)
  {
  }

  /**
   * The groups of pending green points `b` followed by `tail`: the chunks of
   * `b` extended by the green run that opens `tail`, then the groups of the rest.
   */
  lemma GroupingAfterGreens(b: seq<Point>, tail: seq<Tagged>)
    ensures var g := GreenRun(tail);
      Grouping(Greens(b) + tail) == Chunk(b + Positions(tail[..g])) + Grouping(tail[g..])
  {
    var g := GreenRun(tail);
    if b != [] || (tail != [] && tail[0].color == Green) {
      GroupingOpenRun(b, tail);
    } else {
      assert g == 0 && Greens(b) + tail == tail && tail[g..] == tail;
      assert b + Positions(tail[..g]) == [];
    }
  }

  /** GroupingAfterGreens when the combined sequence opens with a green row. */
  lemma GroupingOpenRun(b: seq<Point>, tail: seq<Tagged>)
    requires b != [] || (tail != [] && tail[0].color == Green)
    ensures var g := GreenRun(tail);
      Grouping(Greens(b) + tail) == Chunk(b + Positions(tail[..g])) + Grouping(tail[g..])
  {
    var items := Greens(b) + tail;
    var g := GreenRun(tail);
    assert items[0].color == Green by {
      if b == [] { assert items[0] == tail[0]; } else { assert items[0] == Greens(b)[0]; }
    }
    GreenRunAfterGreens(b, tail);
    var n := GreenRun(items);
    assert n == |b| + g;
    GroupingGreenFirst(items);
    assert Grouping(items) == Chunk(Positions(items[..n])) + Grouping(items[n..]);
    SliceAfterPrefix(Greens(b), tail, g);
    PositionsAppend(Greens(b), tail[..g]);
    PositionsOfGreens(b);
  }

  /** A run of at least five greens starts with one cluster of its first five. */
  lemma ChunkLeading(buf: seq<Point>, x: seq<Point>)
    requires |buf| >= ClusterSize
    ensures Chunk(buf + x) == [Clustered(buf[..ClusterSize])] + Chunk(buf[ClusterSize..] + x)
  {
    var whole := buf + x;
    assert whole[..ClusterSize] == buf[..ClusterSize];
    assert whole[ClusterSize..] == buf[ClusterSize..] + x;
  }

  /** Five or more pending greens: the first five form a cluster, the rest continue as before. */
  lemma GroupingLeadingCluster(buf: seq<Point>, tail: seq<Tagged>)
    requires |buf| >= ClusterSize
    ensures Grouping(Greens(buf) + tail)
         == [Clustered(buf[..ClusterSize])] + Grouping(Greens(buf[ClusterSize..]) + tail)
  {
    var g := GreenRun(tail);
    var x := Positions(tail[..g]);
    var rest := buf[ClusterSize..];
    var after := Grouping(tail[g..]);
    var head := Clustered(buf[..ClusterSize]);
    var restChunks := Chunk(rest + x);
    assert Grouping(Greens(buf) + tail) == Chunk(buf + x) + after by {
      GroupingAfterGreens(buf, tail);
    }
    assert Grouping(Greens(rest) + tail) == restChunks + after by {
      GroupingAfterGreens(rest, tail);
    }
    assert Chunk(buf + x) == [head] + restChunks by {
      ChunkLeading(buf, x);
    }
    assert ([head] + restChunks) + after == [head] + (restChunks + after);
  }

  /** Exactly five pending greens become one cluster marker, followed by the markers of what comes after. */
  lemma MarkersAfterFullCluster(buf: seq<Point>, tail: seq<Tagged>)
    requires |buf| == ClusterSize
    ensures Markers(Greens(buf) + tail) == [ClusterMarker(buf)] + Markers(tail)
  {
    var gs := Grouping(tail);
    assert Grouping(Greens(buf) + tail) == [Clustered(buf)] + gs by {
      GroupingLeadingCluster(buf, tail);
      assert buf[..ClusterSize] == buf;
      assert Greens(buf[ClusterSize..]) == [];
      assert Greens(buf[ClusterSize..]) + tail == tail;
    }
    DrawAllAppend([Clustered(buf)], gs);
    assert DrawAll([Clustered(buf)]) == [ClusterMarker(buf)];
  }

  /** Fewer than five pending greens followed by a non-green row: the greens stay single, then the row. */
  lemma GroupingFlushBefore(pending: seq<Point>, t: Tagged, tail: seq<Tagged>)
    requires |pending| < ClusterSize
    requires t.color != Green
    ensures Grouping(Greens(pending) + ([t] + tail)) == Lone(pending) + [Alone(t)] + Grouping(tail)
  {
    var after := [t] + tail;
    assert after[0] == t && after[1..] == tail;
    GroupingAfterGreens(pending, after);
    assert GreenRun(after) == 0;
    assert after[..0] == [] && after[0..] == after;
    assert pending + Positions(after[..0]) == pending;
  }

  /** Fewer than five pending greens at the end of the rows stay single. */
  lemma GroupingShortRun(pending: seq<Point>)
    requires |pending| < ClusterSize
    ensures Grouping(Greens(pending)) == Lone(pending)
  {
    GroupingAfterGreens(pending, []);
    assert Greens(pending) + [] == Greens(pending);
    assert pending + Positions([]) == pending;
  }

  lemma DrawAllAppend(a: seq<Group>, b: seq<Group>)
    requires forall k :: 0 <= k < |a| ==> WellFormed(a[k])
    requires forall k :: 0 <= k < |b| ==> WellFormed(b[k])
    ensures DrawAll(a + b) == DrawAll(a) + DrawAll(b)
  {
  }

  // ---------------------------------------------------------------------------
  // What each marker stands for, and conservation of rows.

  /**
   * Marker `m` stands for the rows of `items` starting at `j`: a cluster marker
   * for five consecutive green rows, at their mean; a point marker for row `j`,
   * at its coordinate and in its colour.
   */
  ghost predicate StandsFor(items: seq<Tagged>, j: int, m: Marker)
  {
    if m.isCluster then
      0 <= j && j + ClusterSize <= |items|
      && (forall k :: j <= k < j + ClusterSize ==> items[k].color == Green)
      && m == ClusterMarker(Positions(items[j..j + ClusterSize]))
    else
      0 <= j < |items| && m == PointMarker(items[j].at, items[j].color)
  }

  lemma PositionsOfGreens(ps: seq<Point>)
    ensures Positions(Greens(ps)) == ps
  {
  }

  /** Group `i` occupies the stretch of the flattened rows that follows the rows of the groups before it. */
  lemma FlattenSlice(gs: seq<Group>, i: nat)
    requires i < |gs|
    ensures var j, own := |Flatten(gs[..i])|, Members(gs[i]);
      j + |own| <= |Flatten(gs)| && Flatten(gs)[j..j + |own|] == own
  {
    assert gs == gs[..i] + ([gs[i]] + gs[i + 1..]);
    FlattenAppend(gs[..i], [gs[i]] + gs[i + 1..]);
    assert ([gs[i]] + gs[i + 1..])[0] == gs[i] && ([gs[i]] + gs[i + 1..])[1..] == gs[i + 1..];
  }

  /** A well-formed group found at offset `j` of the rows: its marker stands for the rows there. */
  lemma GroupStandsFor(items: seq<Tagged>, j: nat, g: Group)
    requires WellFormed(g)
    requires j + |Members(g)| <= |items| && items[j..j + |Members(g)|] == Members(g)
    ensures StandsFor(items, j, Draw(g))
  {
    match g
    case Clustered(ms) =>
      PositionsOfGreens(ms);
      assert items[j..j + ClusterSize] == Greens(ms);
      forall k | j <= k < j + ClusterSize
        ensures items[k].color == Green
      {
        assert items[k] == items[j..j + ClusterSize][k - j];
      }
    case Alone(t) =>
      assert items[j] == items[j..j + 1][0];
  }

  /** Every marker drawn stands for rows of `items`: five consecutive greens at their mean, or one row. */
  lemma MarkerStandsForRows(items: seq<Tagged>, i: nat)
    requires i < |Markers(items)|
    ensures exists j :: StandsFor(items, j, Markers(items)[i])
  {
    var gs := Grouping(items);
    GroupingPartition(items);
    FlattenSlice(gs, i);
    var j := |Flatten(gs[..i])|;
    GroupStandsFor(items, j, gs[i]);
    assert Markers(items)[i] == Draw(gs[i]);
    assert StandsFor(items, j, Markers(items)[i]);
  }

  /** Number of rows of colour `c`. */
  function CountColor(items: seq<Tagged>, c: Color): nat
    decreases |items|
  {
    if items == [] then 0 else (if items[0].color == c then 1 else 0) + CountColor(items[1..], c)
  }

  /** Number of cluster markers. */
  function ClusterCount(ms: seq<Marker>): nat
    decreases |ms|
  {
    if ms == [] then 0 else (if ms[0].isCluster then 1 else 0) + ClusterCount(ms[1..])
  }

  /** Number of single-point markers of colour `c`. */
  function PointCount(ms: seq<Marker>, c: Color): nat
    decreases |ms|
  {
    if ms == [] then 0
    else (if !ms[0].isCluster && ms[0].color == c then 1 else 0) + PointCount(ms[1..], c)
  }

  lemma {:induction false} CountColorAppend(a: seq<Tagged>, b: seq<Tagged>, c: Color)
    ensures CountColor(a + b, c) == CountColor(a, c) + CountColor(b, c)
    decreases |a|
  {
    if a == [] {
      assert a + b == b;
    } else {
      assert (a + b)[0] == a[0] && (a + b)[1..] == a[1..] + b;
      CountColorAppend(a[1..], b, c);
    }
  }

  lemma {:induction false} CountColorGreens(ps: seq<Point>, c: Color)
    ensures CountColor(Greens(ps), c) == if c == Green then |ps| else 0
    decreases |ps|
  {
    if ps != [] {
      assert Greens(ps)[1..] == Greens(ps[1..]);
      CountColorGreens(ps[1..], c);
    }
  }

  lemma {:induction false} GroupCounts(gs: seq<Group>, c: Color)
    requires forall k :: 0 <= k < |gs| ==> WellFormed(gs[k])
    ensures CountColor(Flatten(gs), c)
         == (if c == Green then ClusterSize * ClusterCount(DrawAll(gs)) else 0) + PointCount(DrawAll(gs), c)
    decreases |gs|
  {
    if gs != [] {
      var ms := DrawAll(gs);
      assert ms[0] == Draw(gs[0]) && ms[1..] == DrawAll(gs[1..]);
      CountColorAppend(Members(gs[0]), Flatten(gs[1..]), c);
      GroupCounts(gs[1..], c);
      match gs[0]
      case Clustered(ps) => CountColorGreens(ps, c);
      case Alone(t) =>
    }
  }

  /**
   * Conservation: the in-filter rows of each colour are all accounted for by
   * the markers. Green rows: five per cluster marker plus one per single green
   * marker; any other colour: one single marker per row.
   */
  lemma MarkerCounts(items: seq<Tagged>, c: Color)
    ensures CountColor(items, c)
         == (if c == Green then ClusterSize * ClusterCount(Markers(items)) else 0) + PointCount(Markers(items), c)
  {
    GroupingPartition(items);
    GroupCounts(Grouping(items), c);
  }
}
