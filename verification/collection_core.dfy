/** The parts of src/collection.rs shared by every voxel store: saturating
    accumulation, bound computation, offset application and colour
    averaging. */
module CollectionCore {
  import opened Wrappers
  import opened Element

  /** One `(Point3D<P>, Voxel<C, W>)` pair. */
  datatype Entry = Entry(point: Point3, voxel: Voxel)

  /** A `(min, max)` pair of corners. */
  datatype Bounds = Bounds(min: Point3, max: Point3)

  datatype CollectionError =
    | ResolutionMismatch   // `merge` of collections with different resolutions
    | IndexOutOfBounds     // a dense store indexed outside its allocated box (a panic)
    | EmptyUnwrap          // `unwrap` on an empty iterator (a panic)
    | NegativeSize         // a dense store sized from bounds with `max < min - 1` (a panic)

  /** A column of the 2-D stores: the single height kept for an `(x, y)` and
      its voxel. */
  datatype Column = Column(height: int, voxel: Voxel)

  predicate InBounds(b: Bounds, p: Point3) {
    Below3(b.min, p) && Below3(p, b.max)
  }

  function Points(entries: seq<Entry>): (r: seq<Point3>)
    ensures |r| == |entries| && forall i :: 0 <= i < |r| ==> r[i] == entries[i].point
  {
    seq(|entries|, i requires 0 <= i < |entries| => entries[i].point)
  }

  lemma PointSetSnoc(es: seq<Entry>, init: seq<Entry>)
    requires es != [] && init == es[..|es| - 1]
    ensures (set p | p in Points(es)) == (set p | p in Points(init)) + {es[|es| - 1].point}
  {
    assert Points(es) == Points(init) + [es[|es| - 1].point];
  }

  lemma PointSetConcat(xs: seq<Entry>, ys: seq<Entry>)
    ensures (set p | p in Points(xs + ys)) == (set p | p in Points(xs)) + (set p | p in Points(ys))
  {
    assert Points(xs + ys) == Points(xs) + Points(ys);
  }

  /** `add_color_with_weight_check`: the weight grows by the incoming weight
      but saturates at `wmax`, the colour grows by the incoming colour times
      the weight actually added, and a saturated voxel is left alone. */
  function AddColorWithWeightCheck(current: Voxel, incoming: Voxel, wmax: nat): (r: Voxel)
    requires current.weight <= wmax
    ensures r.weight == Min(current.weight + incoming.weight, wmax)
    ensures r.color == AddColor(current.color, ScaleColor(incoming.color, r.weight - current.weight))
    ensures current.weight == wmax ==> r == current
  {
    if current.weight == wmax then current
    else if current.weight + incoming.weight > wmax then
      var added := wmax - current.weight;
      Voxel(AddColor(current.color, ScaleColor(incoming.color, added)), current.weight + added)
    else
      Voxel(AddColor(current.color, ScaleColor(incoming.color, incoming.weight)), current.weight + incoming.weight)
  }

  function SumColors(cs: seq<Color>): Color {
    if cs == [] then Black else AddColor(SumColors(cs[..|cs| - 1]), cs[|cs| - 1])
  }

  /** Feeding single points of colours `cs` one by one into `v`. */
  function AccumulatePoints(v: Voxel, cs: seq<Color>, wmax: nat): (r: Voxel)
    requires v.weight <= wmax
    ensures r.weight <= wmax
  {
    if cs == [] then v
    else AddColorWithWeightCheck(AccumulatePoints(v, cs[..|cs| - 1], wmax), NewVoxel(cs[|cs| - 1]), wmax)
  }

  /** Accumulating single points counts them up to `wmax` and sums exactly the
      colours of the points that were counted: once saturated, later points
      are dropped. */
  lemma {:induction false} AccumulatePointsKeepsFirstColors(v: Voxel, cs: seq<Color>, wmax: nat)
    requires v.weight <= wmax
    ensures AccumulatePoints(v, cs, wmax).weight == Min(v.weight + |cs|, wmax)
    ensures AccumulatePoints(v, cs, wmax).color == AddColor(v.color, SumColors(cs[..Min(v.weight + |cs|, wmax) - v.weight]))
  {
    if cs == [] {
      assert cs[..0] == [];
    } else {
      var init, c := cs[..|cs| - 1], cs[|cs| - 1];
      AccumulatePointsKeepsFirstColors(v, init, wmax);
      var prev := AccumulatePoints(v, init, wmax);
      var k := Min(v.weight + |init|, wmax) - v.weight;
      assert init[..k] == cs[..k];
      if v.weight + |init| < wmax {
        assert k == |init| && cs[..k] == init && cs[..k + 1] == cs;
        AddOneUnsaturated(prev, c, wmax);
      } else {
        assert prev.weight == wmax;
      }
    }
  }

  lemma AddOneUnsaturated(prev: Voxel, c: Color, wmax: nat)
    requires prev.weight < wmax
    ensures AddColorWithWeightCheck(prev, NewVoxel(c), wmax) == Voxel(AddColor(prev.color, c), prev.weight + 1)
  {
    assert ScaleColor(c, 1) == c;
  }

  /** Channel-wise `c <= bound`. */
  predicate ColorAtMost(c: Color, bound: int) {
    c.r <= bound && c.g <= bound && c.b <= bound
  }

  /** Accumulating single points of channel values at most `cmax` keeps the
      colour sum within `weight * cmax`, so the average stays a valid colour
      (and a `u16` pool never overflows for `u8` colours and weights). */
  lemma UnitAccumulationKeepsAverageInRange(current: Voxel, c: Color, wmax: nat, cmax: nat)
    requires current.weight <= wmax
    requires ColorAtMost(current.color, current.weight * cmax)
    requires ColorAtMost(c, cmax)
    ensures ColorAtMost(AddColorWithWeightCheck(current, NewVoxel(c), wmax).color,
                        AddColorWithWeightCheck(current, NewVoxel(c), wmax).weight * cmax)
  {
    if current.weight < wmax {
      AddOneUnsaturated(current, c, wmax);
      var w := current.weight;
      assert (w + 1) * cmax == w * cmax + cmax;
    }
  }

  /** Accumulating a voxel that already carries a sum multiplies that sum by
      its weight: once the incoming voxel holds two points or more, the
      result is the sum of the two sums exactly when the incoming sum is
      black, so merging two accumulated voxels over-weights the second. */
  lemma AccumulatingASumRescalesIt(current: Voxel, incoming: Voxel, wmax: nat)
    requires current.weight + incoming.weight <= wmax && incoming.weight >= 2
    ensures AddColorWithWeightCheck(current, incoming, wmax).weight == current.weight + incoming.weight
    ensures AddColorWithWeightCheck(current, incoming, wmax).color == AddColor(current.color, incoming.color)
        <==> incoming.color == Black
  {
    var c, w := incoming.color, incoming.weight;
    ScaledOnlyWhenZero(c.r, w);
    ScaledOnlyWhenZero(c.g, w);
    ScaledOnlyWhenZero(c.b, w);
  }

  lemma ScaledOnlyWhenZero(a: int, w: int)
    requires w >= 2
    ensures a * w == a <==> a == 0
  {
    assert a * w - a == a * (w - 1);
    if a > 0 { assert a * (w - 1) >= a; }
    if a < 0 { assert a * (w - 1) <= a; }
  }

  /** `calc_bounds` of the private trait: zeros for no entries, otherwise the
      per-axis minimum and maximum of the entries' points. */
  function CalcBounds(entries: seq<Entry>): (r: Bounds)
    ensures entries == [] ==> r == Bounds(Origin, Origin)
    ensures entries != [] ==> TightBounds3(Points(entries), r.min, r.max)
  {
    if entries == [] then Bounds(Origin, Origin)
    else
      var (lo, hi) := CalcBounds3(Points(entries));
      Bounds(lo, hi)
  }

  /** `calc_bounds_from_2`: componentwise minimum of the minima and maximum of
      the maxima. */
  function CalcBoundsFrom2(a: Bounds, b: Bounds): (r: Bounds)
    ensures forall p :: InBounds(a, p) || InBounds(b, p) ==> InBounds(r, p)
    ensures Below3(r.min, a.min) && Below3(r.min, b.min) && Below3(a.max, r.max) && Below3(b.max, r.max)
  {
    Bounds(Min3(a.min, b.min), Max3(a.max, b.max))
  }

  /** Combining the bounds of two non-empty lists gives the bounds of their
      concatenation. */
  lemma CalcBoundsFrom2OfConcat(xs: seq<Entry>, ys: seq<Entry>)
    requires xs != [] && ys != []
    ensures CalcBoundsFrom2(CalcBounds(xs), CalcBounds(ys)) == CalcBounds(xs + ys)
  {
    var a, b := CalcBounds(xs), CalcBounds(ys);
    assert Points(xs + ys) == Points(xs) + Points(ys);
    TightBounds3Concat(Points(xs), Points(ys), a.min, a.max, b.min, b.max);
    var c := CalcBounds(xs + ys);
    TightBounds3Unique(Points(xs + ys), Min3(a.min, b.min), Max3(a.max, b.max), c.min, c.max);
  }

  /** `to_vec_with_offset` and friends: every point shifted by `offset`,
      voxels untouched, order kept. */
  function WithOffset(entries: seq<Entry>, offset: Point3): (r: seq<Entry>)
    ensures |r| == |entries|
    ensures forall i :: 0 <= i < |r| ==> r[i].voxel == entries[i].voxel && Sub3(r[i].point, offset) == entries[i].point
  {
    seq(|entries|, i requires 0 <= i < |entries| => Entry(Add3(entries[i].point, offset), entries[i].voxel))
  }

  /** The bounds of shifted entries are the shifted bounds. */
  lemma TightBoundsWithOffset(entries: seq<Entry>, offset: Point3, lo: Point3, hi: Point3)
    requires TightBounds3(Points(entries), lo, hi)
    ensures TightBounds3(Points(WithOffset(entries, offset)), Add3(lo, offset), Add3(hi, offset))
  {
    var ps, qs := Points(entries), Points(WithOffset(entries, offset));
    assert forall i :: 0 <= i < |qs| ==> qs[i] == Add3(ps[i], offset);
    TightBoundsShift(ps, qs, offset, lo, hi);
  }

  lemma TightBoundsShift(ps: seq<Point3>, qs: seq<Point3>, offset: Point3, lo: Point3, hi: Point3)
    requires |qs| == |ps| && forall i :: 0 <= i < |qs| ==> qs[i] == Add3(ps[i], offset)
    requires TightBounds3(ps, lo, hi)
    ensures TightBounds3(qs, Add3(lo, offset), Add3(hi, offset))
  {
    forall i | 0 <= i < |qs| ensures Below3(Add3(lo, offset), qs[i]) && Below3(qs[i], Add3(hi, offset)) {
      assert Below3(lo, ps[i]) && Below3(ps[i], hi);
    }
    var i0 :| 0 <= i0 < |ps| && ps[i0].x == lo.x;
    var i1 :| 0 <= i1 < |ps| && ps[i1].y == lo.y;
    var i2 :| 0 <= i2 < |ps| && ps[i2].z == lo.z;
    var i3 :| 0 <= i3 < |ps| && ps[i3].x == hi.x;
    var i4 :| 0 <= i4 < |ps| && ps[i4].y == hi.y;
    var i5 :| 0 <= i5 < |ps| && ps[i5].z == hi.z;
    assert qs[i0].x == lo.x + offset.x && qs[i1].y == lo.y + offset.y && qs[i2].z == lo.z + offset.z;
    assert qs[i3].x == hi.x + offset.x && qs[i4].y == hi.y + offset.y && qs[i5].z == hi.z + offset.z;
  }

  /** `calc_bounds` of shifted entries, for a non-empty list. */
  lemma CalcBoundsWithOffset(entries: seq<Entry>, offset: Point3)
    ensures entries != [] ==>
      TightBounds3(Points(WithOffset(entries, offset)), Add3(CalcBounds(entries).min, offset), Add3(CalcBounds(entries).max, offset))
  {
    if entries != [] {
      TightBoundsWithOffset(entries, offset, CalcBounds(entries).min, CalcBounds(entries).max);
    }
  }

  /** Shifting by an offset and then by its negation restores the entries. */
  lemma WithOffsetInverse(entries: seq<Entry>, offset: Point3)
    ensures WithOffset(WithOffset(entries, offset), Sub3(Origin, offset)) == entries
  {
    var back := WithOffset(WithOffset(entries, offset), Sub3(Origin, offset));
    assert forall i :: 0 <= i < |entries| ==> back[i] == entries[i];
  }

  predicate AllWeighted(entries: seq<Entry>) {
    forall i :: 0 <= i < |entries| ==> entries[i].voxel.weight > 0
  }

  /** `to_points`: each entry's average colour `color / weight`; a zero weight
      would divide by zero, so every weight must be positive. */
  function AveragedPoints(entries: seq<Entry>): (r: seq<(Point3, Color)>)
    requires AllWeighted(entries)
    ensures |r| == |entries|
    ensures forall i :: 0 <= i < |r| ==> r[i].0 == entries[i].point
    ensures forall i :: 0 <= i < |r| ==> IsAverage(r[i].1, entries[i].voxel.color, entries[i].voxel.weight)
  {
    var avg := seq(|entries|, i requires 0 <= i < |entries| => (entries[i].point, DivColor(entries[i].voxel.color, entries[i].voxel.weight)));
    forall i | 0 <= i < |avg| ensures IsAverage(avg[i].1, entries[i].voxel.color, entries[i].voxel.weight) {
      DivColorIsAverage(entries[i].voxel.color, entries[i].voxel.weight);
    }
    avg
  }

  predicate WeightsAtMost(entries: seq<Entry>, wmax: nat) {
    forall i :: 0 <= i < |entries| ==> entries[i].voxel.weight <= wmax
  }

  /** The voxels given for point `p`, in input order. */
  function VoxelsOf(entries: seq<Entry>): (r: seq<Voxel>)
    ensures |r| == |entries| && forall i :: 0 <= i < |r| ==> r[i] == entries[i].voxel
  {
    seq(|entries|, i requires 0 <= i < |entries| => entries[i].voxel)
  }

  function VoxelsAt(entries: seq<Entry>, p: Point3): (r: seq<Voxel>)
    ensures r == [] <==> p !in Points(entries)
    ensures |r| <= |entries|
    ensures forall i :: 0 <= i < |r| ==> r[i] in VoxelsOf(entries)
  {
    if entries == [] then []
    else
      var init, last := entries[..|entries| - 1], entries[|entries| - 1];
      assert Points(entries) == Points(init) + [last.point];
      assert VoxelsOf(entries) == VoxelsOf(init) + [last.voxel];
      VoxelsAt(init, p) + (if last.point == p then [last.voxel] else [])
  }

  /** The positions of the entries at `p`. */
  function IndicesAt(entries: seq<Entry>, p: Point3): set<nat> {
    set i: nat | i < |entries| && entries[i].point == p
  }

  lemma IndicesAtSnoc(entries: seq<Entry>, p: Point3)
    requires entries != []
    ensures var n := |entries| - 1;
      && IndicesAt(entries, p) == IndicesAt(entries[..n], p) + (if entries[n].point == p then {n} else {})
      && n !in IndicesAt(entries[..n], p)
  {
  }

  lemma VoxelsAtSnoc(entries: seq<Entry>, p: Point3)
    requires entries != []
    ensures var n := |entries| - 1;
      VoxelsAt(entries, p) == VoxelsAt(entries[..n], p) + (if entries[n].point == p then [entries[n].voxel] else [])
  {
  }

  /** `VoxelsAt` holds one voxel per entry at `p`. */
  lemma {:induction false} VoxelsAtCount(entries: seq<Entry>, p: Point3)
    ensures |VoxelsAt(entries, p)| == |IndicesAt(entries, p)|
  {
    if entries != [] {
      VoxelsAtCount(entries[..|entries| - 1], p);
      IndicesAtSnoc(entries, p);
      VoxelsAtSnoc(entries, p);
    }
  }

  /** The entry at position `i`, when it is at `p`, contributes the element
      of `VoxelsAt` after those of the earlier entries at `p`. */
  lemma {:induction false} VoxelsAtOrder(entries: seq<Entry>, p: Point3, i: nat)
    requires i < |entries| && entries[i].point == p
    ensures |IndicesAt(entries[..i], p)| < |VoxelsAt(entries, p)|
    ensures VoxelsAt(entries, p)[|IndicesAt(entries[..i], p)|] == entries[i].voxel
  {
    var n := |entries| - 1;
    var init := entries[..n];
    VoxelsAtSnoc(entries, p);
    if i < n {
      VoxelsAtOrder(init, p, i);
      assert entries[..i] == init[..i];
    } else {
      assert entries[..i] == init;
      VoxelsAtCount(init, p);
    }
  }

  /** `VoxelsAt` holds one voxel per entry at `p`, and the entry at position
      `i` contributes the element after those of the earlier entries at `p`:
      the voxels at `p` in input order, and nothing else. */
  lemma VoxelsAtContents(entries: seq<Entry>, p: Point3)
    ensures |VoxelsAt(entries, p)| == |IndicesAt(entries, p)|
    ensures forall i :: 0 <= i < |entries| && entries[i].point == p ==>
      |IndicesAt(entries[..i], p)| < |VoxelsAt(entries, p)| && VoxelsAt(entries, p)[|IndicesAt(entries[..i], p)|] == entries[i].voxel
  {
    VoxelsAtCount(entries, p);
    forall i | 0 <= i < |entries| && entries[i].point == p
      ensures |IndicesAt(entries[..i], p)| < |VoxelsAt(entries, p)|
      ensures VoxelsAt(entries, p)[|IndicesAt(entries[..i], p)|] == entries[i].voxel
    {
      VoxelsAtOrder(entries, p, i);
    }
  }

  /** The first voxel stored as given, every later one accumulated into it. */
  function Collapse(vs: seq<Voxel>, wmax: nat): (r: Voxel)
    requires vs != [] && vs[0].weight <= wmax
    ensures r.weight <= wmax
  {
    if |vs| == 1 then vs[0]
    else AddColorWithWeightCheck(Collapse(vs[..|vs| - 1], wmax), vs[|vs| - 1], wmax)
  }

  /** A voxel count in unit-weight voxels is the number of points, saturated. */
  lemma {:induction false} CollapseUnitWeights(vs: seq<Voxel>, wmax: nat)
    requires vs != [] && wmax >= 1
    requires forall i :: 0 <= i < |vs| ==> vs[i].weight == 1
    ensures Collapse(vs, wmax).weight == Min(|vs|, wmax)
  {
    if |vs| > 1 {
      CollapseUnitWeights(vs[..|vs| - 1], wmax);
    }
  }
}
