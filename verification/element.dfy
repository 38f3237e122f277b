/** Voxels, integer coordinates and their neighbours (src/element.rs). */
module Element {
  import opened Wrappers

  /** The value range of the coordinate type `P` (one of u8 … i64, usize,
      isize); `checked_add` and `checked_sub` fail outside it.  Every such type
      contains 0 and 1. */
  datatype IntRange = IntRange(lo: int, hi: int) {
    predicate Valid() { lo <= 0 < hi }
    predicate Contains(v: int) { lo <= v <= hi }
  }

  /** `a.checked_add(&b)` in the type described by `t`. */
  function CheckedAdd(t: IntRange, a: int, b: int): (r: Option<int>)
    ensures r.Some? <==> t.Contains(a + b)
    ensures r.Some? ==> r.value == a + b
  {
    if t.Contains(a + b) then Some(a + b) else None
  }

  /** `a.checked_sub(&b)` in the type described by `t`. */
  function CheckedSub(t: IntRange, a: int, b: int): (r: Option<int>)
    ensures r.Some? <==> t.Contains(a - b)
    ensures r.Some? ==> r.value == a - b
  {
    if t.Contains(a - b) then Some(a - b) else None
  }

  datatype Point3 = Point3(x: int, y: int, z: int)

  datatype Point2 = Point2(x: int, y: int)

  /** RGB colour, one unsigned channel each. */
  datatype Color = Color(r: nat, g: nat, b: nat)

  /** A running colour sum and the number of points (weight) that produced it;
      the voxel's colour is `color / weight`. */
  datatype Voxel = Voxel(color: Color, weight: nat)

  const Black := Color(0, 0, 0)
  const Origin := Point3(0, 0, 0)

  /** `Voxel::default()`: an empty cell of a dense store. */
  const EmptyVoxel := Voxel(Black, 0)

  /** `Voxel::new`: one point of colour `c`. */
  function NewVoxel(c: Color): Voxel {
    Voxel(c, 1)
  }

  function AddColor(a: Color, b: Color): Color {
    Color(a.r + b.r, a.g + b.g, a.b + b.b)
  }

  function ScaleColor(a: Color, k: nat): Color {
    Color(a.r * k, a.g * k, a.b * k)
  }

  /** Channel-wise unsigned integer division. */
  function DivColor(a: Color, k: nat): Color
    requires k > 0
  {
    Color(a.r / k, a.g / k, a.b / k)
  }

  /** `a` is `sum / w` rounded down, on every channel. */
  predicate IsAverage(a: Color, sum: Color, w: nat) {
    && a.r * w <= sum.r < a.r * w + w
    && a.g * w <= sum.g < a.g * w + w
    && a.b * w <= sum.b < a.b * w + w
  }

  lemma DivColorIsAverage(sum: Color, w: nat)
    requires w > 0
    ensures IsAverage(DivColor(sum, w), sum, w)
  {
    var a := DivColor(sum, w);
    assert sum.r == a.r * w + sum.r % w;
    assert sum.g == a.g * w + sum.g % w;
    assert sum.b == a.b * w + sum.b % w;
  }

  function Add3(a: Point3, b: Point3): Point3 {
    Point3(a.x + b.x, a.y + b.y, a.z + b.z)
  }

  function Sub3(a: Point3, b: Point3): Point3 {
    Point3(a.x - b.x, a.y - b.y, a.z - b.z)
  }

  /** Shifting by `min` is undone exactly by subtracting `min`. */
  lemma ShiftedFrom(p: Point3, min: Point3)
    ensures forall q :: Add3(q, min) == p <==> q == Sub3(p, min)
  {
  }

  /** `Point3D::fit`: the first two coordinates. */
  function Fit(p: Point3): Point2 {
    Point2(p.x, p.y)
  }

  datatype Axis = X | Y | Z

  /** The six neighbour directions: `left`/`right` step the first coordinate,
      `back`/`front` the second, `bottom`/`top` the third. */
  datatype Side = Left | Right | Back | Front | Bottom | Top

  function AxisOf(d: Side): Axis {
    match d
    case Left | Right => X
    case Back | Front => Y
    case Bottom | Top => Z
  }

  function StepOf(d: Side): int {
    match d
    case Right | Front | Top => 1
    case Left | Back | Bottom => -1
  }

  function Opposite(d: Side): Side {
    match d
    case Left => Right
    case Right => Left
    case Back => Front
    case Front => Back
    case Bottom => Top
    case Top => Bottom
  }

  function Coord(p: Point3, a: Axis): int {
    match a
    case X => p.x
    case Y => p.y
    case Z => p.z
  }

  predicate InRange3(t: IntRange, p: Point3) {
    t.Contains(p.x) && t.Contains(p.y) && t.Contains(p.z)
  }

  predicate InRange2(t: IntRange, p: Point2) {
    t.Contains(p.x) && t.Contains(p.y)
  }

  /** `Point for Point3D`: `right`, `left`, `front`, `back`, `top`, `bottom`.
      A neighbour exists exactly when the stepped coordinate is representable;
      it differs from `p` on the stepped axis only, by one. */
  function Neighbour3(t: IntRange, p: Point3, d: Side): (r: Option<Point3>)
    ensures r.Some? <==> t.Contains(Coord(p, AxisOf(d)) + StepOf(d))
    ensures r.Some? ==> Coord(r.value, AxisOf(d)) == Coord(p, AxisOf(d)) + StepOf(d)
    ensures r.Some? ==> forall a :: a != AxisOf(d) ==> Coord(r.value, a) == Coord(p, a)
  {
    match d
    case Right => (match CheckedAdd(t, p.x, 1) case None => None case Some(v) => Some(Point3(v, p.y, p.z)))
    case Left => (match CheckedSub(t, p.x, 1) case None => None case Some(v) => Some(Point3(v, p.y, p.z)))
    case Front => (match CheckedAdd(t, p.y, 1) case None => None case Some(v) => Some(Point3(p.x, v, p.z)))
    case Back => (match CheckedSub(t, p.y, 1) case None => None case Some(v) => Some(Point3(p.x, v, p.z)))
    case Top => (match CheckedAdd(t, p.z, 1) case None => None case Some(v) => Some(Point3(p.x, p.y, v)))
    case Bottom => (match CheckedSub(t, p.z, 1) case None => None case Some(v) => Some(Point3(p.x, p.y, v)))
  }

  /** Stepping there and back returns to the starting point. */
  lemma NeighbourRoundTrip3(t: IntRange, p: Point3, d: Side)
    requires InRange3(t, p)
    requires Neighbour3(t, p, d).Some?
    ensures Neighbour3(t, Neighbour3(t, p, d).value, Opposite(d)) == Some(p)
  {
    var q := Neighbour3(t, p, d).value;
    assert AxisOf(Opposite(d)) == AxisOf(d) && StepOf(Opposite(d)) == -StepOf(d);
    assert Coord(q, AxisOf(d)) - StepOf(d) == Coord(p, AxisOf(d));
    var back := Neighbour3(t, q, Opposite(d));
    assert back.Some?;
    assert forall a :: Coord(back.value, a) == Coord(p, a);
    assert Coord(back.value, X) == Coord(p, X) && Coord(back.value, Y) == Coord(p, Y) && Coord(back.value, Z) == Coord(p, Z);
  }

  /** In an unsigned type a coordinate 0 has no lower neighbour on its axis. */
  lemma UnsignedEdgeHasNoLowerNeighbour(t: IntRange, p: Point3, d: Side)
    requires t.lo == 0 && StepOf(d) == -1 && Coord(p, AxisOf(d)) == 0
    ensures Neighbour3(t, p, d) == None
  {
  }

  /** `Point for Point2D`: the planar neighbours; `top` and `bottom` never exist. */
  function Neighbour2(t: IntRange, p: Point2, d: Side): (r: Option<Point2>)
    ensures AxisOf(d) == Z ==> r == None
    ensures d == Right ==> (r.Some? <==> t.Contains(p.x + 1)) && (r.Some? ==> r.value == Point2(p.x + 1, p.y))
    ensures d == Left ==> (r.Some? <==> t.Contains(p.x - 1)) && (r.Some? ==> r.value == Point2(p.x - 1, p.y))
    ensures d == Front ==> (r.Some? <==> t.Contains(p.y + 1)) && (r.Some? ==> r.value == Point2(p.x, p.y + 1))
    ensures d == Back ==> (r.Some? <==> t.Contains(p.y - 1)) && (r.Some? ==> r.value == Point2(p.x, p.y - 1))
  {
    match d
    case Right => (match CheckedAdd(t, p.x, 1) case None => None case Some(v) => Some(Point2(v, p.y)))
    case Left => (match CheckedSub(t, p.x, 1) case None => None case Some(v) => Some(Point2(v, p.y)))
    case Front => (match CheckedAdd(t, p.y, 1) case None => None case Some(v) => Some(Point2(p.x, v)))
    case Back => (match CheckedSub(t, p.y, 1) case None => None case Some(v) => Some(Point2(p.x, v)))
    case Top => None
    case Bottom => None
  }

  function Min(a: int, b: int): int { if a <= b then a else b }
  function Max(a: int, b: int): int { if a >= b then a else b }

  function Min3(a: Point3, b: Point3): Point3 { Point3(Min(a.x, b.x), Min(a.y, b.y), Min(a.z, b.z)) }
  function Max3(a: Point3, b: Point3): Point3 { Point3(Max(a.x, b.x), Max(a.y, b.y), Max(a.z, b.z)) }

  /** `lo` is componentwise at most `hi`. */
  predicate Below3(lo: Point3, hi: Point3) {
    lo.x <= hi.x && lo.y <= hi.y && lo.z <= hi.z
  }

  predicate Below2(lo: Point2, hi: Point2) {
    lo.x <= hi.x && lo.y <= hi.y
  }

  /** `lo` and `hi` are the per-axis minimum and maximum of `list`: every
      point lies between them and each of their coordinates is attained. */
  ghost predicate TightBounds3(list: seq<Point3>, lo: Point3, hi: Point3) {
    && (forall i :: 0 <= i < |list| ==> Below3(lo, list[i]) && Below3(list[i], hi))
    && (exists i :: 0 <= i < |list| && list[i].x == lo.x)
    && (exists i :: 0 <= i < |list| && list[i].y == lo.y)
    && (exists i :: 0 <= i < |list| && list[i].z == lo.z)
    && (exists i :: 0 <= i < |list| && list[i].x == hi.x)
    && (exists i :: 0 <= i < |list| && list[i].y == hi.y)
    && (exists i :: 0 <= i < |list| && list[i].z == hi.z)
  }

  /** Tight bounds of a list are unique. */
  lemma TightBounds3Unique(list: seq<Point3>, lo: Point3, hi: Point3, lo': Point3, hi': Point3)
    requires TightBounds3(list, lo, hi) && TightBounds3(list, lo', hi')
    ensures lo == lo' && hi == hi'
  {
  }

  /** The tight bounds of a concatenation combine those of its parts. */
  lemma TightBounds3Concat(l1: seq<Point3>, l2: seq<Point3>, lo1: Point3, hi1: Point3, lo2: Point3, hi2: Point3)
    requires TightBounds3(l1, lo1, hi1) && TightBounds3(l2, lo2, hi2)
    ensures TightBounds3(l1 + l2, Min3(lo1, lo2), Max3(hi1, hi2))
  {
    var l, lo, hi := l1 + l2, Min3(lo1, lo2), Max3(hi1, hi2);
    forall i | 0 <= i < |l|
      ensures Below3(lo, l[i]) && Below3(l[i], hi)
    {
      if i >= |l1| { assert l[i] == l2[i - |l1|]; }
    }
    AttainedInConcat(l1, l2, lo1.x, lo2.x, X, true);
    AttainedInConcat(l1, l2, lo1.y, lo2.y, Y, true);
    AttainedInConcat(l1, l2, lo1.z, lo2.z, Z, true);
    AttainedInConcat(l1, l2, hi1.x, hi2.x, X, false);
    AttainedInConcat(l1, l2, hi1.y, hi2.y, Y, false);
    AttainedInConcat(l1, l2, hi1.z, hi2.z, Z, false);
  }

  lemma AttainedInConcat(l1: seq<Point3>, l2: seq<Point3>, v1: int, v2: int, a: Axis, takeMin: bool)
    requires exists i :: 0 <= i < |l1| && Coord(l1[i], a) == v1
    requires exists i :: 0 <= i < |l2| && Coord(l2[i], a) == v2
    ensures exists i :: 0 <= i < |l1 + l2| && Coord((l1 + l2)[i], a) == (if takeMin then Min(v1, v2) else Max(v1, v2))
  {
    var i1 :| 0 <= i1 < |l1| && Coord(l1[i1], a) == v1;
    var i2 :| 0 <= i2 < |l2| && Coord(l2[i2], a) == v2;
    assert (l1 + l2)[i1] == l1[i1] && (l1 + l2)[|l1| + i2] == l2[i2];
  }

  /** `Point3D::calc_bounds`: per-axis minimum and maximum of a non-empty list
      (the source reads `list[0]`, so an empty list panics). */
  function CalcBounds3(list: seq<Point3>): (r: (Point3, Point3))
    requires |list| > 0
    ensures TightBounds3(list, r.0, r.1)
  {
    if |list| == 1 then (list[0], list[0])
    else
      var init := list[..|list| - 1];
      var p := list[|list| - 1];
      var (lo, hi) := CalcBounds3(init);
      assert forall i :: 0 <= i < |init| ==> init[i] == list[i];
      (Min3(lo, p), Max3(hi, p))
  }

  /** `Point2D::calc_bounds`, the planar counterpart of `CalcBounds3`. */
  function CalcBounds2(list: seq<Point2>): (r: (Point2, Point2))
    requires |list| > 0
    ensures forall i :: 0 <= i < |list| ==> Below2(r.0, list[i]) && Below2(list[i], r.1)
    ensures exists i :: 0 <= i < |list| && list[i].x == r.0.x
    ensures exists i :: 0 <= i < |list| && list[i].y == r.0.y
    ensures exists i :: 0 <= i < |list| && list[i].x == r.1.x
    ensures exists i :: 0 <= i < |list| && list[i].y == r.1.y
  {
    if |list| == 1 then (list[0], list[0])
    else
      var init := list[..|list| - 1];
      var p := list[|list| - 1];
      var (lo, hi) := CalcBounds2(init);
      assert forall i :: 0 <= i < |init| ==> init[i] == list[i];
      (Point2(Min(lo.x, p.x), Min(lo.y, p.y)), Point2(Max(hi.x, p.x), Max(hi.y, p.y)))
  }

  /** `Voxel::new(c)` averages back to `c`. */
  lemma NewVoxelAveragesToItsColor(c: Color)
    ensures NewVoxel(c).weight == 1
    ensures DivColor(NewVoxel(c).color, NewVoxel(c).weight) == c
  {
  }
}
