/** The `VoxelCollection` trait of src/collection.rs over its five stores:
    the builder, cached bounds, offset application, averaged points and
    `merge`. */
module VoxelCollections {
  import opened Wrappers
  import opened Element
  import opened CollectionCore
  import OrderedMaps
  import PointClouds
  import Vec3Collections
  import Vec2Collections
  import HMap3DCollections
  import HMap2DCollections
  import Grid

  datatype Kind = PointCloudKind | Vec3Kind | Vec2Kind | HMap3DKind | HMap2DKind

  datatype Collection =
    | PC(pc: PointClouds.PointCloud)
    | V3(v3: Vec3Collections.Vec3Collection)
    | V2(v2: Vec2Collections.Vec2Collection)
    | H3(h3: HMap3DCollections.HMap3DCollection)
    | H2(h2: HMap2DCollections.HMap2DCollection)

  function KindOf(c: Collection): Kind {
    match c
    case PC(_) => PointCloudKind
    case V3(_) => Vec3Kind
    case V2(_) => Vec2Kind
    case H3(_) => HMap3DKind
    case H2(_) => HMap2DKind
  }

  /** The stores whose bounds are a plain cache. */
  predicate Sparse(k: Kind) {
    k == PointCloudKind || k == HMap3DKind || k == HMap2DKind
  }

  /** The shape each store keeps, independent of weights. */
  ghost predicate ShapeOk(c: Collection) {
    match c
    case PC(_) => true
    case V3(x) => Grid.Shaped3(x.field, Vec3Collections.Size(x.bounds))
    case V2(x) => Grid.Shaped2(x.field, Vec2Collections.SizeX(x), Vec2Collections.SizeY(x))
    case H3(x) => OrderedMaps.Valid(x.field)
    case H2(x) => OrderedMaps.Valid(x.field)
  }

  /** Every weight fits the weight type (the `W` of the source). */
  ghost predicate WellFormed(c: Collection, wmax: nat) {
    match c
    case PC(x) => WeightsAtMost(x.field, wmax)
    case V3(x) => Vec3Collections.WellFormed(x, wmax)
    case V2(x) => Vec2Collections.WellFormed(x, wmax)
    case H3(x) => HMap3DCollections.WellFormed(x, wmax)
    case H2(x) => HMap2DCollections.WellFormed(x, wmax)
  }

  function Offset(c: Collection): Point3 {
    match c
    case PC(x) => x.offset
    case V3(x) => x.offset
    case V2(x) => x.offset
    case H3(x) => x.offset
    case H2(x) => x.offset
  }

  function Resolution(c: Collection): real {
    match c
    case PC(x) => x.resolution
    case V3(x) => x.resolution
    case V2(x) => x.resolution
    case H3(x) => x.resolution
    case H2(x) => x.resolution
  }

  /** `get_inner_bounds`: the cached bounds; Vec3 always has its box, Vec2
      only while its `z` extent is cached. */
  function InnerBounds(c: Collection): Option<Bounds> {
    match c
    case PC(x) => x.bounds
    case V3(x) => Some(x.bounds)
    case V2(x) =>
      if x.boundsZ.Some? then
        Some(Bounds(Point3(x.minXY.x, x.minXY.y, x.boundsZ.value.0), Point3(x.maxXY.x, x.maxXY.y, x.boundsZ.value.1)))
      else None
    case H3(x) => x.bounds
    case H2(x) => x.bounds
  }

  /** `set_inner_bounds` of the sparse stores (the dense ones panic, and the
      trait never calls them there). */
  function SetInnerBounds(c: Collection, b: Bounds): (r: Collection)
    requires Sparse(KindOf(c))
    ensures InnerBounds(r) == Some(b)
  {
    match c
    case PC(x) => PC(x.(bounds := Some(b)))
    case H3(x) => H3(x.(bounds := Some(b)))
    case H2(x) => H2(x.(bounds := Some(b)))
  }

  /** `VC::new` for the chosen store; only the dense stores can fail. */
  function New(kind: Kind, voxels: seq<Entry>, bounds: Option<Bounds>, offset: Point3, resolution: real, wmax: nat)
    : (r: Result<Collection, CollectionError>)
    requires WeightsAtMost(voxels, wmax)
    ensures r.Ok? ==> KindOf(r.value) == kind && WellFormed(r.value, wmax) && ShapeOk(r.value)
    ensures r.Ok? ==> Offset(r.value) == offset && Resolution(r.value) == resolution
    ensures Sparse(kind) ==> r.Ok? && InnerBounds(r.value) == bounds
    ensures r.Err? ==> r.error in {NegativeSize, IndexOutOfBounds}
  {
    match kind
    case PointCloudKind => Ok(PC(PointClouds.New(voxels, bounds, offset, resolution)))
    case HMap3DKind => Ok(H3(HMap3DCollections.New(voxels, bounds, offset, resolution, wmax)))
    case HMap2DKind => Ok(H2(HMap2DCollections.New(voxels, bounds, offset, resolution, wmax)))
    case Vec3Kind =>
      (match Vec3Collections.New(voxels, bounds, offset, resolution, wmax)
       case Ok(v) => Ok(V3(v))
       case Err(e) => Err(e))
    case Vec2Kind =>
      (match Vec2Collections.New(voxels, bounds, offset, resolution, wmax)
       case Ok(v) => Ok(V2(v))
       case Err(e) => Err(e))
  }

  /** `has_bounds`: the sparse stores report whether bounds are cached; the
      dense ones always answer true. */
  function HasBounds(c: Collection): (r: bool)
    ensures !Sparse(KindOf(c)) ==> r
    ensures Sparse(KindOf(c)) ==> (r <==> InnerBounds(c).Some?)
  {
    match c
    case V3(_) => true
    case V2(_) => true
    case _ => InnerBounds(c).Some?
  }

  function ToVec(c: Collection): seq<Entry>
    requires ShapeOk(c)
  {
    match c
    case PC(x) => PointClouds.ToVec(x)
    case V3(x) => Vec3Collections.ToVec(x)
    case V2(x) => Vec2Collections.ToVec(x)
    case H3(x) => HMap3DCollections.ToVec(x)
    case H2(x) => HMap2DCollections.ToVec(x)
  }

  /** Every listed voxel fits the weight type. */
  lemma ToVecWeights(c: Collection, wmax: nat)
    requires WellFormed(c, wmax) && ShapeOk(c)
    ensures WeightsAtMost(ToVec(c), wmax)
  {
    var es := ToVec(c);
    forall i | 0 <= i < |es| ensures es[i].voxel.weight <= wmax {
      match c
      case PC(_) =>
      case V3(x) => assert Vec3Collections.CellAt(x, es[i].point) == Some(es[i].voxel);
      case V2(x) => assert Vec2Collections.ColumnAt(x, Fit(es[i].point)).value.voxel == es[i].voxel;
      case H3(x) => assert es[i].point in x.field.entries;
      case H2(x) => assert Fit(es[i].point) in x.field.entries;
    }
  }

  /** `to_vec_with_offset`. */
  function ToVecWithOffset(c: Collection): (r: seq<Entry>)
    requires ShapeOk(c)
    ensures |r| == |ToVec(c)|
    ensures forall i :: 0 <= i < |r| ==> r[i] == Entry(Add3(ToVec(c)[i].point, Offset(c)), ToVec(c)[i].voxel)
  {
    WithOffset(ToVec(c), Offset(c))
  }

  /** `to_points`: the averaged colour of every listed voxel.  A zero weight
      divides by zero in the source. */
  function ToPoints(c: Collection): (r: seq<(Point3, Color)>)
    requires ShapeOk(c) && AllWeighted(ToVec(c))
    ensures |r| == |ToVec(c)|
    ensures forall i :: 0 <= i < |r| ==> r[i].0 == ToVec(c)[i].point
    ensures forall i :: 0 <= i < |r| ==> IsAverage(r[i].1, ToVec(c)[i].voxel.color, ToVec(c)[i].voxel.weight)
  {
    AveragedPoints(ToVec(c))
  }

  /** The trait's default `get_bounds` on a store without cached bounds: the
      tight bounds of the listed points shifted by the offset, then cached. */
  function ComputeBounds(c: Collection): (r: (Bounds, Collection))
    requires ShapeOk(c) && Sparse(KindOf(c))
    ensures KindOf(r.1) == KindOf(c) && ShapeOk(r.1) && ToVec(r.1) == ToVec(c)
    ensures Offset(r.1) == Offset(c) && Resolution(r.1) == Resolution(c)
    ensures InnerBounds(r.1) == Some(r.0)
    ensures ToVec(c) == [] ==> r.0 == Bounds(Offset(c), Offset(c))
    ensures ToVec(c) != [] ==> TightBounds3(Points(ToVecWithOffset(c)), r.0.min, r.0.max)
  {
    var es := ToVec(c);
    var b := CalcBounds(es);
    var shifted := Bounds(Add3(b.min, Offset(c)), Add3(b.max, Offset(c)));
    CalcBoundsWithOffset(es, Offset(c));
    (shifted, SetInnerBounds(c, shifted))
  }

  /** `get_bounds`: the cached bounds if any, else `ComputeBounds`; Vec2 uses
      its own override, which can fail and never caches. */
  function GetBounds(c: Collection): (r: Result<(Bounds, Collection), CollectionError>)
    requires ShapeOk(c)
    ensures r.Err? ==> KindOf(c) == Vec2Kind && r.error == EmptyUnwrap
    ensures InnerBounds(c).Some? ==> r == Ok((InnerBounds(c).value, c))
    ensures r.Ok? ==> KindOf(r.value.1) == KindOf(c) && ShapeOk(r.value.1) && ToVec(r.value.1) == ToVec(c)
                      && Offset(r.value.1) == Offset(c) && Resolution(r.value.1) == Resolution(c)
    ensures r.Ok? && KindOf(c) != Vec2Kind ==> InnerBounds(r.value.1) == Some(r.value.0)
    ensures InnerBounds(c).None? && Sparse(KindOf(c)) ==> r == Ok(ComputeBounds(c))
  {
    if c.V2? then
      match Vec2Collections.GetBounds(c.v2)
      case Ok(b) => Ok((b, c))
      case Err(e) => Err(e)
    else if InnerBounds(c).Some? then Ok((InnerBounds(c).value, c))
    else Ok(ComputeBounds(c))
  }

  /** Asking twice gives the same bounds, and the second call changes nothing. */
  lemma GetBoundsIdempotent(c: Collection)
    requires ShapeOk(c) && GetBounds(c).Ok?
    ensures GetBounds(GetBounds(c).value.1) == Ok(GetBounds(c).value)
  {
  }

  /** `insert_one` of each store. */
  function InsertOne(c: Collection, p: Point3, v: Voxel, wmax: nat): (r: Collection)
    requires WellFormed(c, wmax) && ShapeOk(c) && v.weight <= wmax
    ensures WellFormed(r, wmax) && ShapeOk(r) && KindOf(r) == KindOf(c)
    ensures Offset(r) == Offset(c) && Resolution(r) == Resolution(c)
    ensures Sparse(KindOf(c)) ==> InnerBounds(r) == None
    ensures KindOf(c) == Vec3Kind ==> InnerBounds(r) == InnerBounds(c)
  {
    match c
    case PC(x) =>
      var y := PointClouds.InsertOne(x, p, v);
      assert forall i :: 0 <= i < |x.field| ==> y.field[i] == x.field[i];
      PC(y)
    case V3(x) => V3(Vec3Collections.InsertOne(x, p, v, wmax))
    case V2(x) => V2(Vec2Collections.InsertOne(x, p, v, wmax))
    case H3(x) => H3(HMap3DCollections.InsertOne(x, p, v, wmax))
    case H2(x) => H2(HMap2DCollections.InsertOne(x, p, v, wmax))
  }

  /** `has` of each store (Vec2 with its index taken relative to the grid). */
  function Has(c: Collection, p: Point3): bool {
    match c
    case PC(x) => exists i :: 0 <= i < |x.field| && x.field[i].point == p
    case V3(x) => Vec3Collections.Has(x, p)
    case V2(x) => Vec2Collections.Has(x, p)
    case H3(x) => HMap3DCollections.Has(x, p)
    case H2(x) => HMap2DCollections.Has(x, p)
  }

  /** `has` answers true exactly for the points `to_vec` lists, a dense
      store asking in addition that the listed voxel carry weight. */
  lemma HasIffListed(c: Collection, p: Point3)
    requires ShapeOk(c)
    ensures Has(c, p) <==> exists k :: 0 <= k < |ToVec(c)| && ToVec(c)[k].point == p
                                       && (!Sparse(KindOf(c)) ==> ToVec(c)[k].voxel.weight != 0)
  {
    match c
    case PC(x) => assert ToVec(c) == x.field;
    case V3(x) =>
      assert ToVec(c) == Vec3Collections.ToVec(x) && !Sparse(KindOf(c));
      Vec3Collections.HasIffListed(x, p);
    case V2(x) =>
      assert ToVec(c) == Vec2Collections.ToVec(x) && !Sparse(KindOf(c));
      Vec2Collections.HasIffListed(x, p);
    case H3(x) =>
      assert ToVec(c) == HMap3DCollections.ToVec(x) && Sparse(KindOf(c));
      HMap3DCollections.HasIffListed(x, p);
    case H2(x) =>
      assert ToVec(c) == HMap2DCollections.ToVec(x) && Sparse(KindOf(c));
      HMap2DCollections.HasIffListed(x, p);
  }

  /** The hash-map stores list every point once. */
  lemma ToVecDistinct(c: Collection)
    requires ShapeOk(c) && KindOf(c) in {HMap3DKind, HMap2DKind}
    ensures forall i, j :: 0 <= i < j < |ToVec(c)| ==> ToVec(c)[i].point != ToVec(c)[j].point
  {
    match c
    case H3(x) => HMap3DCollections.ToVecDistinct(x);
    case H2(x) =>
      var r := ToVec(c);
      HMap2DCollections.ToVecDistinct(x);
      forall i, j | 0 <= i < j < |r| ensures r[i].point != r[j].point {
        assert Fit(r[i].point) != Fit(r[j].point);
      }
  }

  /** A point just inserted into a point cloud or a 3-D hash map is present;
      in Vec3 it is present iff it lies in the box and its cell ends up with
      weight. */
  lemma HasAfterInsertOne(c: Collection, p: Point3, v: Voxel, wmax: nat)
    requires WellFormed(c, wmax) && ShapeOk(c) && v.weight <= wmax
    ensures KindOf(c) in {PointCloudKind, HMap3DKind} ==> Has(InsertOne(c, p, v, wmax), p)
    ensures KindOf(c) == HMap2DKind ==>
      (Has(InsertOne(c, p, v, wmax), p) <==> Fit(p) !in c.h2.field.entries || Has(c, p))
    ensures KindOf(c) == Vec3Kind ==>
      (Has(InsertOne(c, p, v, wmax), p) <==>
        InBounds(c.v3.bounds, p)
        && AddColorWithWeightCheck(Vec3Collections.CellAt(c.v3, p).value, v, wmax).weight != 0)
  {
    match c
    case PC(x) =>
      var y := PointClouds.InsertOne(x, p, v);
      assert y.field[|x.field|].point == p;
    case V3(x) => Vec3Collections.CellAtInBounds(x, p);
    case _ =>
  }

  /** `merge`: refused when the resolutions differ; otherwise both
      collections' offset-applied entries, in order, are built into a new
      store of the receiver's kind with offset zero and the shared
      resolution, and bounds only when both sides had them. */
  function Merge(a: Collection, b: Collection, wmax: nat): (r: Result<Collection, CollectionError>)
    requires WellFormed(a, wmax) && ShapeOk(a) && WellFormed(b, wmax) && ShapeOk(b)
    ensures (r.Err? && r.error == ResolutionMismatch) <==> Resolution(a) != Resolution(b)
    ensures r.Ok? ==> KindOf(r.value) == KindOf(a) && Offset(r.value) == Origin
                      && Resolution(r.value) == Resolution(a) && WellFormed(r.value, wmax) && ShapeOk(r.value)
    ensures Resolution(a) == Resolution(b) && Sparse(KindOf(a)) && KindOf(b) != Vec2Kind ==> r.Ok?
    ensures r.Ok? && Sparse(KindOf(a)) ==> (InnerBounds(r.value).Some? <==> HasBounds(a) && HasBounds(b))
    ensures r.Ok? && Sparse(KindOf(a)) && HasBounds(a) && HasBounds(b) ==>
      GetBounds(a).Ok? && GetBounds(b).Ok? &&
      forall p :: InBounds(GetBounds(a).value.0, p) || InBounds(GetBounds(b).value.0, p) ==> InBounds(InnerBounds(r.value).value, p)
    ensures r.Ok? && KindOf(a) == PointCloudKind ==> ToVec(r.value) == ToVecWithOffset(a) + ToVecWithOffset(b)
    ensures r.Ok? && KindOf(a) == HMap3DKind ==>
      r.value.h3.field.entries.Keys == (set p | p in Points(ToVecWithOffset(a))) + (set p | p in Points(ToVecWithOffset(b)))
  {
    if Resolution(a) != Resolution(b) then Err(ResolutionMismatch)
    else
      match MergeBounds(a, b)
      case Err(e) => Err(e)
      case Ok(bounds) =>
        var xs, ys := ToVecWithOffset(a), ToVecWithOffset(b);
        ToVecWeights(a, wmax);
        ToVecWeights(b, wmax);
        assert WeightsAtMost(xs + ys, wmax);
        MergeKeys(KindOf(a), xs, ys, bounds, Resolution(a), wmax);
        New(KindOf(a), xs + ys, bounds, Origin, Resolution(a), wmax)
  }

  /** The bounds `merge` gives `new`: when both sides have bounds, the box
      covering both (a `get_bounds` that fails fails the merge); otherwise
      none. */
  function MergeBounds(a: Collection, b: Collection): (r: Result<Option<Bounds>, CollectionError>)
    requires ShapeOk(a) && ShapeOk(b)
    ensures r.Err? ==> r.error == EmptyUnwrap
    ensures r.Ok? ==> (r.value.Some? <==> HasBounds(a) && HasBounds(b))
    ensures r.Ok? && r.value.Some? ==>
      GetBounds(a).Ok? && GetBounds(b).Ok? &&
      forall p :: InBounds(GetBounds(a).value.0, p) || InBounds(GetBounds(b).value.0, p) ==> InBounds(r.value.value, p)
    ensures Sparse(KindOf(a)) && KindOf(b) != Vec2Kind ==> r.Ok?
  {
    if HasBounds(a) && HasBounds(b) then
      match (GetBounds(a), GetBounds(b))
      case (Ok((ba, _)), Ok((bb, _))) => Ok(Some(CalcBoundsFrom2(ba, bb)))
      case (Err(e), _) => Err(e)
      case (_, Err(e)) => Err(e)
    else Ok(None)
  }

  /** When either side lacks bounds, `merge` is `new` of the concatenated
      offset-applied entries, without bounds, at offset zero. */
  lemma MergeWithoutBounds(a: Collection, b: Collection, wmax: nat)
    requires WellFormed(a, wmax) && ShapeOk(a) && WellFormed(b, wmax) && ShapeOk(b)
    requires Resolution(a) == Resolution(b) && !(HasBounds(a) && HasBounds(b))
    ensures WeightsAtMost(ToVecWithOffset(a) + ToVecWithOffset(b), wmax)
    ensures Merge(a, b, wmax) == New(KindOf(a), ToVecWithOffset(a) + ToVecWithOffset(b), None, Origin, Resolution(a), wmax)
  {
    ToVecWeights(a, wmax);
    ToVecWeights(b, wmax);
  }

  /** For every store, `merge` with matching resolutions is `new` of the
      concatenated offset-applied entries with the bounds `MergeBounds`
      gives, at offset zero; a failing `get_bounds` fails the merge.  What
      the result holds is then each store's `new` contract. */
  lemma MergeIsNew(a: Collection, b: Collection, wmax: nat)
    requires WellFormed(a, wmax) && ShapeOk(a) && WellFormed(b, wmax) && ShapeOk(b)
    requires Resolution(a) == Resolution(b)
    ensures WeightsAtMost(ToVecWithOffset(a) + ToVecWithOffset(b), wmax)
    ensures MergeBounds(a, b).Err? ==> Merge(a, b, wmax) == Err(MergeBounds(a, b).error)
    ensures MergeBounds(a, b).Ok? ==>
      Merge(a, b, wmax) == New(KindOf(a), ToVecWithOffset(a) + ToVecWithOffset(b), MergeBounds(a, b).value, Origin, Resolution(a), wmax)
  {
    ToVecWeights(a, wmax);
    ToVecWeights(b, wmax);
  }

  lemma MergeKeys(k: Kind, xs: seq<Entry>, ys: seq<Entry>, bounds: Option<Bounds>, res: real, wmax: nat)
    requires WeightsAtMost(xs + ys, wmax)
    ensures k == HMap3DKind ==>
      New(k, xs + ys, bounds, Origin, res, wmax).value.h3.field.entries.Keys
        == (set p | p in Points(xs)) + (set p | p in Points(ys))
  {
    if k == HMap3DKind {
      assert New(k, xs + ys, bounds, Origin, res, wmax) == Ok(H3(HMap3DCollections.New(xs + ys, bounds, Origin, res, wmax)));
      PointSetConcat(xs, ys);
    }
  }

  /** `BuildVoxelCollection`: the fields `build` passes to `new`. */
  datatype Builder = Builder(kind: Kind, voxels: seq<Entry>, bounds: Option<Bounds>, offset: Point3, resolution: real)

  /** `builder()`: no voxels, no bounds, zero offset, resolution one. */
  function NewBuilder(kind: Kind): (r: Builder)
    ensures r.voxels == [] && r.bounds == None && r.offset == Origin && r.resolution == 1.0 && r.kind == kind
  {
    Builder(kind, [], None, Origin, 1.0)
  }

  /** `points`: each point becomes a weight-one voxel of its colour, replacing
      whatever voxels were set before. */
  function WithPoints(b: Builder, points: seq<(Point3, Color)>): (r: Builder)
    ensures |r.voxels| == |points|
    ensures forall i :: 0 <= i < |points| ==>
      r.voxels[i].point == points[i].0 && r.voxels[i].voxel.color == points[i].1 && r.voxels[i].voxel.weight == 1
    ensures r.kind == b.kind && r.bounds == b.bounds && r.offset == b.offset && r.resolution == b.resolution
  {
    b.(voxels := seq(|points|, i requires 0 <= i < |points| => Entry(points[i].0, NewVoxel(points[i].1))))
  }

  /** `build`: `new` with the builder's fields.  The other setters
      (`voxels`, `bounds`, `offset`, `resolution`) replace one field each and
      are record updates of `Builder`. */
  function Build(b: Builder, wmax: nat): (r: Result<Collection, CollectionError>)
    requires WeightsAtMost(b.voxels, wmax)
    ensures r.Ok? ==> KindOf(r.value) == b.kind && Offset(r.value) == b.offset && Resolution(r.value) == b.resolution
    ensures r.Ok? ==> WellFormed(r.value, wmax) && ShapeOk(r.value)
    ensures Sparse(b.kind) ==> r.Ok? && InnerBounds(r.value) == b.bounds
  {
    New(b.kind, b.voxels, b.bounds, b.offset, b.resolution, wmax)
  }

  /** `build` with only `points` set, into a sparse store: offset zero,
      resolution one, no bounds, and unit weights that fit any weight type. */
  lemma BuildFromPoints(kind: Kind, points: seq<(Point3, Color)>, wmax: nat)
    requires Sparse(kind) && wmax >= 1
    ensures WeightsAtMost(WithPoints(NewBuilder(kind), points).voxels, wmax)
    ensures var r := Build(WithPoints(NewBuilder(kind), points), wmax);
      r.Ok? && Offset(r.value) == Origin && Resolution(r.value) == 1.0 && !HasBounds(r.value)
  {
  }
}
