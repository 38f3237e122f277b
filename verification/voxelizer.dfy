/** src/voxelizer.rs: turning point clouds into voxels.  `SimpleVoxelizer`
    quantises points by a fixed resolution in metres; `MapTileVoxelizer`
    sorts them into web-map tiles of a zoom level.  Both accumulate colour
    sums in a calculation store (`CalcVC`) and divide by the weight when they
    finish. */
module Voxelizers {
  import opened Wrappers
  import opened Element
  import opened CollectionCore
  import opened OrderedMaps
  import opened VoxelCollections
  import PointClouds
  import Vec3Collections
  import Vec2Collections
  import HMap3DCollections
  import HMap2DCollections

  /** `Resolution` as the voxelizers match on it: metres per voxel, or a tile
      zoom level together with the plane-rectangular origin. */
  datatype VoxelResolution = Mater(metres: real) | Tile(zoom: nat, origin: nat)

  /** An input point in the floating-point coordinates the voxelizers
      compute with. */
  datatype RPoint3 = RPoint3(x: real, y: real, z: real)

  /** One input point with its voxel. */
  datatype Sample = Sample(point: RPoint3, voxel: Voxel)

  /** `point.as_::<f64>()` for integer input coordinates. */
  function Samples(entries: seq<Entry>): (r: seq<Sample>)
    ensures |r| == |entries|
    ensures forall i :: 0 <= i < |r| ==>
      r[i].voxel == entries[i].voxel && r[i].point == RPoint3(entries[i].point.x as real, entries[i].point.y as real, entries[i].point.z as real)
  {
    seq(|entries|, i requires 0 <= i < |entries| =>
      Sample(RPoint3(entries[i].point.x as real, entries[i].point.y as real, entries[i].point.z as real), entries[i].voxel))
  }

  // ---------------------------------------------------------------------------
  // Shared steps
  // ---------------------------------------------------------------------------

  /** `q` is the cell of `p` at resolution `res`: on every axis `q` is the
      integer part of the coordinate divided by the resolution. */
  ghost predicate FloorOf(p: RPoint3, res: real, q: Point3)
    requires res != 0.0
  {
    && q.x as real <= p.x / res < q.x as real + 1.0
    && q.y as real <= p.y / res < q.y as real + 1.0
    && q.z as real <= p.z / res < q.z as real + 1.0
  }

  /** `(point / resolution).batch(floor)`: the one cell that contains `p`. */
  function Quantise(p: RPoint3, res: real): (r: Point3)
    requires res > 0.0
    ensures FloorOf(p, res, r)
    ensures forall q :: FloorOf(p, res, q) ==> q == r
  {
    Point3((p.x / res).Floor, (p.y / res).Floor, (p.z / res).Floor)
  }

  /** `average_color` over a list: every colour sum divided by its weight,
      each result a fresh one-point voxel at the same place. */
  function AverageAll(entries: seq<Entry>): (r: seq<Entry>)
    requires AllWeighted(entries)
    ensures |r| == |entries|
    ensures forall i :: 0 <= i < |r| ==> r[i].point == entries[i].point && r[i].voxel.weight == 1
    ensures forall i :: 0 <= i < |r| ==> IsAverage(r[i].voxel.color, entries[i].voxel.color, entries[i].voxel.weight)
  {
    var avg := seq(|entries|, i requires 0 <= i < |entries| =>
      Entry(entries[i].point, NewVoxel(DivColor(entries[i].voxel.color, entries[i].voxel.weight))));
    forall i | 0 <= i < |avg|
      ensures IsAverage(avg[i].voxel.color, entries[i].voxel.color, entries[i].voxel.weight)
    {
      DivColorIsAverage(entries[i].voxel.color, entries[i].voxel.weight);
    }
    avg
  }

  /** One-point voxels: the `points` builder setter and `Voxel::new`. */
  function UnitVoxels(ps: seq<(Point3, Color)>): (r: seq<Entry>)
    ensures |r| == |ps|
    ensures forall i :: 0 <= i < |r| ==> r[i] == Entry(ps[i].0, NewVoxel(ps[i].1))
  {
    seq(|ps|, i requires 0 <= i < |ps| => Entry(ps[i].0, NewVoxel(ps[i].1)))
  }

  /** Without explicit bounds every store can be built: the box computed
      from the entries holds them all. */
  lemma NewWithoutBoundsSucceeds(kind: Kind, voxels: seq<Entry>, offset: Point3, resolution: real, wmax: nat)
    requires WeightsAtMost(voxels, wmax)
    ensures New(kind, voxels, None, offset, resolution, wmax).Ok?
  {
    var b := CalcBounds(voxels);
    forall i | 0 <= i < |voxels| ensures InBounds(b, voxels[i].point) {
      assert Points(voxels)[i] == voxels[i].point;
    }
    if voxels != [] {
      assert InBounds(b, voxels[0].point);
    }
    if kind == Vec3Kind {
      Vec3Collections.NewWithoutBoundsSucceeds(voxels, offset, resolution, wmax);
    }
  }

  // ---------------------------------------------------------------------------
  // SimpleVoxelizer
  // ---------------------------------------------------------------------------

  /** `SimpleVoxelizer`: the calculation store and the resolution in metres. */
  datatype SimpleVoxelizer = SimpleVoxelizer(field: Collection, resolution: real)

  /** The calculation store is a sparse store at unit resolution, the
      resolution of the point clouds `add` merges into it. */
  ghost predicate SimpleOk(v: SimpleVoxelizer, wmax: nat) {
    && Sparse(KindOf(v.field)) && WellFormed(v.field, wmax) && ShapeOk(v.field)
    && Resolution(v.field) == 1.0
  }

  /** `CalcVC::default()` for the sparse stores: empty, no bounds, zero
      offset, unit resolution. */
  function DefaultCollection(kind: Kind): (r: Collection)
    requires Sparse(kind)
    ensures KindOf(r) == kind && ShapeOk(r) && forall wmax :: WellFormed(r, wmax)
    ensures ToVec(r) == [] && !HasBounds(r)
    ensures Offset(r) == Origin && Resolution(r) == 1.0
  {
    match kind
    case PointCloudKind => PC(PointClouds.Default())
    case HMap3DKind => H3(HMap3DCollections.HMap3DCollection(Empty(), None, Origin, 1.0))
    case HMap2DKind => H2(HMap2DCollections.HMap2DCollection(Empty(), None, Origin, 1.0))
  }

  /** `SimpleVoxelizer::new`: only a resolution in metres is accepted. */
  function NewSimple(res: VoxelResolution, kind: Kind): (r: Option<SimpleVoxelizer>)
    requires Sparse(kind)
    ensures r.Some? <==> res.Mater?
    ensures r.Some? ==> r.value.field == DefaultCollection(kind) && r.value.resolution == res.metres
    ensures r.Some? ==> forall wmax :: SimpleOk(r.value, wmax)
  {
    match res
    case Mater(m) => Some(SimpleVoxelizer(DefaultCollection(kind), m))
    case Tile(_, _) => None
  }

  /** The points of one `add` call: each quantised, with its colour sum. */
  function Quantised(input: seq<Sample>, res: real): (r: seq<(Point3, Color)>)
    requires res > 0.0
    ensures |r| == |input|
    ensures forall i :: 0 <= i < |r| ==> FloorOf(input[i].point, res, r[i].0) && r[i].1 == input[i].voxel.color
  {
    seq(|input|, i requires 0 <= i < |input| => (Quantise(input[i].point, res), input[i].voxel.color))
  }

  /** The cloud one `add` call builds (`PointCloud::builder().voxels(..)
      .build()`): the quantised points as one-point voxels, in input order,
      at unit resolution, without offset or bounds. */
  function AddedCloud(input: seq<Sample>, res: real): (r: Collection)
    requires res > 0.0
    ensures KindOf(r) == PointCloudKind && ShapeOk(r) && forall wmax :: wmax >= 1 ==> WellFormed(r, wmax)
    ensures ToVec(r) == UnitVoxels(Quantised(input, res)) && ToVecWithOffset(r) == ToVec(r)
    ensures Offset(r) == Origin && Resolution(r) == 1.0 && !HasBounds(r)
  {
    var q := Quantised(input, res);
    var b := WithPoints(NewBuilder(PointCloudKind), q);
    BuildFromPoints(PointCloudKind, q, 1);
    assert b.voxels == UnitVoxels(q);
    Build(b, 1).value
  }

  /** The points of one-point voxels are the given points. */
  lemma UnitVoxelsPoints(q: seq<(Point3, Color)>)
    ensures (set p | p in Points(UnitVoxels(q))) == (set i | 0 <= i < |q| :: q[i].0)
  {
    forall p | p in Points(UnitVoxels(q)) ensures p in (set i | 0 <= i < |q| :: q[i].0) {
      var i :| 0 <= i < |q| && Points(UnitVoxels(q))[i] == p;
    }
    forall i | 0 <= i < |q| ensures q[i].0 in Points(UnitVoxels(q)) {
      assert Points(UnitVoxels(q))[i] == q[i].0;
    }
  }

  /** `SimpleVoxelizer::add` with the added cloud's offset-applied entries:
      every point is quantised and becomes a one-point voxel of its colour
      sum (its weight is not carried over), the points are built into a
      point cloud and merged into the calculation store.  The merge keeps the
      store's kind, zeroes its offset and, since the new cloud has none,
      leaves it without bounds. */
  function Add(v: SimpleVoxelizer, input: seq<Sample>, wmax: nat): (r: SimpleVoxelizer)
    requires SimpleOk(v, wmax) && v.resolution > 0.0 && wmax >= 1
    ensures SimpleOk(r, wmax) && KindOf(r.field) == KindOf(v.field) && r.resolution == v.resolution
    ensures Offset(r.field) == Origin && !HasBounds(r.field)
    ensures KindOf(v.field) == PointCloudKind ==>
      ToVec(r.field) == ToVecWithOffset(v.field) + UnitVoxels(Quantised(input, v.resolution))
    ensures KindOf(v.field) == HMap3DKind ==>
      r.field.h3.field.entries.Keys
        == (set p | p in Points(ToVecWithOffset(v.field))) + (set i | 0 <= i < |input| :: Quantised(input, v.resolution)[i].0)
  {
    var pc := AddedCloud(input, v.resolution);
    UnitVoxelsPoints(Quantised(input, v.resolution));
    SimpleVoxelizer(Merge(v.field, pc, wmax).value, v.resolution)
  }

  /** `add` of an integer collection: its offset-applied entries, widened. */
  function AddCollection(v: SimpleVoxelizer, pc: Collection, wmax: nat): (r: SimpleVoxelizer)
    requires SimpleOk(v, wmax) && v.resolution > 0.0 && wmax >= 1 && ShapeOk(pc)
    ensures SimpleOk(r, wmax) && KindOf(r.field) == KindOf(v.field) && r.resolution == v.resolution
    ensures KindOf(v.field) == PointCloudKind ==>
      |ToVec(r.field)| == |ToVec(v.field)| + |ToVec(pc)|
  {
    Add(v, Samples(ToVecWithOffset(pc)), wmax)
  }

  /** `SimpleVoxelizer::finish`: the store's cached bounds (if any), its
      offset, and its averaged entries are handed to the output store's
      `new` with the voxelizer's resolution.  A zero weight would divide by
      zero, so every listed weight must be positive. */
  function Finish(v: SimpleVoxelizer, outKind: Kind, wmax: nat): (r: Result<Collection, CollectionError>)
    requires SimpleOk(v, wmax) && AllWeighted(ToVec(v.field)) && wmax >= 1
    ensures Sparse(outKind) ==> r.Ok?
    ensures r.Ok? ==> KindOf(r.value) == outKind && WellFormed(r.value, wmax) && ShapeOk(r.value)
    ensures r.Ok? ==> Offset(r.value) == Offset(v.field) && Resolution(r.value) == v.resolution
    ensures Sparse(outKind) ==> InnerBounds(r.value) == InnerBounds(v.field)
    ensures !HasBounds(v.field) ==> r.Ok?
    ensures r.Err? ==> r.error in {NegativeSize, IndexOutOfBounds}
  {
    var points := AverageAll(ToVec(v.field));
    assert WeightsAtMost(points, wmax);
    if HasBounds(v.field) then
      New(outKind, points, Some(GetBounds(v.field).value.0), Offset(v.field), v.resolution, wmax)
    else
      NewWithoutBoundsSucceeds(outKind, points, Offset(v.field), v.resolution, wmax);
      New(outKind, points, None, Offset(v.field), v.resolution, wmax)
  }

  // ----- the default configuration, end to end -------------------------------

  /** The colours given for cell `q`, in input order. */
  function ColorsAt(ps: seq<(Point3, Color)>, q: Point3): (r: seq<Color>)
    ensures |r| <= |ps|
    ensures r == [] <==> forall i :: 0 <= i < |ps| ==> ps[i].0 != q
  {
    if ps == [] then []
    else
      var init, last := ps[..|ps| - 1], ps[|ps| - 1];
      assert forall i :: 0 <= i < |init| ==> init[i] == ps[i];
      ColorsAt(init, q) + (if last.0 == q then [last.1] else [])
  }

  /** The positions of the points in cell `q`. */
  function PositionsIn(ps: seq<(Point3, Color)>, q: Point3): set<nat> {
    set i: nat | i < |ps| && ps[i].0 == q
  }

  lemma PositionsInSnoc(ps: seq<(Point3, Color)>, q: Point3)
    requires ps != []
    ensures var n := |ps| - 1;
      && PositionsIn(ps, q) == PositionsIn(ps[..n], q) + (if ps[n].0 == q then {n} else {})
      && n !in PositionsIn(ps[..n], q)
  {
  }

  lemma ColorsAtSnoc(ps: seq<(Point3, Color)>, q: Point3)
    requires ps != []
    ensures var n := |ps| - 1;
      ColorsAt(ps, q) == ColorsAt(ps[..n], q) + (if ps[n].0 == q then [ps[n].1] else [])
  {
  }

  /** `ColorsAt` holds one colour per point in cell `q`. */
  lemma {:induction false} ColorsAtCount(ps: seq<(Point3, Color)>, q: Point3)
    ensures |ColorsAt(ps, q)| == |PositionsIn(ps, q)|
  {
    if ps != [] {
      ColorsAtCount(ps[..|ps| - 1], q);
      PositionsInSnoc(ps, q);
      ColorsAtSnoc(ps, q);
    }
  }

  /** The point at position `i`, when it is in cell `q`, contributes the
      element of `ColorsAt` after those of the earlier points in the cell. */
  lemma {:induction false} ColorsAtOrder(ps: seq<(Point3, Color)>, q: Point3, i: nat)
    requires i < |ps| && ps[i].0 == q
    ensures |PositionsIn(ps[..i], q)| < |ColorsAt(ps, q)|
    ensures ColorsAt(ps, q)[|PositionsIn(ps[..i], q)|] == ps[i].1
  {
    var n := |ps| - 1;
    var init := ps[..n];
    ColorsAtSnoc(ps, q);
    if i < n {
      ColorsAtOrder(init, q, i);
      assert ps[..i] == init[..i];
    } else {
      assert ps[..i] == init;
      ColorsAtCount(init, q);
    }
  }

  /** `ColorsAt` holds one colour per point in cell `q`, the point at
      position `i` contributing the element after those of the earlier
      points in that cell: the colours of the cell in input order, and
      nothing else. */
  lemma ColorsAtContents(ps: seq<(Point3, Color)>, q: Point3)
    ensures |ColorsAt(ps, q)| == |PositionsIn(ps, q)|
    ensures forall i :: 0 <= i < |ps| && ps[i].0 == q ==>
      |PositionsIn(ps[..i], q)| < |ColorsAt(ps, q)| && ColorsAt(ps, q)[|PositionsIn(ps[..i], q)|] == ps[i].1
  {
    ColorsAtCount(ps, q);
    forall i | 0 <= i < |ps| && ps[i].0 == q
      ensures |PositionsIn(ps[..i], q)| < |ColorsAt(ps, q)|
      ensures ColorsAt(ps, q)[|PositionsIn(ps[..i], q)|] == ps[i].1
    {
      ColorsAtOrder(ps, q, i);
    }
  }

  function NewVoxels(cs: seq<Color>): (r: seq<Voxel>)
    ensures |r| == |cs| && forall i :: 0 <= i < |r| ==> r[i] == NewVoxel(cs[i])
  {
    seq(|cs|, i requires 0 <= i < |cs| => NewVoxel(cs[i]))
  }

  /** The voxels one-point entries give for a cell are the one-point voxels
      of the colours given for it. */
  lemma {:induction false} VoxelsAtUnit(ps: seq<(Point3, Color)>, q: Point3)
    ensures VoxelsAt(UnitVoxels(ps), q) == NewVoxels(ColorsAt(ps, q))
  {
    if ps != [] {
      var n := |ps| - 1;
      var init := ps[..n];
      VoxelsAtUnit(init, q);
      var us := UnitVoxels(ps);
      assert us[..n] == UnitVoxels(init);
      assert us[n] == Entry(ps[n].0, NewVoxel(ps[n].1));
      VoxelsAtSnoc(us, q);
      ColorsAtSnoc(ps, q);
      if ps[n].0 == q {
        var cs := ColorsAt(init, q);
        assert NewVoxels(cs + [ps[n].1]) == NewVoxels(cs) + [NewVoxel(ps[n].1)];
      }
    }
  }

  /** Collapsing one-point voxels counts them up to `wmax` and sums the
      colours of the points counted. */
  lemma {:induction false} CollapseUnitVoxels(cs: seq<Color>, wmax: nat)
    requires cs != [] && wmax >= 1
    ensures Collapse(NewVoxels(cs), wmax) == Voxel(SumColors(cs[..Min(|cs|, wmax)]), Min(|cs|, wmax))
  {
    var vs := NewVoxels(cs);
    if |cs| == 1 {
      assert cs[..1] == cs;
      assert SumColors(cs) == AddColor(SumColors([]), cs[0]);
    } else {
      var init := cs[..|cs| - 1];
      CollapseUnitVoxels(init, wmax);
      assert vs[..|vs| - 1] == NewVoxels(init);
      var prev := Collapse(NewVoxels(init), wmax);
      if |init| < wmax {
        AddOneUnsaturated(prev, cs[|cs| - 1], wmax);
        assert init[..|init|] == init;
        assert cs[..|cs|] == cs;
      } else {
        assert init[..wmax] == cs[..wmax];
      }
    }
  }

  /** In a list whose points are distinct, the voxels at one listed point are
      exactly its own. */
  lemma {:induction false} VoxelsAtDistinct(es: seq<Entry>, i: nat)
    requires i < |es|
    requires forall j, k :: 0 <= j < k < |es| ==> es[j].point != es[k].point
    ensures VoxelsAt(es, es[i].point) == [es[i].voxel]
  {
    var init := es[..|es| - 1];
    if i < |es| - 1 {
      VoxelsAtDistinct(init, i);
    } else {
      assert Points(init)[..] == Points(init);
      forall j | 0 <= j < |init| ensures Points(init)[j] != es[i].point {
      }
      assert VoxelsAt(init, es[i].point) == [];
    }
  }

  /** `HMap3DVoxelCollection` built from one-point voxels: one entry per cell
      given, counting its points up to `wmax` and summing their colours. */
  lemma NewFromUnitVoxels(ps: seq<(Point3, Color)>, wmax: nat, q: Point3)
    requires wmax >= 1
    ensures WeightsAtMost(UnitVoxels(ps), wmax)
    ensures var c := HMap3DCollections.New(UnitVoxels(ps), None, Origin, 1.0, wmax);
      var cs := ColorsAt(ps, q);
      && (q in c.field.entries <==> cs != [])
      && (q in c.field.entries ==> c.field.entries[q] == Voxel(SumColors(cs[..Min(|cs|, wmax)]), Min(|cs|, wmax)))
  {
    assert WeightsAtMost(UnitVoxels(ps), wmax);
    var c := HMap3DCollections.New(UnitVoxels(ps), None, Origin, 1.0, wmax);
    VoxelsAtUnit(ps, q);
    if ColorsAt(ps, q) != [] {
      CollapseUnitVoxels(ColorsAt(ps, q), wmax);
    }
  }

  /** One `add` into a fresh `HMap3DVoxelCollection` store builds the store
      from the quantised points' one-point voxels. */
  lemma AddToFreshH3(input: seq<Sample>, res: real, wmax: nat)
    requires res > 0.0 && wmax >= 1
    ensures WeightsAtMost(UnitVoxels(Quantised(input, res)), wmax)
    ensures Add(NewSimple(Mater(res), HMap3DKind).value, input, wmax).field
         == H3(HMap3DCollections.New(UnitVoxels(Quantised(input, res)), None, Origin, 1.0, wmax))
  {
    var v := NewSimple(Mater(res), HMap3DKind).value;
    var pc := AddedCloud(input, res);
    var units := UnitVoxels(Quantised(input, res));
    assert WeightsAtMost(units, wmax);
    MergeWithoutBounds(v.field, pc, wmax);
    assert ToVecWithOffset(v.field) + ToVecWithOffset(pc) == units;
    assert KindOf(v.field) == HMap3DKind && Resolution(v.field) == 1.0;
    assert Merge(v.field, pc, wmax) == New(HMap3DKind, units, None, Origin, 1.0, wmax);
    NewH3(units, None, Origin, 1.0, wmax);
    assert Add(v, input, wmax).field == Merge(v.field, pc, wmax).value;
  }

  lemma NewH3(voxels: seq<Entry>, bounds: Option<Bounds>, offset: Point3, resolution: real, wmax: nat)
    requires WeightsAtMost(voxels, wmax)
    ensures New(HMap3DKind, voxels, bounds, offset, resolution, wmax)
         == Ok(H3(HMap3DCollections.New(voxels, bounds, offset, resolution, wmax)))
  {
  }

  /** Finishing a `HMap3DVoxelCollection` store without bounds into a
      `HMap3DVoxelCollection` keeps its cells and replaces every colour sum
      by the average colour. */
  lemma FinishAveragesH3(c: HMap3DCollections.HMap3DCollection, res: real, wmax: nat, q: Point3)
    requires HMap3DCollections.WellFormed(c, wmax) && c.bounds == None && c.resolution == 1.0 && wmax >= 1
    requires forall p :: p in c.field.entries ==> c.field.entries[p].weight > 0
    ensures AllWeighted(ToVec(H3(c)))
    ensures var r := Finish(SimpleVoxelizer(H3(c), res), HMap3DKind, wmax);
      && r.Ok? && KindOf(r.value) == HMap3DKind && Resolution(r.value) == res
      && (q in r.value.h3.field.entries <==> q in c.field.entries)
      && (q in c.field.entries ==>
            r.value.h3.field.entries[q].weight == 1
            && IsAverage(r.value.h3.field.entries[q].color, c.field.entries[q].color, c.field.entries[q].weight))
  {
    var vec := ToVec(H3(c));
    assert AllWeighted(vec);
    var avg := AverageAll(vec);
    assert WeightsAtMost(avg, wmax);
    NewH3(avg, None, c.offset, res, wmax);
    assert !HasBounds(H3(c)) && Offset(H3(c)) == c.offset;
    assert Finish(SimpleVoxelizer(H3(c), res), HMap3DKind, wmax) == New(HMap3DKind, avg, None, c.offset, res, wmax);
    AveragedStore(c, res, wmax, q);
  }

  /** Building a `HMap3DVoxelCollection` from a store's averaged entries. */
  lemma AveragedStore(c: HMap3DCollections.HMap3DCollection, res: real, wmax: nat, q: Point3)
    requires HMap3DCollections.WellFormed(c, wmax) && wmax >= 1
    requires forall p :: p in c.field.entries ==> c.field.entries[p].weight > 0
    ensures AllWeighted(HMap3DCollections.ToVec(c))
    ensures WeightsAtMost(AverageAll(HMap3DCollections.ToVec(c)), wmax)
    ensures var out := HMap3DCollections.New(AverageAll(HMap3DCollections.ToVec(c)), None, c.offset, res, wmax);
      && (q in out.field.entries <==> q in c.field.entries)
      && (q in c.field.entries ==>
            out.field.entries[q].weight == 1
            && IsAverage(out.field.entries[q].color, c.field.entries[q].color, c.field.entries[q].weight))
  {
    var vec := HMap3DCollections.ToVec(c);
    assert AllWeighted(vec);
    var avg := AverageAll(vec);
    assert WeightsAtMost(avg, wmax);
    if q in c.field.entries {
      AveragedPresent(c, res, wmax, q);
    } else {
      AveragedKeys(c, res, wmax, q);
    }
  }

  lemma AveragedPresent(c: HMap3DCollections.HMap3DCollection, res: real, wmax: nat, q: Point3)
    requires HMap3DCollections.WellFormed(c, wmax) && wmax >= 1
    requires forall p :: p in c.field.entries ==> c.field.entries[p].weight > 0
    requires q in c.field.entries
    ensures AllWeighted(HMap3DCollections.ToVec(c))
    ensures WeightsAtMost(AverageAll(HMap3DCollections.ToVec(c)), wmax)
    ensures var out := HMap3DCollections.New(AverageAll(HMap3DCollections.ToVec(c)), None, c.offset, res, wmax);
      && q in out.field.entries
      && out.field.entries[q].weight == 1
      && IsAverage(out.field.entries[q].color, c.field.entries[q].color, c.field.entries[q].weight)
  {
    var vec := HMap3DCollections.ToVec(c);
    var i :| 0 <= i < |vec| && Points(vec)[i] == q;
    AveragedEntry(c, res, wmax, i);
    assert vec[i].point == q && vec[i].voxel == c.field.entries[q];
  }

  lemma AveragedEntry(c: HMap3DCollections.HMap3DCollection, res: real, wmax: nat, i: nat)
    requires HMap3DCollections.WellFormed(c, wmax) && wmax >= 1
    requires forall p :: p in c.field.entries ==> c.field.entries[p].weight > 0
    requires i < |HMap3DCollections.ToVec(c)|
    ensures AllWeighted(HMap3DCollections.ToVec(c))
    ensures WeightsAtMost(AverageAll(HMap3DCollections.ToVec(c)), wmax)
    ensures var q := HMap3DCollections.ToVec(c)[i].point;
      var out := HMap3DCollections.New(AverageAll(HMap3DCollections.ToVec(c)), None, c.offset, res, wmax);
      && q in c.field.entries && q in out.field.entries
      && out.field.entries[q] == AverageAll(HMap3DCollections.ToVec(c))[i].voxel
  {
    var vec := HMap3DCollections.ToVec(c);
    assert AllWeighted(vec);
    var avg := AverageAll(vec);
    assert WeightsAtMost(avg, wmax);
    assert Points(avg)[i] == vec[i].point;
    HMap3DCollections.ToVecDistinct(c);
    SingleEntryCollapses(avg, i, wmax);
  }

  lemma AveragedKeys(c: HMap3DCollections.HMap3DCollection, res: real, wmax: nat, q: Point3)
    requires HMap3DCollections.WellFormed(c, wmax) && wmax >= 1
    requires forall p :: p in c.field.entries ==> c.field.entries[p].weight > 0
    requires q !in c.field.entries
    ensures AllWeighted(HMap3DCollections.ToVec(c))
    ensures WeightsAtMost(AverageAll(HMap3DCollections.ToVec(c)), wmax)
    ensures q !in HMap3DCollections.New(AverageAll(HMap3DCollections.ToVec(c)), None, c.offset, res, wmax).field.entries
  {
    var vec := HMap3DCollections.ToVec(c);
    assert AllWeighted(vec);
    var avg := AverageAll(vec);
    assert WeightsAtMost(avg, wmax);
    forall i | 0 <= i < |avg| ensures Points(avg)[i] != q {
      assert Points(avg)[i] == vec[i].point && vec[i].point in c.field.entries;
    }
  }

  /** In a list whose points are distinct, building keeps each entry's own
      voxel. */
  lemma SingleEntryCollapses(es: seq<Entry>, i: nat, wmax: nat)
    requires i < |es| && WeightsAtMost(es, wmax)
    requires forall j, k :: 0 <= j < k < |es| ==> es[j].point != es[k].point
    ensures Collapse(VoxelsAt(es, es[i].point), wmax) == es[i].voxel
  {
    VoxelsAtDistinct(es, i);
  }

  /** The default configuration (a `HMap3DVoxelCollection` calculation store
      and output store) voxelizes a cloud into one voxel per occupied cell,
      whose colour is the average of the colours of the points in that cell,
      counting at most `wmax` points (the first ones given). */
  lemma SimpleVoxelizerAverages(v: SimpleVoxelizer, input: seq<Sample>, res: real, wmax: nat, a: SimpleVoxelizer, q: Point3)
    requires res > 0.0 && wmax >= 1 && NewSimple(Mater(res), HMap3DKind) == Some(v)
    requires a == Add(v, input, wmax)
    ensures SimpleOk(a, wmax) && AllWeighted(ToVec(a.field))
    ensures var r := Finish(a, HMap3DKind, wmax);
      var cs := ColorsAt(Quantised(input, res), q);
      var k := Min(|cs|, wmax);
      && r.Ok? && r.value.H3? && Resolution(r.value) == res
      && (q in r.value.h3.field.entries <==> cs != [])
      && (q in r.value.h3.field.entries ==>
            r.value.h3.field.entries[q].weight == 1 && IsAverage(r.value.h3.field.entries[q].color, SumColors(cs[..k]), k))
  {
    var ps := Quantised(input, res);
    AddToFreshH3(input, res, wmax);
    var c := HMap3DCollections.New(UnitVoxels(ps), None, Origin, 1.0, wmax);
    assert a == SimpleVoxelizer(H3(c), res);
    FreshH3Weighted(ps, wmax);
    FinishAveragesH3(c, res, wmax, q);
    NewFromUnitVoxels(ps, wmax, q);
  }

  /** Every voxel of a store built from single points carries weight. */
  lemma FreshH3Weighted(ps: seq<(Point3, Color)>, wmax: nat)
    requires wmax >= 1
    ensures WeightsAtMost(UnitVoxels(ps), wmax)
    ensures var c := HMap3DCollections.New(UnitVoxels(ps), None, Origin, 1.0, wmax);
      forall p :: p in c.field.entries ==> c.field.entries[p].weight > 0
  {
    var c := HMap3DCollections.New(UnitVoxels(ps), None, Origin, 1.0, wmax);
    forall p | p in c.field.entries
      ensures c.field.entries[p].weight > 0
    {
      NewFromUnitVoxels(ps, wmax, p);
    }
  }

  // ---------------------------------------------------------------------------
  // MapTileVoxelizer
  // ---------------------------------------------------------------------------

  /** Where the map transforms put a point: its pixel coordinates at the zoom
      level (`u32`, so never negative), with `z` divided by the pixel
      resolution, and that resolution. */
  datatype Located = Located(px: nat, py: nat, pz: nat, resolution: real)

  /** The web-map tile of a located point: 256 pixels a side. */
  function TileOf(l: Located): (r: Point2)
    ensures 256 * r.x <= l.px < 256 * r.x + 256 && 256 * r.y <= l.py < 256 * r.y + 256
  {
    Point2(l.px / 256, l.py / 256)
  }

  function PixelOf(l: Located): Point3 {
    Point3(l.px, l.py, l.pz)
  }

  /** `MapTileVoxelizer`: one calculation store per tile, the zoom level and
      origin of the transforms, and the kind of calculation store. */
  datatype MapTileVoxelizer = MapTileVoxelizer(field: OrderedMap<Point2, Collection>, zoom: nat, origin: nat, kind: Kind)

  ghost predicate TilesOk(v: MapTileVoxelizer, wmax: nat) {
    && Valid(v.field)
    && forall t :: t in v.field.entries ==>
         KindOf(v.field.entries[t]) == v.kind && WellFormed(v.field.entries[t], wmax) && ShapeOk(v.field.entries[t])
  }

  /** `MapTileVoxelizer::new`: only a tile resolution is accepted; no tiles
      yet. */
  function NewMapTile(res: VoxelResolution, kind: Kind): (r: Option<MapTileVoxelizer>)
    ensures r.Some? <==> res.Tile?
    ensures r.Some? ==> r.value.field.entries == map[] && r.value.kind == kind
    ensures r.Some? ==> r.value.zoom == res.zoom && r.value.origin == res.origin
    ensures r.Some? ==> forall wmax :: TilesOk(r.value, wmax)
  {
    match res
    case Tile(zoom, origin) => Some(MapTileVoxelizer(Empty(), zoom, origin, kind))
    case Mater(_) => None
  }

  /** The store a point starts its tile with: built from the one point, at
      the point's pixel resolution, without bounds. */
  function Seed(kind: Kind, l: Located, c: Color, wmax: nat): (r: Collection)
    requires wmax >= 1
    ensures KindOf(r) == kind && WellFormed(r, wmax) && ShapeOk(r)
    ensures Offset(r) == Origin && Resolution(r) == l.resolution
    ensures kind == HMap3DKind ==> r.h3.field.entries.Keys == {PixelOf(l)}
  {
    var es := [Entry(PixelOf(l), NewVoxel(c))];
    assert Points(es) == [PixelOf(l)];
    NewWithoutBoundsSucceeds(kind, es, Origin, l.resolution, wmax);
    New(kind, es, None, Origin, l.resolution, wmax).value
  }

  /** The one-point store a new tile starts with: its box is the pixel's
      single cell. */
  lemma SeedBoundsOnePoint(l: Located, c: Color)
    ensures CalcBounds([Entry(PixelOf(l), NewVoxel(c))]) == Bounds(PixelOf(l), PixelOf(l))
  {
    var es := [Entry(PixelOf(l), NewVoxel(c))];
    assert Points(es) == [PixelOf(l)];
    var b := CalcBounds(es);
    TightBounds3Unique(Points(es), b.min, b.max, PixelOf(l), PixelOf(l));
  }

  /** A `Vec3` tile seeded from one point ignores a later point in any
      other cell. */
  lemma Vec3SeedKeepsOneCell(l: Located, c: Color, wmax: nat, q: Point3, v: Voxel)
    requires wmax >= 1 && v.weight <= wmax && q != PixelOf(l)
    ensures InsertOne(Seed(Vec3Kind, l, c, wmax), q, v, wmax) == Seed(Vec3Kind, l, c, wmax)
  {
    SeedBoundsOnePoint(l, c);
    assert Seed(Vec3Kind, l, c, wmax).v3.bounds == Bounds(PixelOf(l), PixelOf(l));
  }

  /** A `Vec2` tile seeded from one point ignores a later point in any other
      column, apart from dropping its cached height range. */
  lemma Vec2SeedKeepsOneColumn(l: Located, c: Color, wmax: nat, q: Point3, v: Voxel)
    requires wmax >= 1 && v.weight <= wmax && Fit(q) != Fit(PixelOf(l))
    ensures InsertOne(Seed(Vec2Kind, l, c, wmax), q, v, wmax).v2 == Seed(Vec2Kind, l, c, wmax).v2.(boundsZ := None)
  {
    SeedBoundsOnePoint(l, c);
    var s2 := Seed(Vec2Kind, l, c, wmax).v2;
    assert s2.minXY == Fit(PixelOf(l)) && s2.maxXY == Fit(PixelOf(l));
    assert Vec2Collections.ColumnAt(s2, Fit(q)).None?;
  }

  /** With the default dense stores (`Vec3` for map tiles, `Vec2` for
      terrain) a seeded tile's box is the first point's cell (column), so a
      later point of that tile in another cell (column) changes nothing but
      the cached height range: only the first point's cell is kept. */
  lemma DenseSeedKeepsOneCell(l: Located, c: Color, wmax: nat, q: Point3, v: Voxel)
    requires wmax >= 1 && v.weight <= wmax
    ensures q != PixelOf(l) ==> InsertOne(Seed(Vec3Kind, l, c, wmax), q, v, wmax) == Seed(Vec3Kind, l, c, wmax)
    ensures Fit(q) != Fit(PixelOf(l)) ==>
      InsertOne(Seed(Vec2Kind, l, c, wmax), q, v, wmax).v2 == Seed(Vec2Kind, l, c, wmax).v2.(boundsZ := None)
  {
    if q != PixelOf(l) {
      Vec3SeedKeepsOneCell(l, c, wmax, q, v);
    }
    if Fit(q) != Fit(PixelOf(l)) {
      Vec2SeedKeepsOneColumn(l, c, wmax, q, v);
    }
  }

  /** One point of `MapTileVoxelizer::add`: located by the map transforms,
      it goes into the store of its tile — inserted into an existing store,
      or seeding a new one.  Other tiles are untouched. */
  function AddSample(v: MapTileVoxelizer, s: Sample, locate: (nat, nat, RPoint3) -> Located, wmax: nat): (r: MapTileVoxelizer)
    requires TilesOk(v, wmax) && wmax >= 1
    ensures TilesOk(r, wmax) && r.zoom == v.zoom && r.origin == v.origin && r.kind == v.kind
    ensures var l := locate(v.zoom, v.origin, s.point);
      && r.field.entries.Keys == v.field.entries.Keys + {TileOf(l)}
      && (TileOf(l) !in v.field.entries ==> r.field.entries[TileOf(l)] == Seed(v.kind, l, s.voxel.color, wmax))
      && (TileOf(l) in v.field.entries ==>
            r.field.entries[TileOf(l)] == InsertOne(v.field.entries[TileOf(l)], PixelOf(l), NewVoxel(s.voxel.color), wmax))
      && forall t :: t in v.field.entries && t != TileOf(l) ==> r.field.entries[t] == v.field.entries[t]
  {
    var l := locate(v.zoom, v.origin, s.point);
    var f := Upsert(v.field, TileOf(l), Seed(v.kind, l, s.voxel.color, wmax),
      (c: Collection) requires WellFormed(c, wmax) && ShapeOk(c) => InsertOne(c, PixelOf(l), NewVoxel(s.voxel.color), wmax));
    v.(field := f)
  }

  /** `MapTileVoxelizer::add`: the points in order (without the cloud's
      offset: `into_vec`). */
  function AddAll(v: MapTileVoxelizer, ss: seq<Sample>, locate: (nat, nat, RPoint3) -> Located, wmax: nat): (r: MapTileVoxelizer)
    requires TilesOk(v, wmax) && wmax >= 1
    ensures TilesOk(r, wmax) && r.zoom == v.zoom && r.origin == v.origin && r.kind == v.kind
  {
    if ss == [] then v else AddSample(AddAll(v, ss[..|ss| - 1], locate, wmax), ss[|ss| - 1], locate, wmax)
  }

  /** The tile a sample lands in. */
  function SampleTile(v: MapTileVoxelizer, s: Sample, locate: (nat, nat, RPoint3) -> Located): Point2 {
    TileOf(locate(v.zoom, v.origin, s.point))
  }

  /** After adding points, the tiles are the tiles held before and the tiles
      the points fall in. */
  lemma {:induction false} AddAllTiles(v: MapTileVoxelizer, ss: seq<Sample>, locate: (nat, nat, RPoint3) -> Located, wmax: nat)
    requires TilesOk(v, wmax) && wmax >= 1
    ensures AddAll(v, ss, locate, wmax).field.entries.Keys
         == v.field.entries.Keys + (set i | 0 <= i < |ss| :: SampleTile(v, ss[i], locate))
  {
    if ss != [] {
      var init, s := ss[..|ss| - 1], ss[|ss| - 1];
      AddAllTiles(v, init, locate, wmax);
      var prev := AddAll(v, init, locate, wmax);
      AddSampleKeys(prev, s, locate, wmax);
      TilesOfSnoc(v, ss, init, locate);
    }
  }

  /** Adding a sample adds its tile to the tiles held. */
  lemma AddSampleKeys(v: MapTileVoxelizer, s: Sample, locate: (nat, nat, RPoint3) -> Located, wmax: nat)
    requires TilesOk(v, wmax) && wmax >= 1
    ensures AddSample(v, s, locate, wmax).field.entries.Keys == v.field.entries.Keys + {SampleTile(v, s, locate)}
  {
  }

  lemma TilesOfSnoc(v: MapTileVoxelizer, ss: seq<Sample>, init: seq<Sample>, locate: (nat, nat, RPoint3) -> Located)
    requires ss != [] && init == ss[..|ss| - 1]
    ensures (set i | 0 <= i < |ss| :: SampleTile(v, ss[i], locate))
         == (set i | 0 <= i < |init| :: SampleTile(v, init[i], locate)) + {SampleTile(v, ss[|ss| - 1], locate)}
  {
    var s := ss[|ss| - 1];
    var all := set i | 0 <= i < |ss| :: SampleTile(v, ss[i], locate);
    var before := set i | 0 <= i < |init| :: SampleTile(v, init[i], locate);
    forall t | t in all ensures t in before + {SampleTile(v, s, locate)} {
      var i :| 0 <= i < |ss| && SampleTile(v, ss[i], locate) == t;
      if i < |init| {
        assert SampleTile(v, init[i], locate) == t;
      }
    }
    forall t | t in before ensures t in all {
      var i :| 0 <= i < |init| && SampleTile(v, init[i], locate) == t;
      assert SampleTile(v, ss[i], locate) == t;
    }
  }

  /** The pixels of the samples that fall in tile `t`. */
  ghost function PixelsIn(v: MapTileVoxelizer, ss: seq<Sample>, locate: (nat, nat, RPoint3) -> Located, t: Point2): set<Point3> {
    set i | 0 <= i < |ss| && SampleTile(v, ss[i], locate) == t :: PixelOf(locate(v.zoom, v.origin, ss[i].point))
  }

  /** What tile `t` of `m` holds after the samples `ss`: with a
      `HMap3DVoxelCollection` per tile, exactly the pixels of the samples
      that fall in it, at the pixel resolution of one of them; no store at
      all when no sample falls in it. */
  ghost predicate TileHolds(v: MapTileVoxelizer, ss: seq<Sample>, locate: (nat, nat, RPoint3) -> Located,
                            m: OrderedMap<Point2, Collection>, t: Point2)
  {
    if t in m.entries then
      && m.entries[t].H3?
      && m.entries[t].h3.field.entries.Keys == PixelsIn(v, ss, locate, t)
      && exists i :: 0 <= i < |ss| && SampleTile(v, ss[i], locate) == t
           && Resolution(m.entries[t]) == locate(v.zoom, v.origin, ss[i].point).resolution
    else
      forall i :: 0 <= i < |ss| ==> SampleTile(v, ss[i], locate) != t
  }

  /** The pixels of a tile after one more sample. */
  lemma PixelsInSnoc(v: MapTileVoxelizer, init: seq<Sample>, s: Sample, locate: (nat, nat, RPoint3) -> Located, t: Point2)
    ensures SampleTile(v, s, locate) == t ==>
      PixelsIn(v, init + [s], locate, t) == PixelsIn(v, init, locate, t) + {PixelOf(locate(v.zoom, v.origin, s.point))}
    ensures SampleTile(v, s, locate) != t ==> PixelsIn(v, init + [s], locate, t) == PixelsIn(v, init, locate, t)
  {
    var ss := init + [s];
    assert forall i :: 0 <= i < |init| ==> ss[i] == init[i];
    assert ss[|init|] == s;
    forall x | x in PixelsIn(v, ss, locate, t) ensures x in PixelsIn(v, init, locate, t) || (SampleTile(v, s, locate) == t && x == PixelOf(locate(v.zoom, v.origin, s.point))) {
      var i :| 0 <= i < |ss| && SampleTile(v, ss[i], locate) == t && x == PixelOf(locate(v.zoom, v.origin, ss[i].point));
      if i < |init| {
        assert SampleTile(v, init[i], locate) == t;
      }
    }
    forall x | x in PixelsIn(v, init, locate, t) ensures x in PixelsIn(v, ss, locate, t) {
      var i :| 0 <= i < |init| && SampleTile(v, init[i], locate) == t && x == PixelOf(locate(v.zoom, v.origin, init[i].point));
      assert SampleTile(v, ss[i], locate) == t;
    }
  }

  /** `insert_one` into a `HMap3DVoxelCollection` store adds the point to its keys. */
  lemma InsertOneH3Keys(c: Collection, p: Point3, x: Voxel, wmax: nat)
    requires c.H3? && WellFormed(c, wmax) && ShapeOk(c) && x.weight <= wmax
    ensures InsertOne(c, p, x, wmax).H3?
    ensures InsertOne(c, p, x, wmax).h3.field.entries.Keys == c.h3.field.entries.Keys + {p}
  {
  }

  lemma TileHoldsStep(v: MapTileVoxelizer, init: seq<Sample>, s: Sample, locate: (nat, nat, RPoint3) -> Located,
                      prev: MapTileVoxelizer, wmax: nat, t: Point2)
    requires TilesOk(prev, wmax) && wmax >= 1 && prev.kind == HMap3DKind
    requires prev.zoom == v.zoom && prev.origin == v.origin
    requires TileHolds(v, init, locate, prev.field, t)
    ensures TileHolds(v, init + [s], locate, AddSample(prev, s, locate, wmax).field, t)
  {
    var r := AddSample(prev, s, locate, wmax);
    PixelsInSnoc(v, init, s, locate, t);
    if t in prev.field.entries {
      TileHoldsKept(v, init, s, locate, prev, wmax, t, r);
    } else if t == SampleTile(v, s, locate) {
      TileHoldsSeeded(v, init, s, locate, prev, wmax, t, r);
    } else {
      TileHoldsAbsent(v, init, s, locate, prev, wmax, t, r);
    }
  }

  /** A tile that already had a store keeps it, with the sample's pixel added
      when the sample lands in it. */
  lemma TileHoldsKept(v: MapTileVoxelizer, init: seq<Sample>, s: Sample, locate: (nat, nat, RPoint3) -> Located,
                      prev: MapTileVoxelizer, wmax: nat, t: Point2, r: MapTileVoxelizer)
    requires TilesOk(prev, wmax) && wmax >= 1 && prev.kind == HMap3DKind
    requires prev.zoom == v.zoom && prev.origin == v.origin
    requires TileHolds(v, init, locate, prev.field, t) && t in prev.field.entries
    requires r == AddSample(prev, s, locate, wmax)
    requires SampleTile(v, s, locate) == t ==>
      PixelsIn(v, init + [s], locate, t) == PixelsIn(v, init, locate, t) + {PixelOf(locate(v.zoom, v.origin, s.point))}
    requires SampleTile(v, s, locate) != t ==> PixelsIn(v, init + [s], locate, t) == PixelsIn(v, init, locate, t)
    ensures TileHolds(v, init + [s], locate, r.field, t)
  {
    var ss := init + [s];
    var l := locate(v.zoom, v.origin, s.point);
    var i :| 0 <= i < |init| && SampleTile(v, init[i], locate) == t
      && Resolution(prev.field.entries[t]) == locate(v.zoom, v.origin, init[i].point).resolution;
    assert ss[i] == init[i];
    if t == TileOf(l) {
      InsertOneH3Keys(prev.field.entries[t], PixelOf(l), NewVoxel(s.voxel.color), wmax);
    }
    assert r.field.entries[t].h3.field.entries.Keys == PixelsIn(v, ss, locate, t);
    assert Resolution(r.field.entries[t]) == Resolution(prev.field.entries[t]);
  }

  /** The sample's tile, new so far, gets a store seeded with its pixel. */
  lemma TileHoldsSeeded(v: MapTileVoxelizer, init: seq<Sample>, s: Sample, locate: (nat, nat, RPoint3) -> Located,
                        prev: MapTileVoxelizer, wmax: nat, t: Point2, r: MapTileVoxelizer)
    requires TilesOk(prev, wmax) && wmax >= 1 && prev.kind == HMap3DKind
    requires prev.zoom == v.zoom && prev.origin == v.origin
    requires TileHolds(v, init, locate, prev.field, t) && t !in prev.field.entries && t == SampleTile(v, s, locate)
    requires r == AddSample(prev, s, locate, wmax)
    requires PixelsIn(v, init + [s], locate, t) == PixelsIn(v, init, locate, t) + {PixelOf(locate(v.zoom, v.origin, s.point))}
    ensures TileHolds(v, init + [s], locate, r.field, t)
  {
    var ss := init + [s];
    assert PixelsIn(v, init, locate, t) == {};
    assert ss[|init|] == s;
  }

  /** A tile with no store that the sample misses still has none. */
  lemma TileHoldsAbsent(v: MapTileVoxelizer, init: seq<Sample>, s: Sample, locate: (nat, nat, RPoint3) -> Located,
                        prev: MapTileVoxelizer, wmax: nat, t: Point2, r: MapTileVoxelizer)
    requires TilesOk(prev, wmax) && wmax >= 1
    requires prev.zoom == v.zoom && prev.origin == v.origin
    requires TileHolds(v, init, locate, prev.field, t) && t !in prev.field.entries && t != SampleTile(v, s, locate)
    requires r == AddSample(prev, s, locate, wmax)
    ensures TileHolds(v, init + [s], locate, r.field, t)
  {
    assert SampleTile(v, s, locate) == TileOf(locate(prev.zoom, prev.origin, s.point));
    assert t !in r.field.entries;
    var ss := init + [s];
    forall i | 0 <= i < |ss| ensures SampleTile(v, ss[i], locate) != t {
      if i < |init| {
        assert ss[i] == init[i];
      } else {
        assert ss[i] == s;
      }
    }
  }

  /** With a `HMap3DVoxelCollection` per tile, starting from no tiles, each
      tile holds exactly the pixels of the points that fall in it, and keeps
      the pixel resolution of one of those points; a tile no point falls in
      has no store. */
  lemma {:induction false} AddAllPixels(v: MapTileVoxelizer, ss: seq<Sample>, locate: (nat, nat, RPoint3) -> Located, wmax: nat)
    requires TilesOk(v, wmax) && wmax >= 1 && v.kind == HMap3DKind && v.field.entries == map[]
    ensures forall t :: TileHolds(v, ss, locate, AddAll(v, ss, locate, wmax).field, t)
  {
    if ss == [] {
      forall t ensures TileHolds(v, ss, locate, v.field, t) {
      }
    } else {
      var init, s := ss[..|ss| - 1], ss[|ss| - 1];
      AddAllPixels(v, init, locate, wmax);
      AddAllPixelsStep(v, init, s, locate, wmax);
      assert ss == init + [s];
    }
  }

  lemma AddAllPixelsStep(v: MapTileVoxelizer, init: seq<Sample>, s: Sample, locate: (nat, nat, RPoint3) -> Located, wmax: nat)
    requires TilesOk(v, wmax) && wmax >= 1 && v.kind == HMap3DKind
    requires forall t :: TileHolds(v, init, locate, AddAll(v, init, locate, wmax).field, t)
    ensures forall t :: TileHolds(v, init + [s], locate, AddAll(v, init + [s], locate, wmax).field, t)
  {
    var prev := AddAll(v, init, locate, wmax);
    assert (init + [s])[..|init|] == init;
    assert AddAll(v, init + [s], locate, wmax) == AddSample(prev, s, locate, wmax);
    forall t ensures TileHolds(v, init + [s], locate, AddSample(prev, s, locate, wmax).field, t) {
      TileHoldsStep(v, init, s, locate, prev, wmax, t);
    }
  }

  /** `add` of an integer collection: its entries without offset, widened. */
  function AddCollectionToTiles(v: MapTileVoxelizer, pc: Collection, locate: (nat, nat, RPoint3) -> Located, wmax: nat): (r: MapTileVoxelizer)
    requires TilesOk(v, wmax) && wmax >= 1 && ShapeOk(pc)
    ensures TilesOk(r, wmax) && r.kind == v.kind
    ensures r.field.entries.Keys == v.field.entries.Keys
      + (set i | 0 <= i < |ToVec(pc)| :: SampleTile(v, Samples(ToVec(pc))[i], locate))
  {
    AddAllTiles(v, Samples(ToVec(pc)), locate, wmax);
    AddAll(v, Samples(ToVec(pc)), locate, wmax)
  }

  /** Every tile's listed weights are positive (the averages divide by them). */
  ghost predicate TilesWeighted(v: MapTileVoxelizer)
    requires Valid(v.field)
    requires forall t :: t in v.field.entries ==> ShapeOk(v.field.entries[t])
  {
    forall t :: t in v.field.entries ==> AllWeighted(ToVec(v.field.entries[t]))
  }

  /** `finish_tiles`: per tile, in iteration order, the store's bounds and
      averaged entries handed to the output store's `new` with the tile
      store's offset and resolution. */
  function FinishTiles(v: MapTileVoxelizer, outKind: Kind, wmax: nat): (r: seq<(Point2, Result<Collection, CollectionError>)>)
    requires TilesOk(v, wmax) && wmax >= 1 && TilesWeighted(v)
    ensures |r| == |v.field.order|
    ensures forall i :: 0 <= i < |r| ==> r[i].0 == v.field.order[i]
    ensures forall i :: 0 <= i < |r| ==>
      var c := v.field.entries[v.field.order[i]];
      && (GetBounds(c).Err? ==> r[i].1 == Err(GetBounds(c).error))
      && (GetBounds(c).Ok? && Sparse(outKind) ==>
            && r[i].1.Ok? && KindOf(r[i].1.value) == outKind
            && InnerBounds(r[i].1.value) == Some(GetBounds(c).value.0)
            && Offset(r[i].1.value) == Offset(c) && Resolution(r[i].1.value) == Resolution(c))
  {
    seq(|v.field.order|, i requires 0 <= i < |v.field.order| =>
      assert v.field.order[i] in v.field.entries;
      (v.field.order[i], FinishTile(v.field.entries[v.field.order[i]], outKind, wmax)))
  }

  function FinishTile(c: Collection, outKind: Kind, wmax: nat): (r: Result<Collection, CollectionError>)
    requires WellFormed(c, wmax) && ShapeOk(c) && AllWeighted(ToVec(c))
    ensures GetBounds(c).Err? ==> r == Err(GetBounds(c).error)
    ensures GetBounds(c).Ok? && Sparse(outKind) ==>
      && r.Ok? && KindOf(r.value) == outKind && InnerBounds(r.value) == Some(GetBounds(c).value.0)
      && Offset(r.value) == Offset(c) && Resolution(r.value) == Resolution(c)
  {
    match GetBounds(c)
    case Err(e) => Err(e)
    case Ok((b, c')) =>
      ToVecWeights(c, wmax);
      New(outKind, AverageAll(ToVec(c')), Some(b), Offset(c'), Resolution(c'), wmax)
  }

  /** A tile finished into a point cloud lists the tile's averaged entries,
      in `to_vec` order. */
  lemma FinishTilePoints(c: Collection, wmax: nat)
    requires WellFormed(c, wmax) && ShapeOk(c) && AllWeighted(ToVec(c)) && GetBounds(c).Ok?
    ensures FinishTile(c, PointCloudKind, wmax).Ok?
    ensures ToVec(FinishTile(c, PointCloudKind, wmax).value) == AverageAll(ToVec(c))
  {
    var (b, c') := GetBounds(c).value;
    assert ToVec(c') == ToVec(c);
    var avg := AverageAll(ToVec(c));
    ToVecWeights(c, wmax);
    assert WeightsAtMost(avg, wmax);
    var x := PointClouds.New(avg, Some(b), Offset(c'), Resolution(c'));
    assert FinishTile(c, PointCloudKind, wmax) == Ok(PC(x));
    assert x.field == avg;
  }

  /** A 3-D hash-map tile finished into a 3-D hash map keeps the tile's
      cells, each with weight one and the average of the tile's colour sum. */
  lemma FinishTileH3(c: HMap3DCollections.HMap3DCollection, wmax: nat, q: Point3)
    requires WellFormed(H3(c), wmax) && ShapeOk(H3(c)) && AllWeighted(ToVec(H3(c))) && wmax >= 1
    ensures GetBounds(H3(c)).Ok?
    ensures var r := FinishTile(H3(c), HMap3DKind, wmax);
      && r.Ok? && r.value.H3?
      && (q in r.value.h3.field.entries <==> q in c.field.entries)
      && (q in c.field.entries ==>
            r.value.h3.field.entries[q].weight == 1
            && IsAverage(r.value.h3.field.entries[q].color, c.field.entries[q].color, c.field.entries[q].weight))
  {
    var (b, c') := GetBounds(H3(c)).value;
    var vec := HMap3DCollections.ToVec(c);
    assert ToVec(c') == ToVec(H3(c)) == vec;
    forall p | p in c.field.entries ensures c.field.entries[p].weight > 0 {
      var k :| 0 <= k < |Points(vec)| && Points(vec)[k] == p;
    }
    AveragedStore(c, Resolution(c'), wmax, q);
    var avg := AverageAll(vec);
    NewH3(avg, Some(b), Offset(c'), Resolution(c'), wmax);
    assert FinishTile(H3(c), HMap3DKind, wmax) == Ok(H3(HMap3DCollections.New(avg, Some(b), Offset(c'), Resolution(c'), wmax)));
  }

  /** `finish_tiles` per tile: a point-cloud output lists the tile's averaged
      entries; a 3-D hash-map output built from a 3-D hash-map tile keeps
      its cells with weight one and the average colour. */
  lemma FinishTilesContents(v: MapTileVoxelizer, outKind: Kind, wmax: nat, i: nat, q: Point3)
    requires TilesOk(v, wmax) && wmax >= 1 && TilesWeighted(v) && i < |v.field.order|
    ensures var c, r := v.field.entries[v.field.order[i]], FinishTiles(v, outKind, wmax)[i].1;
      && (GetBounds(c).Ok? && outKind == PointCloudKind ==> r.Ok? && ToVec(r.value) == AverageAll(ToVec(c)))
      && (outKind == HMap3DKind && c.H3? ==>
            && r.Ok? && r.value.H3?
            && (q in r.value.h3.field.entries <==> q in c.h3.field.entries)
            && (q in c.h3.field.entries ==>
                  r.value.h3.field.entries[q].weight == 1
                  && IsAverage(r.value.h3.field.entries[q].color, c.h3.field.entries[q].color, c.h3.field.entries[q].weight)))
  {
    var t := v.field.order[i];
    assert t in v.field.entries;
    var c := v.field.entries[t];
    assert FinishTiles(v, outKind, wmax)[i].1 == FinishTile(c, outKind, wmax);
    if GetBounds(c).Ok? && outKind == PointCloudKind {
      FinishTilePoints(c, wmax);
    }
    if outKind == HMap3DKind && c.H3? {
      FinishTileH3(c.h3, wmax, q);
    }
  }

  /** The smallest of a non-empty list: `reduce(min)`. */
  function MinOf(xs: seq<real>): (r: real)
    requires xs != []
    ensures r in xs && forall i :: 0 <= i < |xs| ==> r <= xs[i]
  {
    if |xs| == 1 then xs[0]
    else
      var m := MinOf(xs[..|xs| - 1]);
      assert forall i :: 0 <= i < |xs| - 1 ==> xs[..|xs| - 1][i] == xs[i];
      if m <= xs[|xs| - 1] then m else xs[|xs| - 1]
  }

  /** The largest of a non-empty list: `reduce(max)`. */
  function MaxOf(xs: seq<real>): (r: real)
    requires xs != []
    ensures r in xs && forall i :: 0 <= i < |xs| ==> xs[i] <= r
  {
    if |xs| == 1 then xs[0]
    else
      var m := MaxOf(xs[..|xs| - 1]);
      assert forall i :: 0 <= i < |xs| - 1 ==> xs[..|xs| - 1][i] == xs[i];
      if m >= xs[|xs| - 1] then m else xs[|xs| - 1]
  }

  /** The tile stores' resolutions, in iteration order. */
  function Resolutions(v: MapTileVoxelizer): (r: seq<real>)
    requires Valid(v.field)
    ensures |r| == |v.field.order|
    ensures forall i :: 0 <= i < |r| ==> v.field.order[i] in v.field.entries && r[i] == Resolution(v.field.entries[v.field.order[i]])
  {
    seq(|v.field.order|, i requires 0 <= i < |v.field.order| =>
      assert v.field.order[i] in v.field.entries;
      Resolution(v.field.entries[v.field.order[i]]))
  }

  /** The offset-applied points of the first `n` tiles. */
  ghost function TilesPoints(v: MapTileVoxelizer, n: nat): seq<Point3>
    requires Valid(v.field) && n <= |v.field.order|
    requires forall t :: t in v.field.entries ==> ShapeOk(v.field.entries[t])
  {
    if n == 0 then []
    else
      assert v.field.order[n - 1] in v.field.entries;
      TilesPoints(v, n - 1) + Points(ToVecWithOffset(v.field.entries[v.field.order[n - 1]]))
  }

  /** `(min_resolution + max_resolution) / 2.`, over the tile stores. */
  function MidResolution(v: MapTileVoxelizer): real
    requires Valid(v.field) && v.field.order != []
  {
    (MinOf(Resolutions(v)) + MaxOf(Resolutions(v))) / 2.0
  }

  /** Every tile's offset-applied entries, averaged, tile after tile. */
  function TileVoxels(v: MapTileVoxelizer, n: nat): (r: seq<Entry>)
    requires Valid(v.field) && n <= |v.field.order|
    requires forall t :: t in v.field.entries ==> ShapeOk(v.field.entries[t])
    requires TilesWeighted(v)
    ensures forall e :: e in r ==> e.voxel.weight == 1
    ensures forall e :: e in r ==> e.point in TilesPoints(v, n)
  {
    if n == 0 then []
    else
      var prev := TileVoxels(v, n - 1);
      var t := v.field.order[n - 1];
      assert t in v.field.entries;
      var c := v.field.entries[t];
      var vs := ToVecWithOffset(c);
      assert AllWeighted(vs);
      var avg := AverageAll(vs);
      assert forall e :: e in avg ==> e.point in Points(vs) by {
        forall e | e in avg ensures e.point in Points(vs) {
          var k :| 0 <= k < |avg| && avg[k] == e;
          assert Points(vs)[k] == e.point;
        }
      }
      prev + avg
  }

  /** A point of the first `n` tiles belongs to one of them. */
  lemma {:induction false} TilesPointsFromTile(v: MapTileVoxelizer, n: nat, p: Point3)
    requires Valid(v.field) && n <= |v.field.order|
    requires forall t :: t in v.field.entries ==> ShapeOk(v.field.entries[t])
    requires p in TilesPoints(v, n)
    ensures exists i :: 0 <= i < n && p in Points(ToVecWithOffset(v.field.entries[v.field.order[i]]))
  {
    if p !in TilesPoints(v, n - 1) {
      assert p in Points(ToVecWithOffset(v.field.entries[v.field.order[n - 1]]));
    } else {
      TilesPointsFromTile(v, n - 1, p);
    }
  }

  /** `MapTileVoxelizer::finish`: without tiles the `reduce(..).unwrap()`
      panics; otherwise every tile's offset-applied entries, averaged, go
      into the output store, whose resolution is the midpoint of the
      smallest and largest tile resolution.  No bounds, zero offset. */
  function FinishMapTile(v: MapTileVoxelizer, outKind: Kind, wmax: nat): (r: Result<Collection, CollectionError>)
    requires TilesOk(v, wmax) && wmax >= 1 && TilesWeighted(v)
    ensures r.Err? <==> v.field.entries == map[]
    ensures r.Err? ==> r.error == EmptyUnwrap
    ensures r.Ok? ==> KindOf(r.value) == outKind && WellFormed(r.value, wmax) && ShapeOk(r.value) && Offset(r.value) == Origin
    ensures r.Ok? && Sparse(outKind) ==> !HasBounds(r.value)
    ensures r.Ok? ==> Resolution(r.value) == (MinOf(Resolutions(v)) + MaxOf(Resolutions(v))) / 2.0
    ensures r.Ok? && outKind == PointCloudKind ==> ToVec(r.value) == TileVoxels(v, |v.field.order|)
  {
    CardOfDistinct(v.field);
    if v.field.order == [] then Err(EmptyUnwrap) else Ok(MergedTiles(v, outKind, wmax))
  }

  /** The output store of `finish` when there are tiles. */
  function MergedTiles(v: MapTileVoxelizer, outKind: Kind, wmax: nat): (r: Collection)
    requires TilesOk(v, wmax) && wmax >= 1 && TilesWeighted(v) && v.field.order != []
    ensures KindOf(r) == outKind && WellFormed(r, wmax) && ShapeOk(r) && Offset(r) == Origin
    ensures Sparse(outKind) ==> !HasBounds(r)
    ensures Resolution(r) == (MinOf(Resolutions(v)) + MaxOf(Resolutions(v))) / 2.0
    ensures outKind == PointCloudKind ==> ToVec(r) == TileVoxels(v, |v.field.order|)
  {
    var avgRes := MidResolution(v);
    var voxels := TileVoxels(v, |v.field.order|);
    UnitWeights(voxels, wmax);
    NewWithoutBoundsSucceeds(outKind, voxels, Origin, avgRes, wmax);
    Build(Builder(outKind, voxels, None, Origin, avgRes), wmax).value
  }

  lemma UnitWeights(es: seq<Entry>, wmax: nat)
    requires wmax >= 1 && forall e :: e in es ==> e.voxel.weight == 1
    ensures WeightsAtMost(es, wmax)
  {
    forall i | 0 <= i < |es| ensures es[i].voxel.weight <= wmax {
      assert es[i] in es;
    }
  }

  /** `finish` with tiles is the output store's `new` over the averaged tile
      entries, with no bounds, zero offset and the midpoint resolution; what
      the store holds is then that store's `new` contract. */
  lemma MergedTilesIsNew(v: MapTileVoxelizer, outKind: Kind, wmax: nat)
    requires TilesOk(v, wmax) && wmax >= 1 && TilesWeighted(v) && v.field.order != []
    ensures WeightsAtMost(TileVoxels(v, |v.field.order|), wmax)
    ensures Ok(MergedTiles(v, outKind, wmax))
         == New(outKind, TileVoxels(v, |v.field.order|), None, Origin, MidResolution(v), wmax)
  {
    var avgRes := MidResolution(v);
    var voxels := TileVoxels(v, |v.field.order|);
    UnitWeights(voxels, wmax);
    NewWithoutBoundsSucceeds(outKind, voxels, Origin, avgRes, wmax);
    var made := New(outKind, voxels, None, Origin, avgRes, wmax);
    assert made.Ok? && Ok(made.value) == made;
    assert Build(Builder(outKind, voxels, None, Origin, avgRes), wmax) == made;
    assert MergedTiles(v, outKind, wmax) == made.value;
  }

  /** `MapTileVoxelizer::finish` as a whole: the `reduce(..).unwrap()` panic
      without tiles, otherwise `new` as in `MergedTilesIsNew`. */
  lemma FinishMapTileIsNew(v: MapTileVoxelizer, outKind: Kind, wmax: nat)
    requires TilesOk(v, wmax) && wmax >= 1 && TilesWeighted(v)
    ensures v.field.entries == map[] ==> FinishMapTile(v, outKind, wmax) == Err(EmptyUnwrap)
    ensures v.field.entries != map[] ==>
      var voxels := TileVoxels(v, |v.field.order|);
      && WeightsAtMost(voxels, wmax)
      && FinishMapTile(v, outKind, wmax)
         == New(outKind, voxels, None, Origin, MidResolution(v), wmax)
  {
    if v.field.entries != map[] {
      CardOfDistinct(v.field);
      assert v.field.order != [];
      MergedTilesIsNew(v, outKind, wmax);
    }
  }

  /** Averaged lists one after another: `flat_map` followed by
      `map(average_color)`. */
  function AveragedConcat(ls: seq<seq<Entry>>): (r: seq<Entry>)
    requires forall j :: 0 <= j < |ls| ==> AllWeighted(ls[j])
  {
    if ls == [] then []
    else
      var init := ls[..|ls| - 1];
      assert forall j :: 0 <= j < |init| ==> init[j] == ls[j];
      AveragedConcat(init) + AverageAll(ls[|ls| - 1])
  }

  /** Where list `i`'s elements start in the concatenation. */
  function SegmentStart(ls: seq<seq<Entry>>, i: nat): (r: nat)
    requires i <= |ls|
  {
    if i == 0 then 0 else SegmentStart(ls, i - 1) + |ls[i - 1]|
  }

  lemma {:induction false} SegmentStartPrefix(ls: seq<seq<Entry>>, m: nat, i: nat)
    requires i <= m <= |ls|
    ensures SegmentStart(ls[..m], i) == SegmentStart(ls, i)
  {
    if i > 0 {
      SegmentStartPrefix(ls, m, i - 1);
      assert ls[..m][i - 1] == ls[i - 1];
    }
  }

  /** The concatenation holds exactly the lists' elements. */
  lemma {:induction false} AveragedConcatLength(ls: seq<seq<Entry>>)
    requires forall j :: 0 <= j < |ls| ==> AllWeighted(ls[j])
    ensures |AveragedConcat(ls)| == SegmentStart(ls, |ls|)
  {
    if ls != [] {
      var init := ls[..|ls| - 1];
      assert forall j :: 0 <= j < |init| ==> init[j] == ls[j];
      AveragedConcatLength(init);
      SegmentStartPrefix(ls, |ls| - 1, |ls| - 1);
    }
  }

  /** Element `k` of list `i` appears, averaged, at position `k` of list `i`'s
      segment, after the elements of the earlier lists. */
  lemma {:induction false} AveragedConcatAt(ls: seq<seq<Entry>>, i: nat, k: nat)
    requires forall j :: 0 <= j < |ls| ==> AllWeighted(ls[j])
    requires i < |ls| && k < |ls[i]|
    ensures SegmentStart(ls, i) + k < |AveragedConcat(ls)|
    ensures AveragedConcat(ls)[SegmentStart(ls, i) + k] == AverageAll(ls[i])[k]
  {
    var n := |ls| - 1;
    var init := ls[..n];
    assert forall j :: 0 <= j < |init| ==> init[j] == ls[j];
    var prev := AveragedConcat(init);
    assert AveragedConcat(ls) == prev + AverageAll(ls[n]);
    AveragedConcatLength(init);
    SegmentStartPrefix(ls, n, n);
    if i < n {
      AveragedConcatAt(init, i, k);
      SegmentStartPrefix(ls, n, i);
      assert AveragedConcat(ls)[SegmentStart(ls, i) + k] == prev[SegmentStart(ls, i) + k];
    } else {
      assert AveragedConcat(ls)[SegmentStart(ls, i) + k] == AverageAll(ls[n])[k];
    }
  }

  /** The tiles' offset-applied entries, one list per tile, in iteration order. */
  function TileLists(v: MapTileVoxelizer, n: nat): (r: seq<seq<Entry>>)
    requires Valid(v.field) && n <= |v.field.order|
    requires forall t :: t in v.field.entries ==> ShapeOk(v.field.entries[t])
    ensures |r| == n
    ensures forall j :: 0 <= j < n ==> v.field.order[j] in v.field.entries && r[j] == ToVecWithOffset(v.field.entries[v.field.order[j]])
  {
    seq(n, j requires 0 <= j < n =>
      assert v.field.order[j] in v.field.entries;
      ToVecWithOffset(v.field.entries[v.field.order[j]]))
  }

  /** The voxels `finish` collects are the tiles' offset-applied lists,
      averaged and concatenated in tile order. */
  lemma {:induction false} TileVoxelsIsConcat(v: MapTileVoxelizer, n: nat)
    requires Valid(v.field) && n <= |v.field.order|
    requires forall t :: t in v.field.entries ==> ShapeOk(v.field.entries[t])
    requires TilesWeighted(v)
    ensures forall j :: 0 <= j < n ==> AllWeighted(TileLists(v, n)[j])
    ensures TileVoxels(v, n) == AveragedConcat(TileLists(v, n))
  {
    var ls := TileLists(v, n);
    forall j | 0 <= j < n ensures AllWeighted(ls[j]) {
      assert AllWeighted(ToVec(v.field.entries[v.field.order[j]]));
    }
    if n > 0 {
      TileVoxelsIsConcat(v, n - 1);
      var prev := TileLists(v, n - 1);
      assert ls[..n - 1] == prev;
      var vs := ToVecWithOffset(v.field.entries[v.field.order[n - 1]]);
      assert ls[n - 1] == vs;
      assert AveragedConcat(ls) == AveragedConcat(prev) + AverageAll(vs);
      assert TileVoxels(v, n) == TileVoxels(v, n - 1) + AverageAll(vs);
    }
  }
}
