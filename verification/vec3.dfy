/** `Vec3VoxelCollection` (src/collection.rs:441-600): a dense box of voxels
    indexed by `point - bounds.min`; empty cells hold the zero voxel. */
module Vec3Collections {
  import opened Wrappers
  import opened Element
  import opened CollectionCore
  import opened Grid

  datatype Vec3Collection = Vec3Collection(
    field: seq<seq<seq<Voxel>>>,
    bounds: Bounds,
    offset: Point3,
    resolution: real)

  /** `max - min + 1`, the extent of the allocated box. */
  function Size(b: Bounds): Point3 {
    Point3(b.max.x - b.min.x + 1, b.max.y - b.min.y + 1, b.max.z - b.min.z + 1)
  }

  ghost predicate WellFormed(c: Vec3Collection, wmax: nat) {
    && Shaped3(c.field, Size(c.bounds))
    && forall q :: Cell3(c.field, q).Some? ==> Cell3(c.field, q).value.weight <= wmax
  }

  /** The cell of absolute coordinate `p`, if it is inside the field. */
  function CellAt(c: Vec3Collection, p: Point3): Option<Voxel> {
    Cell3(c.field, Sub3(p, c.bounds.min))
  }

  lemma CellAtInBounds(c: Vec3Collection, p: Point3)
    requires Shaped3(c.field, Size(c.bounds))
    ensures CellAt(c, p).Some? <==> InBounds(c.bounds, p)
  {
  }

  /** The voxel of the last entry at `p`: the one a sequence of writes leaves. */
  function LastVoxelAt(es: seq<Entry>, p: Point3): (r: Option<Voxel>)
    ensures r.None? <==> p !in Points(es)
    ensures r.Some? ==> exists i :: 0 <= i < |es| && es[i] == Entry(p, r.value)
                                  && forall j :: i < j < |es| ==> es[j].point != p
  {
    if es == [] then None
    else
      var init, last := es[..|es| - 1], es[|es| - 1];
      assert Points(es) == Points(init) + [last.point];
      if last.point == p then Some(last.voxel) else LastVoxelAt(init, p)
  }

  /** `field[x][y][z] = voxel` for each entry in order. */
  function WriteAll(f: seq<seq<seq<Voxel>>>, es: seq<Entry>, min: Point3): (r: seq<seq<seq<Voxel>>>)
    requires forall i :: 0 <= i < |es| ==> Cell3(f, Sub3(es[i].point, min)).Some?
    ensures forall s :: Shaped3(f, s) ==> Shaped3(r, s)
    ensures forall q :: Cell3(r, q) == (if LastVoxelAt(es, Add3(q, min)).Some? && Cell3(f, q).Some?
                                          then LastVoxelAt(es, Add3(q, min)) else Cell3(f, q))
  {
    if es == [] then f
    else
      var init, last := es[..|es| - 1], es[|es| - 1];
      var prev := WriteAll(f, init, min);
      assert Cell3(prev, Sub3(last.point, min)).Some?;
      var r := Set3(prev, Sub3(last.point, min), last.voxel);
      ShiftedFrom(last.point, min);
      r
  }

  /** The field `new` builds once the box is known to hold every entry. */
  function Build(voxels: seq<Entry>, b: Bounds, offset: Point3, resolution: real, wmax: nat): (r: Vec3Collection)
    requires WeightsAtMost(voxels, wmax)
    requires 0 <= Size(b).x && 0 <= Size(b).y && 0 <= Size(b).z
    requires forall i :: 0 <= i < |voxels| ==> InBounds(b, voxels[i].point)
    ensures WellFormed(r, wmax)
    ensures r.bounds == b && r.offset == offset && r.resolution == resolution
    ensures forall p :: InBounds(b, p) ==>
      CellAt(r, p) == Some(if LastVoxelAt(voxels, p).Some? then LastVoxelAt(voxels, p).value else EmptyVoxel)
  {
    var empty := Filled3(Size(b), EmptyVoxel);
    FilledHoldsEntries(voxels, b);
    var f := WriteAll(empty, voxels, b.min);
    WrittenWeights(voxels, b, wmax, f);
    WrittenCells(voxels, b, f);
    Vec3Collection(f, b, offset, resolution)
  }

  /** After the writes the field keeps the box's shape, and each cell of the
      box holds the last entry written to it, or the zero voxel. */
  lemma WrittenCells(voxels: seq<Entry>, b: Bounds, f: seq<seq<seq<Voxel>>>)
    requires 0 <= Size(b).x && 0 <= Size(b).y && 0 <= Size(b).z
    requires forall i :: 0 <= i < |voxels| ==> Cell3(Filled3(Size(b), EmptyVoxel), Sub3(voxels[i].point, b.min)).Some?
    requires f == WriteAll(Filled3(Size(b), EmptyVoxel), voxels, b.min)
    ensures Shaped3(f, Size(b))
    ensures forall p :: InBounds(b, p) ==>
      Cell3(f, Sub3(p, b.min)) == Some(if LastVoxelAt(voxels, p).Some? then LastVoxelAt(voxels, p).value else EmptyVoxel)
  {
    forall p | InBounds(b, p)
      ensures Cell3(f, Sub3(p, b.min)) == Some(if LastVoxelAt(voxels, p).Some? then LastVoxelAt(voxels, p).value else EmptyVoxel)
    {
      WrittenCell(voxels, b, f, p);
    }
  }

  lemma WrittenCell(voxels: seq<Entry>, b: Bounds, f: seq<seq<seq<Voxel>>>, p: Point3)
    requires 0 <= Size(b).x && 0 <= Size(b).y && 0 <= Size(b).z
    requires forall i :: 0 <= i < |voxels| ==> Cell3(Filled3(Size(b), EmptyVoxel), Sub3(voxels[i].point, b.min)).Some?
    requires f == WriteAll(Filled3(Size(b), EmptyVoxel), voxels, b.min)
    requires InBounds(b, p)
    ensures Cell3(f, Sub3(p, b.min)) == Some(if LastVoxelAt(voxels, p).Some? then LastVoxelAt(voxels, p).value else EmptyVoxel)
  {
    var q := Sub3(p, b.min);
    var empty := Filled3(Size(b), EmptyVoxel);
    assert Add3(q, b.min) == p;
    assert Cell3(empty, q) == Some(EmptyVoxel);
  }

  /** Every entry inside the box has a cell in the zero-filled field. */
  lemma FilledHoldsEntries(voxels: seq<Entry>, b: Bounds)
    requires 0 <= Size(b).x && 0 <= Size(b).y && 0 <= Size(b).z
    requires forall i :: 0 <= i < |voxels| ==> InBounds(b, voxels[i].point)
    ensures forall i :: 0 <= i < |voxels| ==> Cell3(Filled3(Size(b), EmptyVoxel), Sub3(voxels[i].point, b.min)).Some?
  {
    var s := Size(b);
    var empty := Filled3(s, EmptyVoxel);
    forall i | 0 <= i < |voxels| ensures Cell3(empty, Sub3(voxels[i].point, b.min)).Some? {
      var q := Sub3(voxels[i].point, b.min);
      assert InBounds(b, voxels[i].point);
      assert 0 <= q.y < s.y && 0 <= q.z < s.z;
      assert 0 <= q.x < |empty| && |empty[q.x]| == s.y && |empty[q.x][q.y]| == s.z;
    }
  }

  /** Writing entries of weight at most `wmax` over zero voxels leaves every
      cell at most `wmax`. */
  lemma WrittenWeights(voxels: seq<Entry>, b: Bounds, wmax: nat, f: seq<seq<seq<Voxel>>>)
    requires WeightsAtMost(voxels, wmax)
    requires 0 <= Size(b).x && 0 <= Size(b).y && 0 <= Size(b).z
    requires forall i :: 0 <= i < |voxels| ==> Cell3(Filled3(Size(b), EmptyVoxel), Sub3(voxels[i].point, b.min)).Some?
    requires f == WriteAll(Filled3(Size(b), EmptyVoxel), voxels, b.min)
    ensures forall q :: Cell3(f, q).Some? ==> Cell3(f, q).value.weight <= wmax
  {
    forall q | Cell3(f, q).Some? ensures Cell3(f, q).value.weight <= wmax {
      var p := Add3(q, b.min);
      if LastVoxelAt(voxels, p).Some? {
        var i :| 0 <= i < |voxels| && voxels[i] == Entry(p, LastVoxelAt(voxels, p).value);
      }
    }
  }

  /** `Vec3VoxelCollection::new`: the box is the given bounds, or the tight
      bounds of the entries; every cell starts as the zero voxel and each entry
      overwrites its cell, so the last write wins.  A box of negative extent
      and an entry outside the box are panics in the source. */
  function New(voxels: seq<Entry>, bounds: Option<Bounds>, offset: Point3, resolution: real, wmax: nat)
    : (r: Result<Vec3Collection, CollectionError>)
    requires WeightsAtMost(voxels, wmax)
    ensures var b := if bounds.Some? then bounds.value else CalcBounds(voxels);
      && (r.Err? <==> (Size(b).x < 0 || Size(b).y < 0 || Size(b).z < 0
                       || exists i :: 0 <= i < |voxels| && !InBounds(b, voxels[i].point)))
      && (r.Err? ==> r.error == (if Size(b).x < 0 || Size(b).y < 0 || Size(b).z < 0 then NegativeSize else IndexOutOfBounds))
      && (r.Ok? ==> && WellFormed(r.value, wmax)
                    && r.value.bounds == b && r.value.offset == offset && r.value.resolution == resolution
                    && forall p :: InBounds(b, p) ==>
                         CellAt(r.value, p) == Some(if LastVoxelAt(voxels, p).Some? then LastVoxelAt(voxels, p).value else EmptyVoxel))
  {
    var b := if bounds.Some? then bounds.value else CalcBounds(voxels);
    var s := Size(b);
    if s.x < 0 || s.y < 0 || s.z < 0 then Err(NegativeSize)
    else if exists i :: 0 <= i < |voxels| && !InBounds(b, voxels[i].point) then Err(IndexOutOfBounds)
    else Ok(Build(voxels, b, offset, resolution, wmax))
  }

  /** Without explicit bounds the box is tight around the entries, so `new`
      cannot fail. */
  lemma NewWithoutBoundsSucceeds(voxels: seq<Entry>, offset: Point3, resolution: real, wmax: nat)
    requires WeightsAtMost(voxels, wmax)
    ensures New(voxels, None, offset, resolution, wmax).Ok?
  {
    var b := CalcBounds(voxels);
    forall i | 0 <= i < |voxels| ensures InBounds(b, voxels[i].point) {
      assert Points(voxels)[i] == voxels[i].point;
    }
    if voxels != [] {
      assert InBounds(b, voxels[0].point);
    }
  }

  /** `insert_one`: inside the box the cell accumulates through the weight
      check; outside it nothing happens. */
  function InsertOne(c: Vec3Collection, p: Point3, v: Voxel, wmax: nat): (r: Vec3Collection)
    requires WellFormed(c, wmax) && v.weight <= wmax
    ensures WellFormed(r, wmax)
    ensures !InBounds(c.bounds, p) ==> r == c
    ensures InBounds(c.bounds, p) ==>
      CellAt(r, p) == Some(AddColorWithWeightCheck(CellAt(c, p).value, v, wmax))
    ensures forall q :: q != p ==> CellAt(r, q) == CellAt(c, q)
    ensures r.bounds == c.bounds && r.offset == c.offset && r.resolution == c.resolution
  {
    var q := Sub3(p, c.bounds.min);
    match Cell3(c.field, q)
    case None => c
    case Some(cur) =>
      var f := Set3(c.field, q, AddColorWithWeightCheck(cur, v, wmax));
      assert forall q' :: Sub3(q', c.bounds.min) == q <==> q' == p;
      c.(field := f)
  }

  /** `has`: the cell exists and has a non-zero weight. */
  function Has(c: Vec3Collection, p: Point3): bool {
    match CellAt(c, p)
    case None => false
    case Some(v) => v.weight != 0
  }

  /** After a successful `new`, a point is present iff it lies in the box and
      the last voxel written at it has a non-zero weight. */
  lemma HasAfterNew(voxels: seq<Entry>, bounds: Option<Bounds>, offset: Point3, resolution: real, wmax: nat, p: Point3)
    requires WeightsAtMost(voxels, wmax) && New(voxels, bounds, offset, resolution, wmax).Ok?
    ensures Has(New(voxels, bounds, offset, resolution, wmax).value, p)
        <==> InBounds(New(voxels, bounds, offset, resolution, wmax).value.bounds, p)
             && LastVoxelAt(voxels, p).Some? && LastVoxelAt(voxels, p).value.weight != 0
  {
    CellAtInBounds(New(voxels, bounds, offset, resolution, wmax).value, p);
  }

  /** `to_vec`: every cell of the box, empty ones included, at its absolute
      coordinate, in x-major order. */
  function ToVec(c: Vec3Collection): (r: seq<Entry>)
    requires Shaped3(c.field, Size(c.bounds))
    ensures |r| == Size(c.bounds).x * Size(c.bounds).y * Size(c.bounds).z
    ensures forall k :: 0 <= k < |r| ==> InBounds(c.bounds, r[k].point) && CellAt(c, r[k].point) == Some(r[k].voxel)
    ensures forall p :: InBounds(c.bounds, p) ==> p in Points(r)
  {
    var s, min := Size(c.bounds), c.bounds.min;
    var r := seq(s.x * s.y * s.z, k requires 0 <= k < s.x * s.y * s.z =>
      UnflatInRange3(k, s);
      var q := Unflat3(k, s.y, s.z);
      Entry(Add3(q, min), c.field[q.x][q.y][q.z]));
    forall k | 0 <= k < |r| ensures InBounds(c.bounds, r[k].point) && CellAt(c, r[k].point) == Some(r[k].voxel) {
      UnflatInRange3(k, s);
      assert Sub3(Add3(Unflat3(k, s.y, s.z), min), min) == Unflat3(k, s.y, s.z);
    }
    forall p | InBounds(c.bounds, p) ensures p in Points(r) {
      var q := Sub3(p, min);
      FlatRoundTrip3(q, s);
      assert Points(r)[Flat3(q, s.y, s.z)] == p;
    }
    r
  }

  /** `has` answers true exactly for the points `to_vec` lists with a voxel
      of non-zero weight. */
  lemma HasIffListed(c: Vec3Collection, p: Point3)
    requires Shaped3(c.field, Size(c.bounds))
    ensures Has(c, p) <==> exists k :: 0 <= k < |ToVec(c)| && ToVec(c)[k].point == p && ToVec(c)[k].voxel.weight != 0
  {
    var r := ToVec(c);
    if Has(c, p) {
      CellAtInBounds(c, p);
      var k :| 0 <= k < |Points(r)| && Points(r)[k] == p;
      assert CellAt(c, r[k].point) == Some(r[k].voxel);
    }
  }
}
