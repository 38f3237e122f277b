/** `PointCloud` (src/collection.rs:345-440): a plain list of
    `(point, voxel)` pairs, duplicates allowed. */
module PointClouds {
  import opened Wrappers
  import opened Element
  import opened CollectionCore

  datatype PointCloud = PointCloud(
    field: seq<Entry>,
    bounds: Option<Bounds>,
    offset: Point3,
    resolution: real)

  /** `PointCloud::default`: empty, unit resolution. */
  function Default(): (r: PointCloud)
    ensures r.field == [] && r.bounds == None && r.offset == Origin && r.resolution == 1.0
  {
    PointCloud([], None, Origin, 1.0)
  }

  /** `PointCloud::new`: the list is kept as given, in order and with
      repetitions; no accumulation happens. */
  function New(voxels: seq<Entry>, bounds: Option<Bounds>, offset: Point3, resolution: real): (r: PointCloud)
    ensures |r.field| == |voxels|
    ensures forall i :: 0 <= i < |voxels| ==> r.field[i] == voxels[i]
    ensures r.bounds == bounds && r.offset == offset && r.resolution == resolution
  {
    PointCloud(voxels, bounds, offset, resolution)
  }

  /** `insert_one`: appended at the end; the cached bounds are dropped. */
  function InsertOne(c: PointCloud, p: Point3, v: Voxel): (r: PointCloud)
    ensures |r.field| == |c.field| + 1 && r.field[..|c.field|] == c.field
    ensures r.field[|c.field|] == Entry(p, v)
    ensures r.bounds == None && r.offset == c.offset && r.resolution == c.resolution
  {
    PointCloud(c.field + [Entry(p, v)], None, c.offset, c.resolution)
  }

  /** `insert` (the override): appends the other collection's offset-applied
      entries and drops the cached bounds. */
  function InsertAll(c: PointCloud, others: seq<Entry>): (r: PointCloud)
    ensures |r.field| == |c.field| + |others|
    ensures r.field[..|c.field|] == c.field && r.field[|c.field|..] == others
    ensures r.bounds == None && r.offset == c.offset && r.resolution == c.resolution
  {
    PointCloud(c.field + others, None, c.offset, c.resolution)
  }

  /** The override of `insert` agrees with the trait's default, which calls
      `insert_one` once per entry. */
  lemma {:induction false} InsertAllIsRepeatedInsertOne(c: PointCloud, others: seq<Entry>)
    ensures InsertAll(c, others).field == InsertOneEach(c, others).field
    ensures others != [] ==> InsertOneEach(c, others) == InsertAll(c, others)
  {
    if others != [] {
      var init, e := others[..|others| - 1], others[|others| - 1];
      InsertAllIsRepeatedInsertOne(c, init);
      assert c.field + others == (c.field + init) + [e];
    }
  }

  /** The trait's default `insert`: `insert_one` for each entry in order. */
  function InsertOneEach(c: PointCloud, others: seq<Entry>): (r: PointCloud)
    ensures |r.field| == |c.field| + |others|
  {
    if others == [] then c
    else
      var prev := InsertOneEach(c, others[..|others| - 1]);
      InsertOne(prev, others[|others| - 1].point, others[|others| - 1].voxel)
  }

  /** `has`: a linear scan for an equal point. */
  method Has(c: PointCloud, p: Point3) returns (b: bool)
    ensures b <==> exists i :: 0 <= i < |c.field| && c.field[i].point == p
  {
    var i := 0;
    while i < |c.field|
      invariant 0 <= i <= |c.field|
      invariant forall j :: 0 <= j < i ==> c.field[j].point != p
    {
      if c.field[i].point == p {
        return true;
      }
      i := i + 1;
    }
    return false;
  }

  /** `to_vec`: the field in order; building again from it with the same
      bounds, offset and resolution gives back the same collection. */
  function ToVec(c: PointCloud): (r: seq<Entry>)
    ensures New(r, c.bounds, c.offset, c.resolution) == c
  {
    c.field
  }
}
