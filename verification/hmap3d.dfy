/** `HMap3DVoxelCollection` (src/collection.rs:813-938): a hash map from
    coordinate to voxel, at most one entry per coordinate. */
module HMap3DCollections {
  import opened Wrappers
  import opened Element
  import opened CollectionCore
  import opened OrderedMaps

  datatype HMap3DCollection = HMap3DCollection(
    field: OrderedMap<Point3, Voxel>,
    bounds: Option<Bounds>,
    offset: Point3,
    resolution: real)

  ghost predicate FieldOk(m: OrderedMap<Point3, Voxel>, wmax: nat) {
    Valid(m) && forall p :: p in m.entries ==> m.entries[p].weight <= wmax
  }

  ghost predicate WellFormed(c: HMap3DCollection, wmax: nat) {
    FieldOk(c.field, wmax)
  }

  /** `field.entry(point).and_modify(accumulate).or_insert(voxel)`. */
  function Put(m: OrderedMap<Point3, Voxel>, e: Entry, wmax: nat): (r: OrderedMap<Point3, Voxel>)
    requires FieldOk(m, wmax) && e.voxel.weight <= wmax
    ensures FieldOk(r, wmax)
    ensures r.entries.Keys == m.entries.Keys + {e.point}
    ensures e.point in m.entries ==> r.entries[e.point] == AddColorWithWeightCheck(m.entries[e.point], e.voxel, wmax)
    ensures e.point !in m.entries ==> r.entries[e.point] == e.voxel
    ensures forall q :: q in m.entries && q != e.point ==> r.entries[q] == m.entries[q]
  {
    Upsert(m, e.point, e.voxel, (cur: Voxel) requires cur.weight <= wmax => AddColorWithWeightCheck(cur, e.voxel, wmax))
  }

  function PutAll(m: OrderedMap<Point3, Voxel>, es: seq<Entry>, wmax: nat): (r: OrderedMap<Point3, Voxel>)
    requires FieldOk(m, wmax) && WeightsAtMost(es, wmax)
    ensures FieldOk(r, wmax)
  {
    if es == [] then m else Put(PutAll(m, es[..|es| - 1], wmax), es[|es| - 1], wmax)
  }

  lemma {:induction false} PutAllKeys(es: seq<Entry>, wmax: nat)
    requires WeightsAtMost(es, wmax)
    ensures PutAll(Empty(), es, wmax).entries.Keys == set p | p in Points(es)
  {
    if es != [] {
      var init := es[..|es| - 1];
      assert WeightsAtMost(init, wmax);
      PutAllKeys(init, wmax);
      PointSetSnoc(es, init);
    }
  }

  /** Building from `voxels` keeps one entry per coordinate: the first voxel
      given for it, with every later one accumulated by the weight check. */
  lemma {:induction false} PutAllValues(es: seq<Entry>, wmax: nat)
    requires WeightsAtMost(es, wmax)
    ensures forall p :: p in PutAll(Empty(), es, wmax).entries ==>
      VoxelsAt(es, p) != [] && PutAll(Empty(), es, wmax).entries[p] == Collapse(VoxelsAt(es, p), wmax)
  {
    if es != [] {
      var init := es[..|es| - 1];
      assert WeightsAtMost(init, wmax);
      PutAllValues(init, wmax);
      PutAllKeys(init, wmax);
      var prev := PutAll(Empty(), init, wmax);
      var r := PutAll(Empty(), es, wmax);
      forall p | p in r.entries
        ensures VoxelsAt(es, p) != [] && r.entries[p] == Collapse(VoxelsAt(es, p), wmax)
      {
        PutValueStep(es, init, wmax, prev, r, p);
      }
    }
  }

  /** One more entry: its point's voxels gain it, and no other point's change. */
  lemma PutValueStep(es: seq<Entry>, init: seq<Entry>, wmax: nat, prev: OrderedMap<Point3, Voxel>,
                     r: OrderedMap<Point3, Voxel>, p: Point3)
    requires es != [] && init == es[..|es| - 1] && WeightsAtMost(es, wmax) && WeightsAtMost(init, wmax)
    requires prev == PutAll(Empty(), init, wmax) && r == PutAll(Empty(), es, wmax)
    requires prev.entries.Keys == set p | p in Points(init)
    requires forall p :: p in prev.entries ==> VoxelsAt(init, p) != [] && prev.entries[p] == Collapse(VoxelsAt(init, p), wmax)
    requires p in r.entries
    ensures VoxelsAt(es, p) != [] && r.entries[p] == Collapse(VoxelsAt(es, p), wmax)
  {
    var e := es[|es| - 1];
    assert r == Put(prev, e, wmax);
    if p == e.point {
      if p in prev.entries {
        assert VoxelsAt(es, p) == VoxelsAt(init, p) + [e.voxel];
        assert VoxelsAt(es, p)[..|VoxelsAt(es, p)| - 1] == VoxelsAt(init, p);
      } else {
        assert VoxelsAt(es, p) == [e.voxel];
      }
    } else {
      assert VoxelsAt(es, p) == VoxelsAt(init, p);
    }
  }

  /** `HMap3DVoxelCollection::new`: one entry per distinct coordinate of
      `voxels`, each the collapse of the voxels given for it; bounds, offset and
      resolution stored as given. */
  function New(voxels: seq<Entry>, bounds: Option<Bounds>, offset: Point3, resolution: real, wmax: nat): (r: HMap3DCollection)
    requires WeightsAtMost(voxels, wmax)
    ensures WellFormed(r, wmax)
    ensures r.field.entries.Keys == set p | p in Points(voxels)
    ensures forall p :: p in r.field.entries ==> r.field.entries[p] == Collapse(VoxelsAt(voxels, p), wmax)
    ensures r.bounds == bounds && r.offset == offset && r.resolution == resolution
  {
    PutAllKeys(voxels, wmax);
    PutAllValues(voxels, wmax);
    HMap3DCollection(PutAll(Empty(), voxels, wmax), bounds, offset, resolution)
  }

  /** `insert_one`: an existing entry is accumulated through the weight check,
      a new coordinate is inserted as given, nothing else changes, and the
      cached bounds are dropped. */
  function InsertOne(c: HMap3DCollection, p: Point3, v: Voxel, wmax: nat): (r: HMap3DCollection)
    requires WellFormed(c, wmax) && v.weight <= wmax
    ensures WellFormed(r, wmax)
    ensures r.field.entries.Keys == c.field.entries.Keys + {p}
    ensures p in c.field.entries ==> r.field.entries[p] == AddColorWithWeightCheck(c.field.entries[p], v, wmax)
    ensures p !in c.field.entries ==> r.field.entries[p] == v
    ensures forall q :: q in c.field.entries && q != p ==> r.field.entries[q] == c.field.entries[q]
    ensures r.bounds == None && r.offset == c.offset && r.resolution == c.resolution
  {
    HMap3DCollection(Put(c.field, Entry(p, v), wmax), None, c.offset, c.resolution)
  }

  /** Inserting one more voxel equals building from the longer list. */
  lemma NewThenInsertOne(voxels: seq<Entry>, e: Entry, bounds: Option<Bounds>, offset: Point3, resolution: real, wmax: nat)
    requires WeightsAtMost(voxels, wmax) && e.voxel.weight <= wmax
    ensures WeightsAtMost(voxels + [e], wmax)
    ensures InsertOne(New(voxels, bounds, offset, resolution, wmax), e.point, e.voxel, wmax).field
         == New(voxels + [e], bounds, offset, resolution, wmax).field
  {
    assert (voxels + [e])[..|voxels|] == voxels;
    assert WeightsAtMost(voxels + [e], wmax);
  }

  /** `has`: key membership. */
  function Has(c: HMap3DCollection, p: Point3): bool {
    p in c.field.entries
  }

  /** After `new`, exactly the given coordinates are present. */
  lemma HasAfterNew(voxels: seq<Entry>, bounds: Option<Bounds>, offset: Point3, resolution: real, wmax: nat, p: Point3)
    requires WeightsAtMost(voxels, wmax)
    ensures Has(New(voxels, bounds, offset, resolution, wmax), p) <==> exists i :: 0 <= i < |voxels| && voxels[i].point == p
  {
    if exists i :: 0 <= i < |voxels| && voxels[i].point == p {
      var i :| 0 <= i < |voxels| && voxels[i].point == p;
      assert Points(voxels)[i] == p;
    }
  }

  /** `to_vec`: the entries in iteration order. */
  function ToVec(c: HMap3DCollection): (r: seq<Entry>)
    requires Valid(c.field)
    ensures |r| == |c.field.entries|
    ensures forall i :: 0 <= i < |r| ==> r[i].point in c.field.entries && r[i].voxel == c.field.entries[r[i].point]
    ensures forall p :: p in c.field.entries ==> p in Points(r)
  {
    var items := Items(c.field);
    var r := seq(|items|, i requires 0 <= i < |items| => Entry(items[i].0, items[i].1));
    assert forall p :: p in c.field.entries ==> p in Points(r) by {
      forall p | p in c.field.entries ensures p in Points(r) {
        var i :| 0 <= i < |c.field.order| && c.field.order[i] == p;
        assert Points(r)[i] == p;
      }
    }
    r
  }

  /** `to_vec` lists every coordinate once. */
  lemma ToVecDistinct(c: HMap3DCollection)
    requires Valid(c.field)
    ensures forall i, j :: 0 <= i < j < |ToVec(c)| ==> ToVec(c)[i].point != ToVec(c)[j].point
  {
    var r := ToVec(c);
    forall i, j | 0 <= i < j < |r| ensures r[i].point != r[j].point {
      assert r[i].point == Items(c.field)[i].0 == c.field.order[i];
    }
  }

  /** `has` answers true exactly for the points `to_vec` lists. */
  lemma HasIffListed(c: HMap3DCollection, p: Point3)
    requires Valid(c.field)
    ensures Has(c, p) <==> exists k :: 0 <= k < |ToVec(c)| && ToVec(c)[k].point == p
  {
    var r := ToVec(c);
    if Has(c, p) {
      var k :| 0 <= k < |Points(r)| && Points(r)[k] == p;
      assert r[k].point == p;
    }
  }
}
