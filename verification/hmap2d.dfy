/** `HMap2DVoxelCollection` (src/collection.rs:940-1077): a hash map from a
    column `(x, y)` to one `(height, voxel)` pair. */
module HMap2DCollections {
  import opened Wrappers
  import opened Element
  import opened CollectionCore
  import opened OrderedMaps

  datatype HMap2DCollection = HMap2DCollection(
    field: OrderedMap<Point2, Column>,
    bounds: Option<Bounds>,
    offset: Point3,
    resolution: real)

  ghost predicate FieldOk(m: OrderedMap<Point2, Column>, wmax: nat) {
    Valid(m) && forall q :: q in m.entries ==> m.entries[q].voxel.weight <= wmax
  }

  ghost predicate WellFormed(c: HMap2DCollection, wmax: nat) {
    FieldOk(c.field, wmax)
  }

  function Columns(entries: seq<Entry>): (r: seq<Point2>)
    ensures |r| == |entries| && forall i :: 0 <= i < |r| ==> r[i] == Fit(entries[i].point)
  {
    seq(|entries|, i requires 0 <= i < |entries| => Fit(entries[i].point))
  }

  /** The height of the first entry that falls in column `xy`. */
  function FirstHeight(entries: seq<Entry>, xy: Point2): int
    requires xy in Columns(entries)
  {
    var init, last := entries[..|entries| - 1], entries[|entries| - 1];
    assert Columns(entries) == Columns(init) + [Fit(last.point)];
    if xy in Columns(init) then FirstHeight(init, xy) else last.point.z
  }

  /** `entry(xy).and_modify(accumulate if same height).or_insert((z, voxel))`. */
  function Put(m: OrderedMap<Point2, Column>, e: Entry, wmax: nat): (r: OrderedMap<Point2, Column>)
    requires FieldOk(m, wmax) && e.voxel.weight <= wmax
    ensures FieldOk(r, wmax)
    ensures r.entries.Keys == m.entries.Keys + {Fit(e.point)}
    ensures Fit(e.point) !in m.entries ==> r.entries[Fit(e.point)] == Column(e.point.z, e.voxel)
    ensures Fit(e.point) in m.entries && m.entries[Fit(e.point)].height == e.point.z ==>
      r.entries[Fit(e.point)] == Column(e.point.z, AddColorWithWeightCheck(m.entries[Fit(e.point)].voxel, e.voxel, wmax))
    ensures Fit(e.point) in m.entries && m.entries[Fit(e.point)].height != e.point.z ==> r.entries == m.entries
    ensures forall q :: q in m.entries && q != Fit(e.point) ==> r.entries[q] == m.entries[q]
  {
    Upsert(m, Fit(e.point), Column(e.point.z, e.voxel),
      (col: Column) requires col.voxel.weight <= wmax =>
        if col.height == e.point.z then Column(col.height, AddColorWithWeightCheck(col.voxel, e.voxel, wmax)) else col)
  }

  function PutAll(m: OrderedMap<Point2, Column>, es: seq<Entry>, wmax: nat): (r: OrderedMap<Point2, Column>)
    requires FieldOk(m, wmax) && WeightsAtMost(es, wmax)
    ensures FieldOk(r, wmax)
  {
    if es == [] then m else Put(PutAll(m, es[..|es| - 1], wmax), es[|es| - 1], wmax)
  }

  lemma ColumnSetSnoc(es: seq<Entry>, init: seq<Entry>)
    requires es != [] && init == es[..|es| - 1]
    ensures (set q | q in Columns(es)) == (set q | q in Columns(init)) + {Fit(es[|es| - 1].point)}
  {
    assert Columns(es) == Columns(init) + [Fit(es[|es| - 1].point)];
  }

  lemma {:induction false} PutAllKeys(es: seq<Entry>, wmax: nat)
    requires WeightsAtMost(es, wmax)
    ensures PutAll(Empty(), es, wmax).entries.Keys == set q | q in Columns(es)
  {
    if es != [] {
      var init, e := es[..|es| - 1], es[|es| - 1];
      PutAllKeys(init, wmax);
      ColumnSetSnoc(es, init);
      assert PutAll(Empty(), es, wmax) == Put(PutAll(Empty(), init, wmax), e, wmax);
    }
  }

  /** The first height of a column is the height of a given point. */
  lemma {:induction false} FirstHeightAttained(es: seq<Entry>, xy: Point2)
    requires xy in Columns(es)
    ensures Point3(xy.x, xy.y, FirstHeight(es, xy)) in Points(es)
  {
    var init, last := es[..|es| - 1], es[|es| - 1];
    assert Columns(es) == Columns(init) + [Fit(last.point)];
    assert Points(es) == Points(init) + [last.point];
    if xy in Columns(init) {
      FirstHeightAttained(init, xy);
    }
  }

  /** The column entry built from `es` for `q`: first height, collapsed voxel. */
  ghost predicate ColumnOf(es: seq<Entry>, wmax: nat, q: Point2, col: Column)
    requires WeightsAtMost(es, wmax)
  {
    && q in Columns(es)
    && col.height == FirstHeight(es, q)
    && VoxelsAt(es, Point3(q.x, q.y, col.height)) != []
    && col.voxel == Collapse(VoxelsAt(es, Point3(q.x, q.y, col.height)), wmax)
  }

  /** One step of `PutAll`: the column entry after putting `e` is the column
      built from `init + [e]`. */
  lemma ColumnOfStep(init: seq<Entry>, e: Entry, wmax: nat, q: Point2, prev: OrderedMap<Point2, Column>)
    requires WeightsAtMost(init, wmax) && e.voxel.weight <= wmax && WeightsAtMost(init + [e], wmax)
    requires FieldOk(prev, wmax)
    requires prev.entries.Keys == set x | x in Columns(init)
    requires q in prev.entries ==> ColumnOf(init, wmax, q, prev.entries[q])
    requires q in Put(prev, e, wmax).entries
    ensures ColumnOf(init + [e], wmax, q, Put(prev, e, wmax).entries[q])
  {
    var es := init + [e];
    assert es[..|es| - 1] == init && es[|es| - 1] == e;
    assert Columns(es) == Columns(init) + [Fit(e.point)];
    var h := FirstHeight(es, q);
    var at := Point3(q.x, q.y, h);
    if q in prev.entries {
      assert h == FirstHeight(init, q);
      if e.point == at {
        assert VoxelsAt(es, at) == VoxelsAt(init, at) + [e.voxel];
        assert VoxelsAt(es, at)[..|VoxelsAt(es, at)| - 1] == VoxelsAt(init, at);
      } else {
        assert VoxelsAt(es, at) == VoxelsAt(init, at);
      }
    } else {
      assert q == Fit(e.point) && h == e.point.z && at == e.point;
      forall i | 0 <= i < |init| ensures Points(init)[i] != at {
        assert Columns(init)[i] in prev.entries;
      }
      assert VoxelsAt(es, at) == [e.voxel];
    }
  }

  lemma SplitLast<T>(s: seq<T>)
    requires s != []
    ensures s == s[..|s| - 1] + [s[|s| - 1]]
  {
  }

  /** The first height given for a column wins; the column's voxel collapses
      exactly the voxels given at that height. */
  lemma {:induction false} PutAllValues(es: seq<Entry>, wmax: nat)
    requires WeightsAtMost(es, wmax)
    ensures forall q :: q in PutAll(Empty(), es, wmax).entries ==>
      ColumnOf(es, wmax, q, PutAll(Empty(), es, wmax).entries[q])
  {
    if es != [] {
      var init, e := es[..|es| - 1], es[|es| - 1];
      PutAllValues(init, wmax);
      PutAllKeys(init, wmax);
      var prev := PutAll(Empty(), init, wmax);
      var r := PutAll(Empty(), es, wmax);
      SplitLast(es);
      assert r == Put(prev, e, wmax);
      forall q | q in r.entries
        ensures ColumnOf(es, wmax, q, r.entries[q])
      {
        assert q in prev.entries ==> ColumnOf(init, wmax, q, prev.entries[q]);
        ColumnOfStep(init, e, wmax, q, prev);
      }
    }
  }

  /** `HMap2DVoxelCollection::new`: one `(height, voxel)` per column; the first
      height given for a column wins and later entries at another height are
      dropped. */
  function New(voxels: seq<Entry>, bounds: Option<Bounds>, offset: Point3, resolution: real, wmax: nat): (r: HMap2DCollection)
    requires WeightsAtMost(voxels, wmax)
    ensures WellFormed(r, wmax)
    ensures r.field.entries.Keys == set q | q in Columns(voxels)
    ensures forall q :: q in r.field.entries ==> ColumnOf(voxels, wmax, q, r.field.entries[q])
    ensures r.bounds == bounds && r.offset == offset && r.resolution == resolution
  {
    PutAllKeys(voxels, wmax);
    PutAllValues(voxels, wmax);
    HMap2DCollection(PutAll(Empty(), voxels, wmax), bounds, offset, resolution)
  }

  /** `insert_one`: a new column takes the point as given; at the stored height
      the voxel accumulates; at any other height the insert is discarded.  The
      cached bounds are dropped in every case. */
  function InsertOne(c: HMap2DCollection, p: Point3, v: Voxel, wmax: nat): (r: HMap2DCollection)
    requires WellFormed(c, wmax) && v.weight <= wmax
    ensures WellFormed(r, wmax)
    ensures Fit(p) !in c.field.entries ==> r.field.entries == c.field.entries[Fit(p) := Column(p.z, v)]
    ensures Fit(p) in c.field.entries && c.field.entries[Fit(p)].height == p.z ==>
      r.field.entries == c.field.entries[Fit(p) := Column(p.z, AddColorWithWeightCheck(c.field.entries[Fit(p)].voxel, v, wmax))]
    ensures Fit(p) in c.field.entries && c.field.entries[Fit(p)].height != p.z ==> r.field.entries == c.field.entries
    ensures r.bounds == None && r.offset == c.offset && r.resolution == c.resolution
  {
    HMap2DCollection(Put(c.field, Entry(p, v), wmax), None, c.offset, c.resolution)
  }

  /** `has`: the column is present at exactly this height (the voxel weight is
      not consulted). */
  function Has(c: HMap2DCollection, p: Point3): bool {
    Fit(p) in c.field.entries && c.field.entries[Fit(p)].height == p.z
  }

  /** After `new`, a point is present iff it lies in a given column at that
      column's first height. */
  lemma HasAfterNew(voxels: seq<Entry>, bounds: Option<Bounds>, offset: Point3, resolution: real, wmax: nat, p: Point3)
    requires WeightsAtMost(voxels, wmax)
    ensures Has(New(voxels, bounds, offset, resolution, wmax), p)
        <==> Fit(p) in Columns(voxels) && p.z == FirstHeight(voxels, Fit(p))
  {
  }

  /** `to_vec`: each column as the point `(x, y, height)` with its voxel. */
  function ToVec(c: HMap2DCollection): (r: seq<Entry>)
    requires Valid(c.field)
    ensures |r| == |c.field.entries|
    ensures forall i :: 0 <= i < |r| ==>
      Fit(r[i].point) in c.field.entries && c.field.entries[Fit(r[i].point)] == Column(r[i].point.z, r[i].voxel)
  {
    var items := Items(c.field);
    seq(|items|, i requires 0 <= i < |items| => Entry(Point3(items[i].0.x, items[i].0.y, items[i].1.height), items[i].1.voxel))
  }

  /** Every stored column appears in `to_vec`. */
  lemma ToVecComplete(c: HMap2DCollection, xy: Point2)
    requires Valid(c.field) && xy in c.field.entries
    ensures exists k :: 0 <= k < |ToVec(c)| && Fit(ToVec(c)[k].point) == xy
  {
    var r, items := ToVec(c), Items(c.field);
    var k :| 0 <= k < |c.field.order| && c.field.order[k] == xy;
    assert items[k].0 == xy;
    assert Fit(r[k].point) == items[k].0;
  }

  /** `to_vec` lists every column once. */
  lemma ToVecDistinct(c: HMap2DCollection)
    requires Valid(c.field)
    ensures forall i, j :: 0 <= i < j < |ToVec(c)| ==> Fit(ToVec(c)[i].point) != Fit(ToVec(c)[j].point)
  {
    var r, items := ToVec(c), Items(c.field);
    forall i, j | 0 <= i < j < |r| ensures Fit(r[i].point) != Fit(r[j].point) {
      assert Fit(r[i].point) == items[i].0 == c.field.order[i];
      assert Fit(r[j].point) == items[j].0 == c.field.order[j];
    }
  }

  /** `has` answers true exactly for the points `to_vec` lists, whatever
      their weight. */
  lemma HasIffListed(c: HMap2DCollection, p: Point3)
    requires Valid(c.field)
    ensures Has(c, p) <==> exists k :: 0 <= k < |ToVec(c)| && ToVec(c)[k].point == p
  {
    var r := ToVec(c);
    if Has(c, p) {
      ToVecComplete(c, Fit(p));
      var k :| 0 <= k < |r| && Fit(r[k].point) == Fit(p);
      assert r[k].point == p;
    }
  }
}
