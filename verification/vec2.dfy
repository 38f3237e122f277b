/** `Vec2VoxelCollection` (src/collection.rs:603-812): a dense `x` by `y`
    grid holding one `(height, voxel)` per column. */
module Vec2Collections {
  import opened Wrappers
  import opened Element
  import opened CollectionCore
  import opened Grid

  datatype Vec2Collection = Vec2Collection(
    field: seq<seq<Column>>,
    minXY: Point2,
    maxXY: Point2,
    boundsZ: Option<(int, int)>,
    offset: Point3,
    resolution: real)

  const EmptyColumn := Column(0, EmptyVoxel)

  function SizeX(c: Vec2Collection): int { c.maxXY.x - c.minXY.x + 1 }
  function SizeY(c: Vec2Collection): int { c.maxXY.y - c.minXY.y + 1 }

  ghost predicate WellFormed(c: Vec2Collection, wmax: nat) {
    && Shaped2(c.field, SizeX(c), SizeY(c))
    && forall x, y :: Cell2(c.field, x, y).Some? ==> Cell2(c.field, x, y).value.voxel.weight <= wmax
  }

  /** The column of absolute `(x, y)`, read relative to `bounds_xy.0`. */
  function ColumnAt(c: Vec2Collection, xy: Point2): Option<Column> {
    Cell2(c.field, xy.x - c.minXY.x, xy.y - c.minXY.y)
  }

  predicate InBoxXY(c: Vec2Collection, xy: Point2) {
    Below2(c.minXY, xy) && Below2(xy, c.maxXY)
  }

  /** The last entry whose column is `xy`: the one a sequence of writes leaves. */
  function LastInColumn(es: seq<Entry>, xy: Point2): (r: Option<Entry>)
    ensures r.Some? ==> Fit(r.value.point) == xy
  {
    if es == [] then None
    else
      var init, last := es[..|es| - 1], es[|es| - 1];
      if Fit(last.point) == xy then Some(last) else LastInColumn(init, xy)
  }

  /** `LastInColumn` finds an entry iff one lies in the column, and it is one
      of the entries with no later entry in the same column. */
  lemma {:induction false} LastInColumnIsLast(es: seq<Entry>, xy: Point2)
    ensures LastInColumn(es, xy).None? <==> forall i :: 0 <= i < |es| ==> Fit(es[i].point) != xy
    ensures LastInColumn(es, xy).Some? ==>
      exists i :: 0 <= i < |es| && es[i] == LastInColumn(es, xy).value
               && forall j :: i < j < |es| ==> Fit(es[j].point) != xy
  {
    if es != [] {
      var init, last := es[..|es| - 1], es[|es| - 1];
      LastInColumnIsLast(init, xy);
      assert forall i :: 0 <= i < |init| ==> es[i] == init[i];
      if Fit(last.point) == xy {
        assert es[|es| - 1] == LastInColumn(es, xy).value;
      } else if LastInColumn(init, xy).Some? {
        var i :| 0 <= i < |init| && init[i] == LastInColumn(init, xy).value
                 && forall j :: i < j < |init| ==> Fit(init[j].point) != xy;
        assert es[i] == init[i];
      }
    }
  }

  /** A cell after the writes: the last entry in its column, if the cell
      exists and any entry went to it. */
  function Written(cell: Option<Column>, last: Option<Entry>): Option<Column> {
    if cell.Some? && last.Some? then Some(Column(last.value.point.z, last.value.voxel)) else cell
  }

  function WriteAll(f: seq<seq<Column>>, es: seq<Entry>, min: Point2): (r: seq<seq<Column>>)
    requires forall i :: 0 <= i < |es| ==> Cell2(f, es[i].point.x - min.x, es[i].point.y - min.y).Some?
    ensures forall sx, sy :: Shaped2(f, sx, sy) ==> Shaped2(r, sx, sy)
    ensures forall x, y :: Cell2(r, x, y) == Written(Cell2(f, x, y), LastInColumn(es, Point2(x + min.x, y + min.y)))
  {
    if es == [] then f
    else
      var init, last := es[..|es| - 1], es[|es| - 1];
      var prev := WriteAll(f, init, min);
      var x, y := last.point.x - min.x, last.point.y - min.y;
      assert Cell2(prev, x, y).Some?;
      var r := Set2(prev, x, y, Column(last.point.z, last.voxel));
      forall x', y' ensures Cell2(r, x', y') == Written(Cell2(f, x', y'), LastInColumn(es, Point2(x' + min.x, y' + min.y))) {
        var xy := Point2(x' + min.x, y' + min.y);
        if (x', y') == (x, y) {
          assert xy == Fit(last.point);
        } else {
          assert xy != Fit(last.point);
          assert LastInColumn(es, xy) == LastInColumn(init, xy);
        }
      }
      r
  }

  /** The field `new` builds once every entry's column is inside the box. */
  function Build(voxels: seq<Entry>, b: Bounds, offset: Point3, resolution: real, wmax: nat): (r: Vec2Collection)
    requires WeightsAtMost(voxels, wmax)
    requires b.min.x <= b.max.x + 1 && b.min.y <= b.max.y + 1
    requires forall i :: 0 <= i < |voxels| ==> Below2(Fit(b.min), Fit(voxels[i].point)) && Below2(Fit(voxels[i].point), Fit(b.max))
    ensures WellFormed(r, wmax)
    ensures r.minXY == Fit(b.min) && r.maxXY == Fit(b.max) && r.boundsZ == Some((b.min.z, b.max.z))
    ensures r.offset == offset && r.resolution == resolution
    ensures forall xy :: InBoxXY(r, xy) ==> ColumnAt(r, xy) == Some(
      if LastInColumn(voxels, xy).Some?
      then Column(LastInColumn(voxels, xy).value.point.z, LastInColumn(voxels, xy).value.voxel)
      else EmptyColumn)
  {
    var sx, sy := b.max.x - b.min.x + 1, b.max.y - b.min.y + 1;
    var empty := Filled2(sx, sy, EmptyColumn);
    forall i | 0 <= i < |voxels| ensures Cell2(empty, voxels[i].point.x - b.min.x, voxels[i].point.y - b.min.y).Some? {
      assert Below2(Fit(b.min), Fit(voxels[i].point)) && Below2(Fit(voxels[i].point), Fit(b.max));
    }
    var f := WriteAll(empty, voxels, Fit(b.min));
    var c := Vec2Collection(f, Fit(b.min), Fit(b.max), Some((b.min.z, b.max.z)), offset, resolution);
    forall x, y | Cell2(f, x, y).Some? ensures Cell2(f, x, y).value.voxel.weight <= wmax {
      var xy := Point2(x + b.min.x, y + b.min.y);
      if LastInColumn(voxels, xy).Some? {
        LastInColumnIsLast(voxels, xy);
        var i :| 0 <= i < |voxels| && voxels[i] == LastInColumn(voxels, xy).value;
      }
    }
    forall xy | InBoxXY(c, xy) ensures ColumnAt(c, xy) == Some(
      if LastInColumn(voxels, xy).Some?
      then Column(LastInColumn(voxels, xy).value.point.z, LastInColumn(voxels, xy).value.voxel)
      else EmptyColumn)
    {
      assert Point2(xy.x - b.min.x + b.min.x, xy.y - b.min.y + b.min.y) == xy;
    }
    c
  }

  /** `Vec2VoxelCollection::new`: the grid spans the `x`, `y` extent of the
      given or computed bounds; each entry overwrites its column with its own
      height and voxel, so the last write wins.  The `z` extent is stored but
      never checked.  A negative extent and an entry outside the grid are
      panics in the source. */
  function New(voxels: seq<Entry>, bounds: Option<Bounds>, offset: Point3, resolution: real, wmax: nat)
    : (r: Result<Vec2Collection, CollectionError>)
    requires WeightsAtMost(voxels, wmax)
    ensures var b := if bounds.Some? then bounds.value else CalcBounds(voxels);
      && (r.Err? <==> (b.max.x - b.min.x + 1 < 0 || b.max.y - b.min.y + 1 < 0
            || exists i :: 0 <= i < |voxels| && !(Below2(Fit(b.min), Fit(voxels[i].point)) && Below2(Fit(voxels[i].point), Fit(b.max)))))
      && (r.Err? ==> r.error == (if b.max.x - b.min.x + 1 < 0 || b.max.y - b.min.y + 1 < 0 then NegativeSize else IndexOutOfBounds))
      && (r.Ok? ==> && WellFormed(r.value, wmax)
                    && r.value.minXY == Fit(b.min) && r.value.maxXY == Fit(b.max) && r.value.boundsZ == Some((b.min.z, b.max.z))
                    && r.value.offset == offset && r.value.resolution == resolution
                    && forall xy :: InBoxXY(r.value, xy) ==> ColumnAt(r.value, xy) == Some(
                         if LastInColumn(voxels, xy).Some?
                         then Column(LastInColumn(voxels, xy).value.point.z, LastInColumn(voxels, xy).value.voxel)
                         else EmptyColumn))
  {
    var b := if bounds.Some? then bounds.value else CalcBounds(voxels);
    if b.max.x - b.min.x + 1 < 0 || b.max.y - b.min.y + 1 < 0 then Err(NegativeSize)
    else if exists i :: 0 <= i < |voxels| && !(Below2(Fit(b.min), Fit(voxels[i].point)) && Below2(Fit(voxels[i].point), Fit(b.max)))
    then Err(IndexOutOfBounds)
    else Ok(Build(voxels, b, offset, resolution, wmax))
  }

  /** `insert_one`: inside the grid, a different height replaces the column's
      height and voxel and keeps the cached `z` bounds; the same height
      accumulates and drops them.  Outside the grid only the cached `z`
      bounds are dropped. */
  function InsertOne(c: Vec2Collection, p: Point3, v: Voxel, wmax: nat): (r: Vec2Collection)
    requires WellFormed(c, wmax) && v.weight <= wmax
    ensures WellFormed(r, wmax)
    ensures ColumnAt(c, Fit(p)).None? ==> r == c.(boundsZ := None)
    ensures ColumnAt(c, Fit(p)).Some? && ColumnAt(c, Fit(p)).value.height != p.z ==>
      ColumnAt(r, Fit(p)) == Some(Column(p.z, v)) && r.boundsZ == c.boundsZ
    ensures ColumnAt(c, Fit(p)).Some? && ColumnAt(c, Fit(p)).value.height == p.z ==>
      ColumnAt(r, Fit(p)) == Some(Column(p.z, AddColorWithWeightCheck(ColumnAt(c, Fit(p)).value.voxel, v, wmax))) && r.boundsZ == None
    ensures forall xy :: xy != Fit(p) ==> ColumnAt(r, xy) == ColumnAt(c, xy)
    ensures r.minXY == c.minXY && r.maxXY == c.maxXY && r.offset == c.offset && r.resolution == c.resolution
  {
    var x, y := p.x - c.minXY.x, p.y - c.minXY.y;
    match Cell2(c.field, x, y)
    case None => c.(boundsZ := None)
    case Some(col) =>
      assert forall xy: Point2 :: xy.x - c.minXY.x == x && xy.y - c.minXY.y == y <==> xy == Fit(p);
      if col.height != p.z then
        c.(field := Set2(c.field, x, y, Column(p.z, v)))
      else
        c.(field := Set2(c.field, x, y, Column(p.z, AddColorWithWeightCheck(col.voxel, v, wmax))), boundsZ := None)
  }

  /** `has` as written: it indexes the grid with the raw `x` and `y`, without
      subtracting `bounds_xy.0` as `insert_one` does; on a grid whose minimum
      column is (0, 0) the two indices coincide and it agrees with `Has`. */
  function HasAsWritten(c: Vec2Collection, p: Point3): (r: bool)
    ensures c.minXY == Point2(0, 0) ==> (r <==> Has(c, p))
  {
    assert c.minXY == Point2(0, 0) ==> ColumnAt(c, Fit(p)) == Cell2(c.field, p.x, p.y);
    match Cell2(c.field, p.x, p.y)
    case None => false
    case Some(col) => col.height == p.z && col.voxel.weight != 0
  }

  /** `has` with the index taken relative to `bounds_xy.0`, as `insert_one`
      and `new` place columns. */
  function Has(c: Vec2Collection, p: Point3): bool {
    match ColumnAt(c, Fit(p))
    case None => false
    case Some(col) => col.height == p.z && col.voxel.weight != 0
  }

  /** After a successful `new`, a point is present iff it is the last entry
      written in its column and carries weight. */
  lemma HasAfterNew(voxels: seq<Entry>, bounds: Option<Bounds>, offset: Point3, resolution: real, wmax: nat, p: Point3)
    requires WeightsAtMost(voxels, wmax) && New(voxels, bounds, offset, resolution, wmax).Ok?
    ensures Has(New(voxels, bounds, offset, resolution, wmax).value, p)
        <==> LastInColumn(voxels, Fit(p)).Some? && LastInColumn(voxels, Fit(p)).value.point == p
             && LastInColumn(voxels, Fit(p)).value.voxel.weight != 0
  {
    var c := New(voxels, bounds, offset, resolution, wmax).value;
    if LastInColumn(voxels, Fit(p)).Some? {
      LastInColumnIsLast(voxels, Fit(p));
      var i :| 0 <= i < |voxels| && voxels[i] == LastInColumn(voxels, Fit(p)).value;
      assert InBoxXY(c, Fit(p));
    }
  }

  /** A grid built from the single point (5, 5, 0): the corrected `has` finds
      it, the written one looks at cell (5, 5) of a 1 by 1 grid and does not. */
  lemma HasAsWrittenMissesOffsetGrid()
    ensures var c := New([Entry(Point3(5, 5, 0), NewVoxel(Black))], None, Origin, 1.0, 1);
      c.Ok? && Has(c.value, Point3(5, 5, 0)) && !HasAsWritten(c.value, Point3(5, 5, 0))
  {
    var es := [Entry(Point3(5, 5, 0), NewVoxel(Black))];
    NewVoxelWeight(Black);
    var b := CalcBounds(es);
    assert Points(es) == [Point3(5, 5, 0)];
    TightBounds3Unique(Points(es), b.min, b.max, Point3(5, 5, 0), Point3(5, 5, 0));
    HasAfterNew(es, None, Origin, 1.0, 1, Point3(5, 5, 0));
  }

  lemma NewVoxelWeight(c: Color)
    ensures NewVoxel(c).weight == 1
  {
  }

  /** `to_vec`: every column of the grid, empty ones included, as the point
      `(x, y, height)` with its voxel, in x-major order. */
  function ToVec(c: Vec2Collection): (r: seq<Entry>)
    requires Shaped2(c.field, SizeX(c), SizeY(c))
    ensures |r| == SizeX(c) * SizeY(c)
    ensures forall k :: 0 <= k < |r| ==>
      InBoxXY(c, Fit(r[k].point)) && ColumnAt(c, Fit(r[k].point)) == Some(Column(r[k].point.z, r[k].voxel))
    ensures forall xy :: InBoxXY(c, xy) ==> exists k :: 0 <= k < |r| && Fit(r[k].point) == xy
  {
    var sx, sy, min := SizeX(c), SizeY(c), c.minXY;
    var r := seq(sx * sy, k requires 0 <= k < sx * sy =>
      UnflatInRange2(k, sx, sy);
      var col := c.field[k / sy][k % sy];
      Entry(Point3(k / sy + min.x, k % sy + min.y, col.height), col.voxel));
    forall k | 0 <= k < |r|
      ensures InBoxXY(c, Fit(r[k].point)) && ColumnAt(c, Fit(r[k].point)) == Some(Column(r[k].point.z, r[k].voxel))
    {
      UnflatInRange2(k, sx, sy);
    }
    forall xy | InBoxXY(c, xy) ensures exists k :: 0 <= k < |r| && Fit(r[k].point) == xy {
      var x, y := xy.x - min.x, xy.y - min.y;
      FlatRoundTrip2(x, y, sx, sy);
      assert Fit(r[x * sy + y].point) == xy;
    }
    r
  }

  /** The entries that carry weight, in order. */
  function Weighted(es: seq<Entry>): (r: seq<Entry>)
    ensures forall i :: 0 <= i < |r| ==> r[i] in es && r[i].voxel.weight != 0
    ensures forall i :: 0 <= i < |es| && es[i].voxel.weight != 0 ==> es[i] in r
  {
    if es == [] then []
    else
      var init, last := es[..|es| - 1], es[|es| - 1];
      assert forall i :: 0 <= i < |init| ==> init[i] == es[i];
      Weighted(init) + (if last.voxel.weight != 0 then [last] else [])
  }

  /** A column of the grid that holds a voxel with weight. */
  ghost predicate WeightedColumn(c: Vec2Collection, xy: Point2) {
    InBoxXY(c, xy) && ColumnAt(c, xy).Some? && ColumnAt(c, xy).value.voxel.weight != 0
  }

  /** `get_bounds` (the override): the `x`, `y` extent of the grid with the
      cached `z` extent, or, when that was dropped, the least and greatest
      height among the columns with weight; with no such column the source
      unwraps an empty minimum and panics.  The result is not cached. */
  function GetBounds(c: Vec2Collection): (r: Result<Bounds, CollectionError>)
    requires Shaped2(c.field, SizeX(c), SizeY(c))
    ensures c.boundsZ.Some? ==> r == Ok(Bounds(Point3(c.minXY.x, c.minXY.y, c.boundsZ.value.0),
                                                Point3(c.maxXY.x, c.maxXY.y, c.boundsZ.value.1)))
    ensures c.boundsZ.None? ==> (r.Err? <==> forall xy :: !WeightedColumn(c, xy))
    ensures r.Err? ==> r.error == EmptyUnwrap
    ensures c.boundsZ.None? && r.Ok? ==>
      && Fit(r.value.min) == c.minXY && Fit(r.value.max) == c.maxXY
      && (forall xy :: WeightedColumn(c, xy) ==> r.value.min.z <= ColumnAt(c, xy).value.height <= r.value.max.z)
      && (exists xy :: WeightedColumn(c, xy) && ColumnAt(c, xy).value.height == r.value.min.z)
      && (exists xy :: WeightedColumn(c, xy) && ColumnAt(c, xy).value.height == r.value.max.z)
  {
    match c.boundsZ
    case Some((lo, hi)) => Ok(Bounds(Point3(c.minXY.x, c.minXY.y, lo), Point3(c.maxXY.x, c.maxXY.y, hi)))
    case None =>
      var all := ToVec(c);
      var ws := Weighted(all);
      WeightedEntriesAreWeightedColumns(c, all, ws);
      if ws == [] then Err(EmptyUnwrap)
      else
        var b := CalcBounds(ws);
        ZRangeOfWeighted(c, ws, b);
        Ok(Bounds(Point3(c.minXY.x, c.minXY.y, b.min.z), Point3(c.maxXY.x, c.maxXY.y, b.max.z)))
  }

  /** The `z` extent of the weighted entries is that of the weighted columns. */
  lemma ZRangeOfWeighted(c: Vec2Collection, ws: seq<Entry>, b: Bounds)
    requires forall i :: 0 <= i < |ws| ==>
      WeightedColumn(c, Fit(ws[i].point)) && ColumnAt(c, Fit(ws[i].point)).value.height == ws[i].point.z
    requires forall xy :: WeightedColumn(c, xy) ==> exists i :: 0 <= i < |ws| && Fit(ws[i].point) == xy
    requires ws != [] && TightBounds3(Points(ws), b.min, b.max)
    ensures forall xy :: WeightedColumn(c, xy) ==> b.min.z <= ColumnAt(c, xy).value.height <= b.max.z
    ensures exists xy :: WeightedColumn(c, xy) && ColumnAt(c, xy).value.height == b.min.z
    ensures exists xy :: WeightedColumn(c, xy) && ColumnAt(c, xy).value.height == b.max.z
  {
    forall xy | WeightedColumn(c, xy) ensures b.min.z <= ColumnAt(c, xy).value.height <= b.max.z {
      var i :| 0 <= i < |ws| && Fit(ws[i].point) == xy;
      assert Points(ws)[i] == ws[i].point;
    }
    var i :| 0 <= i < |Points(ws)| && Points(ws)[i].z == b.min.z;
    assert WeightedColumn(c, Fit(ws[i].point));
    var j :| 0 <= j < |Points(ws)| && Points(ws)[j].z == b.max.z;
    assert WeightedColumn(c, Fit(ws[j].point));
  }

  /** The weighted entries of `to_vec` are exactly the weighted columns. */
  lemma WeightedEntriesAreWeightedColumns(c: Vec2Collection, all: seq<Entry>, ws: seq<Entry>)
    requires Shaped2(c.field, SizeX(c), SizeY(c)) && all == ToVec(c) && ws == Weighted(all)
    ensures forall i :: 0 <= i < |ws| ==>
      WeightedColumn(c, Fit(ws[i].point)) && ColumnAt(c, Fit(ws[i].point)).value.height == ws[i].point.z
    ensures forall xy :: WeightedColumn(c, xy) ==>
      exists i :: 0 <= i < |ws| && Fit(ws[i].point) == xy
  {
    forall i | 0 <= i < |ws| ensures WeightedColumn(c, Fit(ws[i].point)) && ColumnAt(c, Fit(ws[i].point)).value.height == ws[i].point.z {
      WeightedEntryIsColumn(c, all, ws, i);
    }
    forall xy | WeightedColumn(c, xy) ensures exists i :: 0 <= i < |ws| && Fit(ws[i].point) == xy {
      WeightedColumnIsListed(c, all, ws, xy);
    }
  }

  lemma WeightedEntryIsColumn(c: Vec2Collection, all: seq<Entry>, ws: seq<Entry>, i: nat)
    requires Shaped2(c.field, SizeX(c), SizeY(c)) && all == ToVec(c) && ws == Weighted(all)
    requires i < |ws|
    ensures WeightedColumn(c, Fit(ws[i].point)) && ColumnAt(c, Fit(ws[i].point)).value.height == ws[i].point.z
  {
    var k :| 0 <= k < |all| && all[k] == ws[i];
  }

  lemma WeightedColumnIsListed(c: Vec2Collection, all: seq<Entry>, ws: seq<Entry>, xy: Point2)
    requires Shaped2(c.field, SizeX(c), SizeY(c)) && all == ToVec(c) && ws == Weighted(all)
    requires WeightedColumn(c, xy)
    ensures exists i :: 0 <= i < |ws| && Fit(ws[i].point) == xy
  {
    var k :| 0 <= k < |all| && Fit(all[k].point) == xy;
    assert all[k] in ws;
    var i :| 0 <= i < |ws| && ws[i] == all[k];
  }

  /** The corrected `has` answers true exactly for the points `to_vec` lists
      with a voxel of non-zero weight. */
  lemma HasIffListed(c: Vec2Collection, p: Point3)
    requires Shaped2(c.field, SizeX(c), SizeY(c))
    ensures Has(c, p) <==> exists k :: 0 <= k < |ToVec(c)| && ToVec(c)[k].point == p && ToVec(c)[k].voxel.weight != 0
  {
    var r := ToVec(c);
    if Has(c, p) {
      assert InBoxXY(c, Fit(p));
      var k :| 0 <= k < |r| && Fit(r[k].point) == Fit(p);
      assert ColumnAt(c, Fit(r[k].point)) == Some(Column(r[k].point.z, r[k].voxel));
      assert r[k].point == p;
    }
  }
}
