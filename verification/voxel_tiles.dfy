/** `src/voxel.rs`: a point cloud in web-map pixel coordinates, its split
    into 256-pixel tiles, and the counting aggregation that turns it into one
    colour per occupied pixel. */
module VoxelTiles {
  import opened Wrappers
  import opened Element
  import opened CollectionCore
  import opened OrderedMaps

  /** `Coord<u32>`: pixel coordinates, never negative. */
  datatype Coord = Coord(x: nat, y: nat, z: nat)

  /** `TileIdx`: the tile column and row. */
  datatype TileIdx = TileIdx(x: nat, y: nat)

  /** `Point<u32>`: a pixel coordinate and its colour. */
  datatype PixelPoint = PixelPoint(coord: Coord, rgb: Color)

  /** `VoxelPointCloud`: points and the zoom level of their pixel coordinates. */
  datatype VoxelPointCloud = VoxelPointCloud(points: seq<PixelPoint>, zoom: nat)

  /** `voxel::VoxelCollection`: one colour per pixel coordinate. */
  datatype VoxelCollection = VoxelCollection(voxels: seq<(Coord, Color)>, zoom: nat)

  /** The tile a pixel lies in: 256 pixels a side. */
  function TileOfCoord(c: Coord): (r: TileIdx)
    ensures 256 * r.x <= c.x < 256 * r.x + 256 && 256 * r.y <= c.y < 256 * r.y + 256
  {
    TileIdx(c.x / 256, c.y / 256)
  }

  // ---------------------------------------------------------------------------
  // split_by_tile
  // ---------------------------------------------------------------------------

  /** The points of `ps` that lie in tile `t`, in their original order. */
  function InTile(ps: seq<PixelPoint>, t: TileIdx): (r: seq<PixelPoint>)
    ensures |r| <= |ps|
    ensures forall q :: q in r ==> q in ps && TileOfCoord(q.coord) == t
    ensures forall k :: 0 <= k < |ps| && TileOfCoord(ps[k].coord) == t ==> ps[k] in r
  {
    if ps == [] then []
    else
      var init, p := ps[..|ps| - 1], ps[|ps| - 1];
      assert forall k :: 0 <= k < |init| ==> init[k] == ps[k];
      InTile(init, t) + (if TileOfCoord(p.coord) == t then [p] else [])
  }

  /** The tile map built point by point: a point's tile gets the point
      appended, and a tile seen for the first time starts with just it. */
  function SplitMap(ps: seq<PixelPoint>, zoom: nat): (r: OrderedMap<TileIdx, VoxelPointCloud>)
    ensures Valid(r)
  {
    if ps == [] then Empty()
    else
      var p := ps[|ps| - 1];
      Upsert(SplitMap(ps[..|ps| - 1], zoom), TileOfCoord(p.coord), VoxelPointCloud([p], zoom),
        (pc: VoxelPointCloud) => pc.(points := pc.points + [p]))
  }

  /** The tiles of the map are exactly the tiles some point lies in, and
      each holds exactly the points of its tile, in order, at the cloud's
      zoom level. */
  lemma {:induction false} SplitMapContents(ps: seq<PixelPoint>, zoom: nat)
    ensures forall t :: t in SplitMap(ps, zoom).entries <==> InTile(ps, t) != []
    ensures forall t :: t in SplitMap(ps, zoom).entries ==>
      SplitMap(ps, zoom).entries[t] == VoxelPointCloud(InTile(ps, t), zoom)
  {
    if ps != [] {
      var init, p := ps[..|ps| - 1], ps[|ps| - 1];
      SplitMapContents(init, zoom);
      forall t ensures t in SplitMap(ps, zoom).entries <==> InTile(ps, t) != []
        ensures t in SplitMap(ps, zoom).entries ==> SplitMap(ps, zoom).entries[t] == VoxelPointCloud(InTile(ps, t), zoom)
      {
        SplitStep(ps, init, p, zoom, t);
      }
    }
  }

  lemma SplitStep(ps: seq<PixelPoint>, init: seq<PixelPoint>, p: PixelPoint, zoom: nat, t: TileIdx)
    requires ps != [] && init == ps[..|ps| - 1] && p == ps[|ps| - 1]
    requires t in SplitMap(init, zoom).entries <==> InTile(init, t) != []
    requires t in SplitMap(init, zoom).entries ==> SplitMap(init, zoom).entries[t] == VoxelPointCloud(InTile(init, t), zoom)
    ensures t in SplitMap(ps, zoom).entries <==> InTile(ps, t) != []
    ensures t in SplitMap(ps, zoom).entries ==> SplitMap(ps, zoom).entries[t] == VoxelPointCloud(InTile(ps, t), zoom)
  {
    var prev := SplitMap(init, zoom);
    var r := SplitMap(ps, zoom);
    var tp := TileOfCoord(p.coord);
    assert r == Upsert(prev, tp, VoxelPointCloud([p], zoom), (pc: VoxelPointCloud) => pc.(points := pc.points + [p]));
    InTileSnoc(ps, init, p, t);
    if t != tp {
      assert t in r.entries <==> t in prev.entries;
    } else if t in prev.entries {
      assert r.entries[t] == prev.entries[t].(points := prev.entries[t].points + [p]);
    } else {
      assert r.entries[t] == VoxelPointCloud([p], zoom);
    }
  }

  /** The points of tile `t` after one more point. */
  lemma InTileSnoc(ps: seq<PixelPoint>, init: seq<PixelPoint>, p: PixelPoint, t: TileIdx)
    requires ps != [] && init == ps[..|ps| - 1] && p == ps[|ps| - 1]
    ensures InTile(ps, t) == InTile(init, t) + (if TileOfCoord(p.coord) == t then [p] else [])
  {
  }

  /** The number of points over all tiles. */
  function TotalPoints(tiles: seq<(TileIdx, VoxelPointCloud)>): nat {
    if tiles == [] then 0 else TotalPoints(tiles[..|tiles| - 1]) + |tiles[|tiles| - 1].1.points|
  }

  /** The number of points over the tiles `order` of `m`. */
  function CountIn(order: seq<TileIdx>, m: map<TileIdx, VoxelPointCloud>): nat
    requires forall t :: t in order ==> t in m
  {
    if order == [] then 0 else CountIn(order[..|order| - 1], m) + |m[order[|order| - 1]].points|
  }

  /** Counting over tiles whose point counts agree gives the same total. */
  lemma {:induction false} CountInSame(order: seq<TileIdx>, m1: map<TileIdx, VoxelPointCloud>, m2: map<TileIdx, VoxelPointCloud>)
    requires forall t :: t in order ==> t in m1 && t in m2 && |m1[t].points| == |m2[t].points|
    ensures CountIn(order, m1) == CountIn(order, m2)
  {
    if order != [] {
      var init := order[..|order| - 1];
      assert forall t :: t in init ==> t in order;
      CountInSame(init, m1, m2);
    }
  }

  /** One more point in a tile listed once adds one to the total. */
  lemma {:induction false} CountInBump(order: seq<TileIdx>, m1: map<TileIdx, VoxelPointCloud>, m2: map<TileIdx, VoxelPointCloud>, k: TileIdx)
    requires forall i, j :: 0 <= i < j < |order| ==> order[i] != order[j]
    requires k in order
    requires forall t :: t in order ==> t in m1 && t in m2
    requires |m2[k].points| == |m1[k].points| + 1
    requires forall t :: t in order && t != k ==> |m1[t].points| == |m2[t].points|
    ensures CountIn(order, m2) == CountIn(order, m1) + 1
  {
    var init, last := order[..|order| - 1], order[|order| - 1];
    assert forall t :: t in init ==> t in order;
    if last == k {
      CountInSame(init, m1, m2);
    } else {
      assert k in init by {
        var i :| 0 <= i < |order| && order[i] == k;
        assert i < |order| - 1;
        assert init[i] == k;
      }
      CountInBump(init, m1, m2, k);
    }
  }

  /** Every point is counted in exactly one tile of the map. */
  lemma {:induction false} SplitMapCount(ps: seq<PixelPoint>, zoom: nat)
    ensures forall t :: t in SplitMap(ps, zoom).order ==> t in SplitMap(ps, zoom).entries
    ensures CountIn(SplitMap(ps, zoom).order, SplitMap(ps, zoom).entries) == |ps|
  {
    if ps != [] {
      var init, p := ps[..|ps| - 1], ps[|ps| - 1];
      SplitMapCount(init, zoom);
      var prev := SplitMap(init, zoom);
      var r := SplitMap(ps, zoom);
      var k := TileOfCoord(p.coord);
      if k in prev.entries {
        CountInBump(prev.order, prev.entries, r.entries, k);
      } else {
        assert r.order[..|r.order| - 1] == prev.order;
        assert k !in prev.order;
        CountInSame(prev.order, prev.entries, r.entries);
      }
    }
  }

  /** A listing of `m` in `order` counts the same points as `m` does. */
  lemma {:induction false} TotalOfListing(tiles: seq<(TileIdx, VoxelPointCloud)>, order: seq<TileIdx>, m: map<TileIdx, VoxelPointCloud>)
    requires |tiles| == |order|
    requires forall i :: 0 <= i < |tiles| ==> tiles[i].0 == order[i] && order[i] in m && tiles[i].1 == m[order[i]]
    ensures forall t :: t in order ==> t in m
    ensures TotalPoints(tiles) == CountIn(order, m)
  {
    if tiles != [] {
      TotalOfListing(tiles[..|tiles| - 1], order[..|order| - 1], m);
    }
  }

  /** `split_by_tile`: one entry per tile some point lies in, each holding
      exactly the points of that tile in their original order (so none is
      empty) at the cloud's zoom level; together they hold every point once. */
  function SplitByTile(pc: VoxelPointCloud): (r: seq<(TileIdx, VoxelPointCloud)>)
    ensures forall i, j :: 0 <= i < j < |r| ==> r[i].0 != r[j].0
    ensures forall k :: 0 <= k < |pc.points| ==>
      exists i :: 0 <= i < |r| && r[i].0 == TileOfCoord(pc.points[k].coord)
    ensures forall i :: 0 <= i < |r| ==>
      r[i].1 == VoxelPointCloud(InTile(pc.points, r[i].0), pc.zoom) && r[i].1.points != []
    ensures TotalPoints(r) == |pc.points|
  {
    var m := SplitMap(pc.points, pc.zoom);
    var r := Items(m);
    SplitListing(pc.points, pc.zoom, m, r);
    SplitCovers(pc.points, pc.zoom, m, r);
    r
  }

  /** The listing of the tile map names each tile once, holds exactly each
      tile's points, and counts every point. */
  lemma SplitListing(ps: seq<PixelPoint>, zoom: nat, m: OrderedMap<TileIdx, VoxelPointCloud>, r: seq<(TileIdx, VoxelPointCloud)>)
    requires m == SplitMap(ps, zoom) && r == Items(m)
    ensures forall i, j :: 0 <= i < j < |r| ==> r[i].0 != r[j].0
    ensures forall i :: 0 <= i < |r| ==> r[i].1 == VoxelPointCloud(InTile(ps, r[i].0), zoom) && r[i].1.points != []
    ensures TotalPoints(r) == |ps|
  {
    SplitMapContents(ps, zoom);
    SplitMapCount(ps, zoom);
    TotalOfListing(r, m.order, m.entries);
  }

  /** Every point's tile is listed. */
  lemma SplitCovers(ps: seq<PixelPoint>, zoom: nat, m: OrderedMap<TileIdx, VoxelPointCloud>, r: seq<(TileIdx, VoxelPointCloud)>)
    requires m == SplitMap(ps, zoom) && r == Items(m)
    ensures forall k :: 0 <= k < |ps| ==> exists i :: 0 <= i < |r| && r[i].0 == TileOfCoord(ps[k].coord)
  {
    SplitMapContents(ps, zoom);
    forall k | 0 <= k < |ps| ensures exists i :: 0 <= i < |r| && r[i].0 == TileOfCoord(ps[k].coord) {
      var t := TileOfCoord(ps[k].coord);
      assert ps[k] in InTile(ps, t);
      assert t in m.entries;
      var i :| 0 <= i < |m.order| && m.order[i] == t;
      assert r[i].0 == t;
    }
  }

  // ---------------------------------------------------------------------------
  // from_voxel_point_cloud
  // ---------------------------------------------------------------------------

  /** The running `(count, sum_rgb)` of one pixel coordinate. */
  datatype Tally = Tally(count: nat, sum: Color)

  /** The colours given for coordinate `c`, in order. */
  function ColorsOf(ps: seq<PixelPoint>, c: Coord): (r: seq<Color>)
    ensures |r| <= |ps|
  {
    if ps == [] then []
    else
      var p := ps[|ps| - 1];
      ColorsOf(ps[..|ps| - 1], c) + (if p.coord == c then [p.rgb] else [])
  }

  /** The tally map built point by point: the first point of a coordinate
      seeds `(0, 0)` without its colour; each later one adds its colour and
      counts one. */
  function TallyMap(ps: seq<PixelPoint>): (r: OrderedMap<Coord, Tally>)
    ensures Valid(r)
  {
    if ps == [] then Empty()
    else
      var p := ps[|ps| - 1];
      Upsert(TallyMap(ps[..|ps| - 1]), p.coord, Tally(0, Black),
        (t: Tally) => Tally(t.count + 1, AddColor(t.sum, p.rgb)))
  }

  /** What the tally of a coordinate given the colours `cs` is: every
      occurrence but the first, counted and summed. */
  predicate TallyOf(cs: seq<Color>, t: Tally) {
    cs != [] && t == Tally(|cs| - 1, SumColors(cs[1..]))
  }

  /** Summing one more colour onto a sum of several. */
  lemma SumColorsSnoc(cs: seq<Color>, c: Color)
    ensures SumColors(cs + [c]) == AddColor(SumColors(cs), c)
  {
    assert (cs + [c])[..|cs|] == cs;
  }

  /** The tally map holds exactly the given coordinates, each with the
      tally of its colours. */
  lemma {:induction false} TallyMapContents(ps: seq<PixelPoint>)
    ensures forall c :: c in TallyMap(ps).entries <==> ColorsOf(ps, c) != []
    ensures forall c :: c in TallyMap(ps).entries ==> TallyOf(ColorsOf(ps, c), TallyMap(ps).entries[c])
  {
    if ps != [] {
      var init, p := ps[..|ps| - 1], ps[|ps| - 1];
      TallyMapContents(init);
      forall c ensures c in TallyMap(ps).entries <==> ColorsOf(ps, c) != []
        ensures c in TallyMap(ps).entries ==> TallyOf(ColorsOf(ps, c), TallyMap(ps).entries[c])
      {
        TallyStep(ps, init, p, c);
      }
    }
  }

  lemma TallyStep(ps: seq<PixelPoint>, init: seq<PixelPoint>, p: PixelPoint, c: Coord)
    requires ps != [] && init == ps[..|ps| - 1] && p == ps[|ps| - 1]
    requires c in TallyMap(init).entries <==> ColorsOf(init, c) != []
    requires c in TallyMap(init).entries ==> TallyOf(ColorsOf(init, c), TallyMap(init).entries[c])
    ensures c in TallyMap(ps).entries <==> ColorsOf(ps, c) != []
    ensures c in TallyMap(ps).entries ==> TallyOf(ColorsOf(ps, c), TallyMap(ps).entries[c])
  {
    var prev := TallyMap(init);
    var r := TallyMap(ps);
    assert r == Upsert(prev, p.coord, Tally(0, Black), (t: Tally) => Tally(t.count + 1, AddColor(t.sum, p.rgb)));
    var cs := ColorsOf(init, c);
    assert ColorsOf(ps, c) == cs + (if p.coord == c then [p.rgb] else []);
    if c != p.coord {
      assert ColorsOf(ps, c) == cs;
    } else if cs != [] {
      TallyAgain(cs, p.rgb, prev.entries[c]);
    } else {
      assert [p.rgb][1..] == [];
    }
  }

  /** A later occurrence adds its colour and counts one. */
  lemma TallyAgain(cs: seq<Color>, c: Color, t: Tally)
    requires TallyOf(cs, t)
    ensures TallyOf(cs + [c], Tally(t.count + 1, AddColor(t.sum, c)))
  {
    assert (cs + [c])[1..] == cs[1..] + [c];
    SumColorsSnoc(cs[1..], c);
  }

  /** `as u8`: keeps the low eight bits of each channel. */
  function ColorToU8(c: Color): (r: Color)
    ensures ColorAtMost(r, 255)
    ensures ColorAtMost(c, 255) ==> r == c
  {
    Color(c.r % 256, c.g % 256, c.b % 256)
  }

  /** The closure of the `filter_map`: a coordinate with count 0 or a count
      below the threshold gives nothing, otherwise its integer mean colour. */
  function Emit(c: Coord, t: Tally, threshold: nat): (r: Option<(Coord, Color)>)
    ensures r.Some? <==> t.count != 0 && t.count >= threshold
    ensures r.Some? ==> r.value.0 == c && r.value.1 == ColorToU8(DivColor(t.sum, t.count))
  {
    if t.count == 0 then None
    else if t.count < threshold then None
    else Some((c, ColorToU8(DivColor(t.sum, t.count))))
  }

  /** `filter_map(f)` over the tallies in iteration order. */
  function FilterMapTallies(items: seq<(Coord, Tally)>, threshold: nat): (r: seq<(Coord, Color)>)
    ensures forall x :: x in r <==> exists i :: 0 <= i < |items| && Emit(items[i].0, items[i].1, threshold) == Some(x)
    ensures (forall i, j :: 0 <= i < j < |items| ==> items[i].0 != items[j].0) ==>
      forall i, j :: 0 <= i < j < |r| ==> r[i].0 != r[j].0
  {
    if items == [] then []
    else
      var init, last := items[..|items| - 1], items[|items| - 1];
      var prev := FilterMapTallies(init, threshold);
      var e := Emit(last.0, last.1, threshold);
      var r := prev + (if e.Some? then [e.value] else []);
      FilterStepMembers(items, threshold, prev, r);
      FilterStepDistinct(items, threshold, prev, r);
      r
  }

  /** One more tally keeps the filtered list's members those of the tallies
      seen so far. */
  lemma FilterStepMembers(items: seq<(Coord, Tally)>, threshold: nat, prev: seq<(Coord, Color)>, r: seq<(Coord, Color)>)
    requires items != []
    requires forall x :: x in prev <==> exists i :: 0 <= i < |items| - 1 && Emit(items[i].0, items[i].1, threshold) == Some(x)
    requires var e := Emit(items[|items| - 1].0, items[|items| - 1].1, threshold);
      r == prev + (if e.Some? then [e.value] else [])
    ensures forall x :: x in r <==> exists i :: 0 <= i < |items| && Emit(items[i].0, items[i].1, threshold) == Some(x)
  {
    var n := |items| - 1;
    forall x ensures x in r <==> exists i :: 0 <= i < |items| && Emit(items[i].0, items[i].1, threshold) == Some(x) {
      if exists i :: 0 <= i < |items| && Emit(items[i].0, items[i].1, threshold) == Some(x) {
        var i :| 0 <= i < |items| && Emit(items[i].0, items[i].1, threshold) == Some(x);
        if i < n {
          assert x in prev;
        }
      }
      if x in prev {
        var i :| 0 <= i < n && Emit(items[i].0, items[i].1, threshold) == Some(x);
      }
    }
  }

  /** One more tally of a new coordinate keeps the filtered coordinates
      distinct. */
  lemma FilterStepDistinct(items: seq<(Coord, Tally)>, threshold: nat, prev: seq<(Coord, Color)>, r: seq<(Coord, Color)>)
    requires items != []
    requires forall x :: x in prev ==> exists i :: 0 <= i < |items| - 1 && Emit(items[i].0, items[i].1, threshold) == Some(x)
    requires (forall i, j :: 0 <= i < j < |items| - 1 ==> items[i].0 != items[j].0) ==>
      forall i, j :: 0 <= i < j < |prev| ==> prev[i].0 != prev[j].0
    requires var e := Emit(items[|items| - 1].0, items[|items| - 1].1, threshold);
      r == prev + (if e.Some? then [e.value] else [])
    ensures (forall i, j :: 0 <= i < j < |items| ==> items[i].0 != items[j].0) ==>
      forall i, j :: 0 <= i < j < |r| ==> r[i].0 != r[j].0
  {
    var n := |items| - 1;
    var e := Emit(items[n].0, items[n].1, threshold);
    if (forall i, j :: 0 <= i < j < |items| ==> items[i].0 != items[j].0) && e.Some? {
      forall j | 0 <= j < |prev| ensures prev[j].0 != items[n].0 {
        var i :| 0 <= i < n && Emit(items[i].0, items[i].1, threshold) == Some(prev[j]);
      }
      assert r[|r| - 1] == e.value;
    }
  }

  /** A coordinate yields a voxel: it occurs at least twice, and once more
      than `threshold` times at least. */
  predicate Kept(cs: seq<Color>, threshold: nat) {
    |cs| >= 2 && |cs| - 1 >= threshold
  }

  /** The colour a kept coordinate gets: the integer mean of every occurrence
      but the first. */
  function MeanAfterFirst(cs: seq<Color>): Color
    requires |cs| >= 2
  {
    ColorToU8(DivColor(SumColors(cs[1..]), |cs| - 1))
  }

  /** `VoxelCollection::from_voxel_point_cloud`: a voxel exactly for every
      coordinate given often enough, with the mean colour of its occurrences
      after the first; no coordinate twice; the zoom level kept. */
  function FromVoxelPointCloud(pc: VoxelPointCloud, threshold: nat): (r: VoxelCollection)
    ensures r.zoom == pc.zoom
    ensures forall i, j :: 0 <= i < j < |r.voxels| ==> r.voxels[i].0 != r.voxels[j].0
    ensures forall x :: x in r.voxels <==>
      Kept(ColorsOf(pc.points, x.0), threshold) && x.1 == MeanAfterFirst(ColorsOf(pc.points, x.0))
  {
    var m := TallyMap(pc.points);
    var vs := FilterMapTallies(Items(m), threshold);
    forall x ensures x in vs <==>
      Kept(ColorsOf(pc.points, x.0), threshold) && x.1 == MeanAfterFirst(ColorsOf(pc.points, x.0))
    {
      EmittedIff(pc.points, threshold, x);
    }
    VoxelCollection(vs, pc.zoom)
  }

  /** The filtered tallies hold a pair iff its coordinate is kept and the
      colour is that coordinate's mean. */
  lemma EmittedIff(ps: seq<PixelPoint>, threshold: nat, x: (Coord, Color))
    ensures x in FilterMapTallies(Items(TallyMap(ps)), threshold) <==>
      Kept(ColorsOf(ps, x.0), threshold) && x.1 == MeanAfterFirst(ColorsOf(ps, x.0))
  {
    var m := TallyMap(ps);
    var items := Items(m);
    if x in FilterMapTallies(items, threshold) {
      EmittedOnlyKept(ps, threshold, x, m, items);
    }
    if Kept(ColorsOf(ps, x.0), threshold) && x.1 == MeanAfterFirst(ColorsOf(ps, x.0)) {
      KeptEmitted(ps, threshold, x, m, items);
    }
  }

  /** A pair the filtered tallies hold has a kept coordinate and its mean. */
  lemma EmittedOnlyKept(ps: seq<PixelPoint>, threshold: nat, x: (Coord, Color), m: OrderedMap<Coord, Tally>,
                        items: seq<(Coord, Tally)>)
    requires m == TallyMap(ps) && items == Items(m)
    requires x in FilterMapTallies(items, threshold)
    ensures Kept(ColorsOf(ps, x.0), threshold) && x.1 == MeanAfterFirst(ColorsOf(ps, x.0))
  {
    var i :| 0 <= i < |items| && Emit(items[i].0, items[i].1, threshold) == Some(x);
    EmittedEntry(ps, threshold, x, m, items, i);
  }

  /** What the `i`-th tally emits is a kept coordinate and its mean. */
  lemma EmittedEntry(ps: seq<PixelPoint>, threshold: nat, x: (Coord, Color), m: OrderedMap<Coord, Tally>,
                     items: seq<(Coord, Tally)>, i: nat)
    requires m == TallyMap(ps) && items == Items(m) && i < |items|
    requires Emit(items[i].0, items[i].1, threshold) == Some(x)
    ensures Kept(ColorsOf(ps, x.0), threshold) && x.1 == MeanAfterFirst(ColorsOf(ps, x.0))
  {
    var c, t := items[i].0, items[i].1;
    TallyMapContents(ps);
    EmitOfTally(ColorsOf(ps, c), c, t, threshold);
  }

  /** A kept coordinate's mean is among the filtered tallies. */
  lemma KeptEmitted(ps: seq<PixelPoint>, threshold: nat, x: (Coord, Color), m: OrderedMap<Coord, Tally>,
                    items: seq<(Coord, Tally)>)
    requires m == TallyMap(ps) && items == Items(m)
    requires Kept(ColorsOf(ps, x.0), threshold) && x.1 == MeanAfterFirst(ColorsOf(ps, x.0))
    ensures x in FilterMapTallies(items, threshold)
  {
    TallyMapContents(ps);
    var i :| 0 <= i < |m.order| && m.order[i] == x.0;
    EmitOfTally(ColorsOf(ps, items[i].0), items[i].0, items[i].1, threshold);
  }

  /** What the closure makes of the tally of colours `cs`. */
  lemma EmitOfTally(cs: seq<Color>, c: Coord, t: Tally, threshold: nat)
    requires TallyOf(cs, t)
    ensures Emit(c, t, threshold).Some? <==> Kept(cs, threshold)
    ensures Kept(cs, threshold) ==> Emit(c, t, threshold) == Some((c, MeanAfterFirst(cs)))
  {
  }

  /** A coordinate given only once never yields a voxel. */
  lemma SingleOccurrenceDropped(pc: VoxelPointCloud, threshold: nat, c: Coord, rgb: Color)
    requires |ColorsOf(pc.points, c)| == 1
    ensures (c, rgb) !in FromVoxelPointCloud(pc, threshold).voxels
  {
  }

  /** The colours of a coordinate are among the colours of the points. */
  lemma {:induction false} ColorsOfBounded(ps: seq<PixelPoint>, c: Coord, cmax: nat)
    requires forall k :: 0 <= k < |ps| ==> ColorAtMost(ps[k].rgb, cmax)
    ensures forall i :: 0 <= i < |ColorsOf(ps, c)| ==> ColorAtMost(ColorsOf(ps, c)[i], cmax)
  {
    if ps != [] {
      ColorsOfBounded(ps[..|ps| - 1], c, cmax);
    }
  }

  /** A sum of `n` colours of channel at most `cmax` is at most `n * cmax`. */
  lemma {:induction false} SumColorsBounded(cs: seq<Color>, cmax: nat)
    requires forall i :: 0 <= i < |cs| ==> ColorAtMost(cs[i], cmax)
    ensures ColorAtMost(SumColors(cs), |cs| * cmax)
  {
    if cs != [] {
      SumColorsBounded(cs[..|cs| - 1], cmax);
      assert |cs| * cmax == (|cs| - 1) * cmax + cmax;
    }
  }

  /** For byte colours the mean never exceeds 255, so the `as u8` cast of
      the emitted colour never truncates. */
  lemma MeanOfBytesFitsU8(ps: seq<PixelPoint>, c: Coord)
    requires forall k :: 0 <= k < |ps| ==> ColorAtMost(ps[k].rgb, 255)
    requires |ColorsOf(ps, c)| >= 2
    ensures MeanAfterFirst(ColorsOf(ps, c)) == DivColor(SumColors(ColorsOf(ps, c)[1..]), |ColorsOf(ps, c)| - 1)
  {
    var cs := ColorsOf(ps, c);
    ColorsOfBounded(ps, c, 255);
    var tail := cs[1..];
    assert forall i :: 0 <= i < |tail| ==> tail[i] == cs[i + 1];
    SumColorsBounded(tail, 255);
    var s, n := SumColors(tail), |tail|;
    DivAtMost(s.r, n, 255);
    DivAtMost(s.g, n, 255);
    DivAtMost(s.b, n, 255);
  }

  lemma DivAtMost(a: nat, n: nat, m: nat)
    requires n > 0 && a <= n * m
    ensures a / n <= m
  {
  }
}
