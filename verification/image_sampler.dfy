/** `JTerrainImageSampler::sampling` (src/image_sampler.rs): an elevation
    tile in the GSI PNG encoding (24-bit two's complement in centimetres,
    with one no-data value) and an optional colour tile become a height-map
    collection, one voxel per pixel with data. */
module ImageSampler {
  import opened Wrappers
  import opened Element
  import opened CollectionCore
  import opened VoxelCollections
  import HMap2DCollections
  import Grid

  type Byte = n: nat | n < 256

  datatype Pixel = Pixel(r: Byte, g: Byte, b: Byte)

  const TileSize: nat := 256
  const NoData: int := 0x80_0000
  const RawLimit: int := 0x100_0000

  /** The 24-bit value a pixel stores, red as its high byte. */
  function Raw(p: Pixel): (r: nat)
    ensures r < RawLimit
  {
    65536 * p.r + 256 * p.g + p.b
  }

  /** The pixel storing a 24-bit value. */
  function PixelOfRaw(raw: nat): (p: Pixel)
    requires raw < RawLimit
  {
    Pixel(raw / 65536, raw / 256 % 256, raw % 256)
  }

  /** Reading a pixel's value and storing it again gives the pixel back, and
      every 24-bit value is some pixel's. */
  lemma RawRoundTrip(p: Pixel, raw: nat)
    requires raw < RawLimit
    ensures PixelOfRaw(Raw(p)) == p
    ensures Raw(PixelOfRaw(raw)) == raw
  {
    RawOfPixel(p);
    PixelOfValue(raw);
  }

  lemma RawOfPixel(p: Pixel)
    ensures PixelOfRaw(Raw(p)) == p
  {
    var low := 256 * p.g + p.b;
    assert low < 65536;
    assert Raw(p) / 65536 == p.r;
    assert Raw(p) / 256 == 256 * p.r + p.g;
    assert Raw(p) % 256 == p.b;
  }

  lemma PixelOfValue(raw: nat)
    requires raw < RawLimit
    ensures Raw(PixelOfRaw(raw)) == raw
  {
    var hi := raw / 256;
    assert raw == 256 * hi + raw % 256;
    assert hi == 256 * (hi / 256) + hi % 256;
    assert hi / 256 == raw / 65536;
  }

  /** The height in centimetres: values below 2^23 as they are, values
      above as negative numbers (`raw - 2^24`), and 2^23 as no data. */
  function HeightCm(p: Pixel): (h: Option<int>)
    ensures h.None? <==> Raw(p) == NoData
    ensures h.Some? ==> -NoData < h.value < NoData
    ensures h.Some? ==> (h.value >= 0 <==> Raw(p) < NoData)
  {
    var raw := Raw(p);
    if raw < NoData then Some(raw)
    else if raw > NoData then Some(raw - RawLimit)
    else None
  }

  /** The pixel a height in centimetres is stored in (the encoder's side). */
  function PixelOfHeight(h: int): (p: Pixel)
    requires -NoData < h < NoData
  {
    PixelOfRaw(if h >= 0 then h else h + RawLimit)
  }

  /** Decoding is the inverse of encoding, and every pixel with data is the
      encoding of its height. */
  lemma HeightRoundTrip(h: int, p: Pixel)
    requires -NoData < h < NoData
    ensures HeightCm(PixelOfHeight(h)) == Some(h)
    ensures HeightCm(p).Some? ==> PixelOfHeight(HeightCm(p).value) == p
  {
    RawRoundTrip(p, if h >= 0 then h else h + RawLimit);
  }

  /** `Color::new(color.0)`. */
  function ColorOf(p: Pixel): (c: Color)
    ensures ColorAtMost(c, 255)
  {
    Color(p.r, p.g, p.b)
  }

  /** The colour tile used when none is given: 256 x 256 black pixels. */
  function DefaultColors(): (r: seq<Pixel>)
    ensures |r| == TileSize * TileSize && forall i :: 0 <= i < |r| ==> r[i] == Pixel(0, 0, 0)
  {
    seq(TileSize * TileSize, _ => Pixel(0, 0, 0))
  }

  /** `pixels().zip(...)`: as many pairs as the shorter image has pixels. */
  function Zip(a: seq<Pixel>, b: seq<Pixel>): (r: seq<(Pixel, Pixel)>)
    ensures |r| == if |a| <= |b| then |a| else |b|
    ensures forall i :: 0 <= i < |r| ==> r[i] == (a[i], b[i])
  {
    var n := if |a| <= |b| then |a| else |b|;
    seq(n, i requires 0 <= i < n => (a[i], b[i]))
  }

  /** `chunks(256)`: the rows of the tile, the last one possibly shorter. */
  function Rows<T>(s: seq<T>): (r: seq<seq<T>>)
    ensures forall y :: 0 <= y < |r| ==> 0 < |r[y]| <= TileSize
    decreases |s|
  {
    if s == [] then []
    else if |s| <= TileSize then [s]
    else [s[..TileSize]] + Rows(s[TileSize..])
  }

  /** The voxel of the pixel pair at (x, y), unless its height is no data;
      `toZ` is the height's conversion to a voxel `z` (`z / resolution` cast
      to `u32` in the source). */
  function SamplePixel(x: nat, y: nat, pair: (Pixel, Pixel), toZ: int -> nat): (r: seq<(Point3, Color)>)
    ensures |r| <= 1
    ensures r != [] <==> HeightCm(pair.0).Some?
  {
    match HeightCm(pair.0)
    case None => []
    case Some(h) => [(Point3(x, y, toZ(h)), ColorOf(pair.1))]
  }

  /** One row, its pixels enumerated from `x`. */
  function SampleRow(y: nat, x: nat, row: seq<(Pixel, Pixel)>, toZ: int -> nat): seq<(Point3, Color)>
    decreases |row|
  {
    if row == [] then [] else SamplePixel(x, y, row[0], toZ) + SampleRow(y, x + 1, row[1..], toZ)
  }

  /** The rows enumerated from `y`. */
  function SampleRows(y: nat, rows: seq<seq<(Pixel, Pixel)>>, toZ: int -> nat): seq<(Point3, Color)>
    decreases |rows|
  {
    if rows == [] then [] else SampleRow(y, 0, rows[0], toZ) + SampleRows(y + 1, rows[1..], toZ)
  }

  /** Reference: pixel `i` of the zipped images lies at `x = i mod 256`,
      `y = i div 256`. */
  function SampleFrom(i: nat, pairs: seq<(Pixel, Pixel)>, toZ: int -> nat): seq<(Point3, Color)>
    decreases |pairs|
  {
    if pairs == [] then []
    else SamplePixel(i % TileSize, i / TileSize, pairs[0], toZ) + SampleFrom(i + 1, pairs[1..], toZ)
  }

  lemma {:induction false} SampleFromAppend(i: nat, a: seq<(Pixel, Pixel)>, b: seq<(Pixel, Pixel)>, toZ: int -> nat)
    ensures SampleFrom(i, a + b, toZ) == SampleFrom(i, a, toZ) + SampleFrom(i + |a|, b, toZ)
    decreases |a|
  {
    if a != [] {
      assert (a + b)[1..] == a[1..] + b;
      SampleFromAppend(i + 1, a[1..], b, toZ);
    } else {
      assert a + b == b;
    }
  }

  /** A row of the tile enumerates the same positions as the flat index. */
  lemma {:induction false} SampleRowFlat(y: nat, x: nat, row: seq<(Pixel, Pixel)>, toZ: int -> nat)
    requires x + |row| <= TileSize
    ensures SampleRow(y, x, row, toZ) == SampleFrom(TileSize * y + x, row, toZ)
    decreases |row|
  {
    if row != [] {
      Grid.DivModUnique(TileSize * y + x, TileSize, y, x);
      SampleRowFlat(y, x + 1, row[1..], toZ);
    }
  }

  lemma {:induction false} SampleRowsFlat(y: nat, s: seq<(Pixel, Pixel)>, toZ: int -> nat)
    ensures SampleRows(y, Rows(s), toZ) == SampleFrom(TileSize * y, s, toZ)
    decreases |s|
  {
    if s == [] {
    } else if |s| <= TileSize {
      SampleRowFlat(y, 0, s, toZ);
      assert Rows(s)[1..] == [];
    } else {
      SampleRowsFlat(y + 1, s[TileSize..], toZ);
      SampleRowsFlatStep(y, s, toZ);
    }
  }

  /** The first full row followed by the remaining rows. */
  lemma SampleRowsFlatStep(y: nat, s: seq<(Pixel, Pixel)>, toZ: int -> nat)
    requires |s| > TileSize
    requires SampleRows(y + 1, Rows(s[TileSize..]), toZ) == SampleFrom(TileSize * (y + 1), s[TileSize..], toZ)
    ensures SampleRows(y, Rows(s), toZ) == SampleFrom(TileSize * y, s, toZ)
  {
    var head, tail := s[..TileSize], s[TileSize..];
    assert Rows(s) == [head] + Rows(tail);
    assert Rows(s)[0] == head && Rows(s)[1..] == Rows(tail);
    assert SampleRows(y, Rows(s), toZ) == SampleRow(y, 0, head, toZ) + SampleRows(y + 1, Rows(tail), toZ);
    SampleRowFlat(y, 0, head, toZ);
    assert s == head + tail;
    SampleFromAppend(TileSize * y, head, tail, toZ);
    assert TileSize * y + |head| == TileSize * (y + 1);
  }

  /** The number of pixels with data. */
  function CountData(pairs: seq<(Pixel, Pixel)>): nat {
    if pairs == [] then 0 else (if HeightCm(pairs[0].0).Some? then 1 else 0) + CountData(pairs[1..])
  }

  /** Pixel `k` of `pairs`, enumerated from `i`, has data and yields `q`. */
  predicate YieldsAt(i: nat, pairs: seq<(Pixel, Pixel)>, toZ: int -> nat, k: nat, q: (Point3, Color)) {
    && k < |pairs|
    && HeightCm(pairs[k].0).Some?
    && q == (Point3((i + k) % TileSize, (i + k) / TileSize, toZ(HeightCm(pairs[k].0).value)), ColorOf(pairs[k].1))
  }

  /** One voxel per pixel with data, at that pixel's position with that
      pixel's height and colour, and nothing else. */
  lemma {:induction false} SampleFromContents(i: nat, pairs: seq<(Pixel, Pixel)>, toZ: int -> nat, q: (Point3, Color))
    ensures |SampleFrom(i, pairs, toZ)| == CountData(pairs)
    ensures q in SampleFrom(i, pairs, toZ) <==> exists k: nat :: YieldsAt(i, pairs, toZ, k, q)
    decreases |pairs|
  {
    if pairs != [] {
      var tail := pairs[1..];
      assert SampleFrom(i, pairs, toZ) == SamplePixel(i % TileSize, i / TileSize, pairs[0], toZ) + SampleFrom(i + 1, tail, toZ);
      SampleFromContents(i + 1, tail, toZ, q);
      YieldsFirst(i, pairs, toZ, q);
      if q in SampleFrom(i + 1, tail, toZ) {
        var k: nat :| YieldsAt(i + 1, tail, toZ, k, q);
        YieldsShift(i, pairs, toZ, k, q);
      }
      if exists k: nat :: YieldsAt(i, pairs, toZ, k, q) {
        var k: nat :| YieldsAt(i, pairs, toZ, k, q);
        if k > 0 {
          YieldsShift(i, pairs, toZ, k - 1, q);
        }
      }
    }
  }

  /** The first pixel yields `q` iff its sample is `q`. */
  lemma YieldsFirst(i: nat, pairs: seq<(Pixel, Pixel)>, toZ: int -> nat, q: (Point3, Color))
    requires pairs != []
    ensures q in SamplePixel(i % TileSize, i / TileSize, pairs[0], toZ) <==> YieldsAt(i, pairs, toZ, 0, q)
  {
  }

  /** Dropping the first pixel shifts the enumeration by one. */
  lemma YieldsShift(i: nat, pairs: seq<(Pixel, Pixel)>, toZ: int -> nat, k: nat, q: (Point3, Color))
    requires pairs != []
    ensures YieldsAt(i + 1, pairs[1..], toZ, k, q) <==> YieldsAt(i, pairs, toZ, k + 1, q)
  {
    if k + 1 < |pairs| {
      assert pairs[1..][k] == pairs[k + 1];
    }
  }

  /** The sampled points: the altitude pixels zipped with the colour pixels
      (black when no colour tile is given), cut into rows of 256, each pixel
      with data becoming a point at its column and row. */
  function SamplePoints(altitude: seq<Pixel>, color: Option<seq<Pixel>>, toZ: int -> nat): (r: seq<(Point3, Color)>)
    ensures var cols := if color.Some? then color.value else DefaultColors();
      r == SampleFrom(0, Zip(altitude, cols), toZ)
  {
    var cols := if color.Some? then color.value else DefaultColors();
    var pairs := Zip(altitude, cols);
    SampleRowsFlat(0, pairs, toZ);
    SampleRows(0, Rows(pairs), toZ)
  }

  /** The point pixel `i` yields: column `i mod 256`, row `i div 256`, its
      height as `z`, and the colour pixel's colour. */
  function SampleAt(altitude: seq<Pixel>, cols: seq<Pixel>, toZ: int -> nat, i: nat): (Point3, Color)
    requires i < |altitude| && i < |cols| && HeightCm(altitude[i]).Some?
  {
    (Point3(i % TileSize, i / TileSize, toZ(HeightCm(altitude[i]).value)), ColorOf(cols[i]))
  }

  /** What the sampled points are: as many as there are pixels with data
      among the first `min(|altitude|, |colours|)`, and a point is sampled
      exactly when some such pixel `i` yields it at `x = i mod 256`,
      `y = i div 256`, with the colour pixel's colour. */
  lemma SamplePointsContents(altitude: seq<Pixel>, color: Option<seq<Pixel>>, toZ: int -> nat, q: (Point3, Color))
    ensures var cols := if color.Some? then color.value else DefaultColors();
      var pairs := Zip(altitude, cols);
      && |SamplePoints(altitude, color, toZ)| == CountData(pairs)
      && (q in SamplePoints(altitude, color, toZ) <==>
          exists i :: 0 <= i < |pairs| && HeightCm(altitude[i]).Some? && q == SampleAt(altitude, cols, toZ, i))
  {
    var cols := if color.Some? then color.value else DefaultColors();
    var pairs := Zip(altitude, cols);
    SampleFromContents(0, pairs, toZ, q);
    if q in SamplePoints(altitude, color, toZ) {
      var i: nat :| YieldsAt(0, pairs, toZ, i, q);
      assert HeightCm(altitude[i]).Some? && q == SampleAt(altitude, cols, toZ, i);
    }
    if exists i :: 0 <= i < |pairs| && HeightCm(altitude[i]).Some? && q == SampleAt(altitude, cols, toZ, i) {
      var i :| 0 <= i < |pairs| && HeightCm(altitude[i]).Some? && q == SampleAt(altitude, cols, toZ, i);
      assert YieldsAt(0, pairs, toZ, i, q);
    }
  }

  /** `HMap2DVoxelCollection::builder().points(points).resolution(resolution).build()`
      with `u8` weights. */
  function HeightMap(points: seq<(Point3, Color)>, resolution: real): (r: Collection)
    ensures r.H2? && Resolution(r) == resolution && Offset(r) == Origin
    ensures WellFormed(r, 255)
  {
    var b := WithPoints(NewBuilder(HMap2DKind), points).(resolution := resolution);
    BuildFromPoints(HMap2DKind, points, 255);
    Build(b, 255).value
  }

  /** The height map has one column per distinct `(x, y)` of the points. */
  lemma HeightMapColumns(points: seq<(Point3, Color)>, resolution: real, xy: Point2)
    ensures xy in HeightMap(points, resolution).h2.field.entries <==> exists k :: 0 <= k < |points| && Fit(points[k].0) == xy
  {
    HeightMapKeys(points, resolution);
    BuilderColumns(points, xy);
  }

  /** The columns of the builder's entries are the points' `(x, y)`. */
  lemma BuilderColumns(points: seq<(Point3, Color)>, xy: Point2)
    ensures xy in HMap2DCollections.Columns(WithPoints(NewBuilder(HMap2DKind), points).voxels)
        <==> exists k :: 0 <= k < |points| && Fit(points[k].0) == xy
  {
    var cs := HMap2DCollections.Columns(WithPoints(NewBuilder(HMap2DKind), points).voxels);
    if xy in cs {
      var k :| 0 <= k < |cs| && cs[k] == xy;
      assert Fit(points[k].0) == xy;
    }
    if exists k :: 0 <= k < |points| && Fit(points[k].0) == xy {
      var k :| 0 <= k < |points| && Fit(points[k].0) == xy;
      assert cs[k] == xy;
    }
  }

  lemma HeightMapKeys(points: seq<(Point3, Color)>, resolution: real)
    ensures HeightMap(points, resolution).h2.field.entries.Keys
         == set q | q in HMap2DCollections.Columns(WithPoints(NewBuilder(HMap2DKind), points).voxels)
  {
    var voxels := WithPoints(NewBuilder(HMap2DKind), points).voxels;
    assert HeightMap(points, resolution).h2 == HMap2DCollections.New(voxels, None, Origin, resolution, 255);
  }

  /** `sampling`: the sampled points, built into a height-map collection
      with the resolution of the zoom level (`resolution`, computed from
      floating-point geodesy in the source and given here). */
  function Sampling(altitude: seq<Pixel>, color: Option<seq<Pixel>>, resolution: real, toZ: int -> nat): (r: Collection)
    ensures r.H2? && Resolution(r) == resolution && Offset(r) == Origin
    ensures WellFormed(r, 255)
  {
    HeightMap(SamplePoints(altitude, color, toZ), resolution)
  }

  /** The height map has a column exactly at the position of every pixel
      with data. */
  lemma SamplingColumns(altitude: seq<Pixel>, color: Option<seq<Pixel>>, resolution: real, toZ: int -> nat, xy: Point2)
    ensures var cols := if color.Some? then color.value else DefaultColors();
      var pairs := Zip(altitude, cols);
      xy in Sampling(altitude, color, resolution, toZ).h2.field.entries <==>
        exists i :: 0 <= i < |pairs| && HeightCm(altitude[i]).Some? && xy == Point2(i % TileSize, i / TileSize)
  {
    HeightMapColumns(SamplePoints(altitude, color, toZ), resolution, xy);
    PointColumns(altitude, color, toZ, xy);
  }

  lemma PointColumns(altitude: seq<Pixel>, color: Option<seq<Pixel>>, toZ: int -> nat, xy: Point2)
    ensures var cols := if color.Some? then color.value else DefaultColors();
      var pairs := Zip(altitude, cols);
      var points := SamplePoints(altitude, color, toZ);
      (exists k :: 0 <= k < |points| && Fit(points[k].0) == xy) <==>
        exists i :: 0 <= i < |pairs| && HeightCm(altitude[i]).Some? && xy == Point2(i % TileSize, i / TileSize)
  {
    var cols := if color.Some? then color.value else DefaultColors();
    var pairs := Zip(altitude, cols);
    var points := SamplePoints(altitude, color, toZ);
    if exists k :: 0 <= k < |points| && Fit(points[k].0) == xy {
      var k :| 0 <= k < |points| && Fit(points[k].0) == xy;
      PointHasPixel(altitude, color, toZ, cols, pairs, points, k);
    }
    if exists i :: 0 <= i < |pairs| && HeightCm(altitude[i]).Some? && xy == Point2(i % TileSize, i / TileSize) {
      var i :| 0 <= i < |pairs| && HeightCm(altitude[i]).Some? && xy == Point2(i % TileSize, i / TileSize);
      PixelHasPoint(altitude, color, toZ, cols, pairs, points, i);
    }
  }

  /** A sampled point stands over a pixel with data. */
  lemma PointHasPixel(altitude: seq<Pixel>, color: Option<seq<Pixel>>, toZ: int -> nat, cols: seq<Pixel>,
                      pairs: seq<(Pixel, Pixel)>, points: seq<(Point3, Color)>, k: nat)
    requires cols == (if color.Some? then color.value else DefaultColors())
    requires pairs == Zip(altitude, cols) && points == SamplePoints(altitude, color, toZ)
    requires k < |points|
    ensures exists i :: 0 <= i < |pairs| && HeightCm(altitude[i]).Some? && Fit(points[k].0) == Point2(i % TileSize, i / TileSize)
  {
    var q := points[k];
    SamplePointsContents(altitude, color, toZ, q);
    var i :| 0 <= i < |pairs| && HeightCm(altitude[i]).Some? && q == SampleAt(altitude, cols, toZ, i);
    assert Fit(q.0) == Point2(i % TileSize, i / TileSize);
  }

  /** A pixel with data has a sampled point over it. */
  lemma PixelHasPoint(altitude: seq<Pixel>, color: Option<seq<Pixel>>, toZ: int -> nat, cols: seq<Pixel>,
                      pairs: seq<(Pixel, Pixel)>, points: seq<(Point3, Color)>, i: nat)
    requires cols == (if color.Some? then color.value else DefaultColors())
    requires pairs == Zip(altitude, cols) && points == SamplePoints(altitude, color, toZ)
    requires i < |pairs| && HeightCm(altitude[i]).Some?
    ensures exists k :: 0 <= k < |points| && Fit(points[k].0) == Point2(i % TileSize, i / TileSize)
  {
    var q := SampleAt(altitude, cols, toZ, i);
    SamplePointsContents(altitude, color, toZ, q);
    var k :| 0 <= k < |points| && points[k] == q;
    assert Fit(points[k].0) == Point2(i % TileSize, i / TileSize);
  }
}
