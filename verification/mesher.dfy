/** `Mesher::meshing` (src/mesher.rs, repeated verbatim in src/mesh.rs): the
    cube-culling mesher.  Every voxel emits, for each enabled side whose
    neighbour is absent, two triangles (six corner indices); corners are
    deduplicated in an `IndexSet` and index lists are grouped by colour. */
module Meshing {
  import opened Wrappers
  import opened Element
  import opened CollectionCore
  import opened OrderedMaps
  import opened IndexSets
  import opened VoxelCollections
  import opened VoxelMeshes

  /** `ValidSide`, a `bitflags` set over `u8`. */
  datatype ValidSide = ValidSide(bits: bv8)

  const TOP: bv8 := 0x01
  const BOTTOM: bv8 := 0x02
  const LEFT: bv8 := 0x04
  const RIGHT: bv8 := 0x08
  const FRONT: bv8 := 0x10
  const BACK: bv8 := 0x20
  const BORDER: bv8 := 0x40

  /** `ValidSide::all()`. */
  const AllSides := ValidSide(0x7F)

  predicate Contains(v: ValidSide, flag: bv8) {
    v.bits & flag == flag
  }

  function SideFlag(d: Side): bv8 {
    match d
    case Top => TOP
    case Bottom => BOTTOM
    case Left => LEFT
    case Right => RIGHT
    case Front => FRONT
    case Back => BACK
  }

  /** The order in which the source lists the sides of a voxel. */
  const SideOrder: seq<Side> := [Left, Right, Bottom, Top, Back, Front]

  /** The corner offsets of a face: two triangles, six corners. */
  function Corners(d: Side): (r: seq<Point3>)
    ensures |r| == 6
  {
    match d
    case Left => [Point3(0, 0, 0), Point3(0, 0, 1), Point3(0, 1, 1), Point3(0, 1, 1), Point3(0, 1, 0), Point3(0, 0, 0)]
    case Right => [Point3(1, 0, 0), Point3(1, 1, 0), Point3(1, 1, 1), Point3(1, 1, 1), Point3(1, 0, 1), Point3(1, 0, 0)]
    case Bottom => [Point3(0, 0, 0), Point3(0, 1, 0), Point3(1, 1, 0), Point3(1, 1, 0), Point3(1, 0, 0), Point3(0, 0, 0)]
    case Top => [Point3(0, 0, 1), Point3(1, 0, 1), Point3(1, 1, 1), Point3(1, 1, 1), Point3(0, 1, 1), Point3(0, 0, 1)]
    case Back => [Point3(0, 0, 0), Point3(1, 0, 0), Point3(1, 0, 1), Point3(1, 0, 1), Point3(0, 0, 1), Point3(0, 0, 0)]
    case Front => [Point3(1, 1, 1), Point3(1, 1, 0), Point3(0, 1, 0), Point3(0, 1, 0), Point3(0, 1, 1), Point3(1, 1, 1)]
  }

  /** The six corners of side `d` of the voxel at `p`. */
  function FaceVertices(p: Point3, d: Side): (r: seq<Point3>)
    ensures |r| == 6 && forall i :: 0 <= i < 6 ==> r[i] == Add3(p, Corners(d)[i])
  {
    seq(6, i requires 0 <= i < 6 => Add3(p, Corners(d)[i]))
  }

  /** What the per-voxel decision reads: the collection (for `has`), the
      coordinate type's range (for the neighbours), the enabled sides and the
      vertex box. */
  datatype Env = Env(c: Collection, t: IntRange, valid: ValidSide, box: Bounds)

  /** `is_required`: the neighbour is unrepresentable or absent. */
  predicate Required(e: Env, p: Point3, d: Side) {
    match Neighbour3(e.t, p, d)
    case None => true
    case Some(q) => !Has(e.c, q)
  }

  /** `on_border`: some coordinate equals the box's minimum or maximum. */
  predicate OnBorder(box: Bounds, q: Point3) {
    q.x == box.min.x || q.x == box.max.x || q.y == box.min.y || q.y == box.max.y || q.z == box.min.z || q.z == box.max.z
  }

  predicate TouchesBorder(box: Bounds, p: Point3, d: Side) {
    exists i :: 0 <= i < 6 && OnBorder(box, FaceVertices(p, d)[i])
  }

  /** Side `d` of the voxel at `p` is meshed. */
  predicate Keep(e: Env, p: Point3, d: Side) {
    Contains(e.valid, SideFlag(d)) && Required(e, p, d) && (Contains(e.valid, BORDER) || !TouchesBorder(e.box, p, d))
  }

  /** The kept sides among `sides`, in order. */
  function KeptSides(e: Env, p: Point3, sides: seq<Side>): (r: seq<Side>)
    ensures forall d :: d in r <==> d in sides && Keep(e, p, d)
    ensures |r| <= |sides|
  {
    if sides == [] then []
    else (if Keep(e, p, sides[0]) then [sides[0]] else []) + KeptSides(e, p, sides[1..])
  }

  /** The corners of the sides `ds`, six per side, in order. */
  function FacesFor(p: Point3, ds: seq<Side>): (r: seq<Point3>)
    ensures |r| == 6 * |ds|
    ensures forall k, i :: 0 <= k < |ds| && 0 <= i < 6 ==> r[6 * k + i] == FaceVertices(p, ds[k])[i]
  {
    if ds == [] then []
    else
      FaceVertices(p, ds[0]) + FacesFor(p, ds[1..])
  }

  /** `unit_faces` of one voxel. */
  function UnitFaces(e: Env, p: Point3): (r: seq<Point3>)
    ensures |r| % 6 == 0
  {
    FacesFor(p, KeptSides(e, p, SideOrder))
  }

  /** The `k`-th face (six corners) of a corner list. */
  function FaceAt(r: seq<Point3>, k: nat): (f: seq<Point3>)
    requires 6 * k + 6 <= |r|
    ensures |f| == 6 && forall i :: 0 <= i < 6 ==> f[i] == r[6 * k + i]
  {
    r[6 * k..6 * k + 6]
  }

  /** Different sides of one voxel have different corner lists. */
  lemma FaceVerticesInjective(p: Point3, d1: Side, d2: Side)
    requires FaceVertices(p, d1) == FaceVertices(p, d2)
    ensures d1 == d2
  {
    assert FaceVertices(p, d1)[0] == FaceVertices(p, d2)[0];
    assert FaceVertices(p, d1)[1] == FaceVertices(p, d2)[1];
    match d2
    case Left =>
    case Right =>
    case Bottom =>
    case Top =>
    case Back =>
    case Front =>
  }

  /** A voxel emits the face of side `d` exactly when that side is kept. */
  lemma UnitFacesSides(e: Env, p: Point3, d: Side)
    ensures Keep(e, p, d) <==>
      exists k: nat :: 6 * k + 6 <= |UnitFaces(e, p)| && FaceAt(UnitFaces(e, p), k) == FaceVertices(p, d)
  {
    var ks := KeptSides(e, p, SideOrder);
    var uf := UnitFaces(e, p);
    if Keep(e, p, d) {
      assert d in SideOrder;
      var k :| 0 <= k < |ks| && ks[k] == d;
      assert FaceAt(uf, k) == FaceVertices(p, d);
    }
    if k: nat :| 6 * k + 6 <= |uf| && FaceAt(uf, k) == FaceVertices(p, d) {
      assert FaceAt(uf, k) == FaceVertices(p, ks[k]);
      FaceVerticesInjective(p, d, ks[k]);
    }
  }

  /** A side switched off in `valid` is never meshed. */
  lemma DisabledSideNotMeshed(e: Env, p: Point3, d: Side)
    requires !Contains(e.valid, SideFlag(d))
    ensures forall k: nat :: 6 * k + 6 <= |UnitFaces(e, p)| ==> FaceAt(UnitFaces(e, p), k) != FaceVertices(p, d)
  {
    UnitFacesSides(e, p, d);
  }

  /** A side whose neighbour is present in the collection is never meshed. */
  lemma HiddenSideNotMeshed(e: Env, p: Point3, d: Side, q: Point3)
    requires Neighbour3(e.t, p, d) == Some(q) && Has(e.c, q)
    ensures forall k: nat :: 6 * k + 6 <= |UnitFaces(e, p)| ==> FaceAt(UnitFaces(e, p), k) != FaceVertices(p, d)
  {
    UnitFacesSides(e, p, d);
  }

  /** Without `BORDER`, a side with a corner on the vertex box is never meshed. */
  lemma BorderSideNotMeshed(e: Env, p: Point3, d: Side)
    requires !Contains(e.valid, BORDER) && TouchesBorder(e.box, p, d)
    ensures forall k: nat :: 6 * k + 6 <= |UnitFaces(e, p)| ==> FaceAt(UnitFaces(e, p), k) != FaceVertices(p, d)
  {
    UnitFacesSides(e, p, d);
  }

  /** The corners emitted by the given voxels of colour `col`, in order. */
  function FacesOfColor(e: Env, pts: seq<(Point3, Color)>, col: Color): (r: seq<Point3>)
    ensures |r| % 6 == 0
  {
    if pts == [] then []
    else
      var last := pts[|pts| - 1];
      FacesOfColor(e, pts[..|pts| - 1], col) + (if last.1 == col then UnitFaces(e, last.0) else [])
  }

  /** All corners emitted by the given voxels, in order. */
  function AllCorners(e: Env, pts: seq<(Point3, Color)>): seq<Point3> {
    if pts == [] then []
    else AllCorners(e, pts[..|pts| - 1]) + UnitFaces(e, pts[|pts| - 1].0)
  }

  /** Every face listed under colour `col` is a kept side of a voxel of that
      colour. */
  lemma {:induction false} FacesOfColorAreKept(e: Env, pts: seq<(Point3, Color)>, col: Color, k: nat)
    requires 6 * k + 6 <= |FacesOfColor(e, pts, col)|
    ensures exists i, d :: 0 <= i < |pts| && pts[i].1 == col && Keep(e, pts[i].0, d)
                           && FaceAt(FacesOfColor(e, pts, col), k) == FaceVertices(pts[i].0, d)
  {
    var init, last := pts[..|pts| - 1], pts[|pts| - 1];
    var a := FacesOfColor(e, init, col);
    var fs := FacesOfColor(e, pts, col);
    var n := |pts| - 1;
    if 6 * k + 6 <= |a| {
      FacesOfColorAreKept(e, init, col, k);
      var i, d :| 0 <= i < |init| && init[i].1 == col && Keep(e, init[i].0, d) && FaceAt(a, k) == FaceVertices(init[i].0, d);
      assert FaceAt(fs, k) == FaceAt(a, k);
      assert pts[i] == init[i];
    } else {
      var ks := KeptSides(e, last.0, SideOrder);
      var k' := k - |a| / 6;
      assert last.1 == col && fs == a + FacesFor(last.0, ks);
      assert FaceAt(fs, k) == FaceAt(FacesFor(last.0, ks), k');
      assert FaceAt(fs, k) == FaceVertices(last.0, ks[k']);
      assert pts[n] == last && Keep(e, pts[n].0, ks[k']);
    }
  }

  /** The mesh under construction: the vertex `IndexSet` and the colour map. */
  datatype MeshState = MeshState(points: seq<Point3>, faces: OrderedMap<Color, seq<nat>>)

  /** Indices are valid and every colour holds whole faces. */
  ghost predicate Indexed(s: MeshState) {
    && IndicesValid(s.points, s.faces)
    && forall col :: col in s.faces.entries ==> |s.faces.entries[col]| % 6 == 0
  }

  /** The body of the `for_each`: a voxel without faces is skipped; otherwise
      its corners are interned and their indices appended under its colour. */
  function AddVoxel(s: MeshState, e: Env, p: Point3, col: Color): (r: MeshState)
    requires Indexed(s)
    ensures Indexed(r)
    ensures |s.points| <= |r.points| && r.points[..|s.points|] == s.points
  {
    AddCorners(s, UnitFaces(e, p), col)
  }

  /** Interning the corners `uf` of one voxel of colour `col`. */
  function AddCorners(s: MeshState, uf: seq<Point3>, col: Color): (r: MeshState)
    requires Indexed(s) && |uf| % 6 == 0
    ensures Indexed(r)
    ensures |s.points| <= |r.points| && r.points[..|s.points|] == s.points
  {
    if uf == [] then s
    else
      var (points, idx) := InsertAll(s.points, uf);
      var faces := Upsert(s.faces, col, idx, (prior: seq<nat>) => prior + idx);
      IndexedAfterAppend(s, points, idx, col, faces);
      MeshState(points, faces)
  }

  lemma IndexedAfterAppend(s: MeshState, points: seq<Point3>, idx: seq<nat>, col: Color, faces: OrderedMap<Color, seq<nat>>)
    requires Indexed(s) && NoDup(points) && |s.points| <= |points| && points[..|s.points|] == s.points
    requires |idx| % 6 == 0 && InRangeIndices(points, idx)
    requires Valid(faces) && faces.entries.Keys == s.faces.entries.Keys + {col}
    requires col in s.faces.entries ==> faces.entries[col] == s.faces.entries[col] + idx
    requires col !in s.faces.entries ==> faces.entries[col] == idx
    requires forall c :: c in s.faces.entries && c != col ==> faces.entries[c] == s.faces.entries[c]
    ensures Indexed(MeshState(points, faces))
  {
    forall c | c in faces.entries
      ensures |faces.entries[c]| % 6 == 0
      ensures InRangeIndices(points, faces.entries[c])
    {
      if c != col {
        DerefPrefix(s.points, points, s.faces.entries[c]);
      } else if col in s.faces.entries {
        var prior := s.faces.entries[col];
        DerefPrefix(s.points, points, prior);
        DerefConcat(points, prior, idx);
        WholeFaces(|prior|, |idx|);
      }
    }
  }

  lemma WholeFaces(a: nat, b: nat)
    requires a % 6 == 0 && b % 6 == 0
    ensures (a + b) % 6 == 0
  {
    assert a + b == 6 * (a / 6 + b / 6);
  }

  /** The mesh built from the voxels `pts` in order. */
  function MeshVoxels(e: Env, pts: seq<(Point3, Color)>): (r: MeshState)
    ensures Indexed(r)
  {
    if pts == [] then MeshState([], Empty())
    else AddVoxel(MeshVoxels(e, pts[..|pts| - 1]), e, pts[|pts| - 1].0, pts[|pts| - 1].1)
  }

  /** One voxel's effect on colour `c`: its corners are appended to the
      corners listed under `c` exactly when it has that colour. */
  lemma AddCornersContent(s: MeshState, uf: seq<Point3>, col: Color, c: Color, fc: seq<Point3>)
    requires Indexed(s) && |uf| % 6 == 0
    requires c in s.faces.entries <==> fc != []
    requires c in s.faces.entries ==> Deref(s.points, s.faces.entries[c]) == fc
    ensures var r := AddCorners(s, uf, col);
      var fc' := fc + (if col == c then uf else []);
      && (c in r.faces.entries <==> fc' != [])
      && (c in r.faces.entries ==> Deref(r.points, r.faces.entries[c]) == fc')
  {
    if uf != [] {
      var ins := InsertAll(s.points, uf);
      var points, idx := ins.0, ins.1;
      var faces := Upsert(s.faces, col, idx, (prior: seq<nat>) => prior + idx);
      assert AddCorners(s, uf, col) == MeshState(points, faces);
      assert Deref(points, idx) == uf;
      AppendedContent(s, points, idx, uf, col, faces, c, fc);
    }
  }

  /** Colour `c`'s corners after `idx`, naming the corners `uf`, was
      appended under colour `col`. */
  lemma AppendedContent(s: MeshState, points: seq<Point3>, idx: seq<nat>, uf: seq<Point3>, col: Color,
                        faces: OrderedMap<Color, seq<nat>>, c: Color, fc: seq<Point3>)
    requires Indexed(s) && |s.points| <= |points| && points[..|s.points|] == s.points
    requires InRangeIndices(points, idx) && Deref(points, idx) == uf && uf != []
    requires faces.entries.Keys == s.faces.entries.Keys + {col}
    requires col in s.faces.entries ==> faces.entries[col] == s.faces.entries[col] + idx
    requires col !in s.faces.entries ==> faces.entries[col] == idx
    requires forall c :: c in s.faces.entries && c != col ==> faces.entries[c] == s.faces.entries[c]
    requires c in s.faces.entries <==> fc != []
    requires c in s.faces.entries ==> Deref(s.points, s.faces.entries[c]) == fc
    ensures var fc' := fc + (if col == c then uf else []);
      && (c in faces.entries <==> fc' != [])
      && (c in faces.entries ==> InRangeIndices(points, faces.entries[c]) && Deref(points, faces.entries[c]) == fc')
  {
    if c in s.faces.entries {
      DerefPrefix(s.points, points, s.faces.entries[c]);
      if c == col {
        DerefConcat(points, s.faces.entries[c], idx);
      }
    }
  }

  /** After all voxels, colour `c` has an entry iff some voxel of that colour
      emitted a face, and its indices name exactly the corners those voxels
      emitted, in order. */
  lemma {:induction false} MeshVoxelsContent(e: Env, pts: seq<(Point3, Color)>, c: Color)
    ensures var r := MeshVoxels(e, pts);
      && (c in r.faces.entries <==> FacesOfColor(e, pts, c) != [])
      && (c in r.faces.entries ==> Deref(r.points, r.faces.entries[c]) == FacesOfColor(e, pts, c))
  {
    if pts != [] {
      var init, last := pts[..|pts| - 1], pts[|pts| - 1];
      MeshVoxelsContent(e, init, c);
      AddCornersContent(MeshVoxels(e, init), UnitFaces(e, last.0), last.1, c, FacesOfColor(e, init, c));
    }
  }

  /** The vertex set is exactly the set of emitted corners. */
  lemma {:induction false} MeshVoxelsVertices(e: Env, pts: seq<(Point3, Color)>)
    ensures (set q | q in MeshVoxels(e, pts).points) == (set q | q in AllCorners(e, pts))
  {
    if pts != [] {
      var init, last := pts[..|pts| - 1], pts[|pts| - 1];
      MeshVoxelsVertices(e, init);
      var uf := UnitFaces(e, last.0);
      assert MeshVoxels(e, pts) == AddCorners(MeshVoxels(e, init), uf, last.1);
      AddCornersVertices(MeshVoxels(e, init), uf, last.1);
      SetOfConcat(AllCorners(e, init), uf);
    }
  }

  /** Interning one voxel's corners adds exactly those corners to the
      vertex set. */
  lemma AddCornersVertices(s: MeshState, uf: seq<Point3>, col: Color)
    requires Indexed(s) && |uf| % 6 == 0
    ensures (set q | q in AddCorners(s, uf, col).points) == (set q | q in s.points) + (set q | q in uf)
  {
  }

  lemma SetOfConcat(xs: seq<Point3>, ys: seq<Point3>)
    ensures (set q | q in xs + ys) == (set q | q in xs) + (set q | q in ys)
  {
  }

  /** `mesh.bounds.1 += 1`: the voxel box becomes the box of their corners. */
  function VertexBox(b: Bounds): (r: Bounds)
    ensures r.min == b.min && r.max == Add3(b.max, Point3(1, 1, 1))
  {
    Bounds(b.min, Add3(b.max, Point3(1, 1, 1)))
  }

  /** `Mesher::meshing`.  It takes the collection's bounds first (caching
      them; Vec2 fails when it has no weighted column), then meshes every
      voxel of `to_points` against the collection as it stands afterwards.
      The mesh has a colour entry exactly for the colours whose voxels
      emitted a face; each colour's indices name, in order, the corners its
      voxels emitted; and the vertex set is exactly the emitted corners. */
  function Meshing(c: Collection, t: IntRange, valid: ValidSide): (r: Result<VoxelMesh, CollectionError>)
    requires ShapeOk(c) && AllWeighted(ToVec(c))
    ensures r.Err? <==> GetBounds(c).Err?
    ensures r.Err? ==> KindOf(c) == Vec2Kind && r.error == EmptyUnwrap
    ensures r.Ok? ==> r.value.bounds == VertexBox(GetBounds(c).value.0)
                      && r.value.offset == Offset(c) && r.value.resolution == Resolution(c)
    ensures r.Ok? ==> IndicesValid(r.value.points, r.value.faces)
                      && forall col :: col in r.value.faces.entries ==> |r.value.faces.entries[col]| % 6 == 0
    ensures r.Ok? ==>
      var e := Env(GetBounds(c).value.1, t, valid, r.value.bounds);
      forall col ::
        && (col in r.value.faces.entries <==> FacesOfColor(e, ToPoints(c), col) != [])
        && (col in r.value.faces.entries ==> Deref(r.value.points, r.value.faces.entries[col]) == FacesOfColor(e, ToPoints(c), col))
    ensures r.Ok? ==>
      var e := Env(GetBounds(c).value.1, t, valid, r.value.bounds);
      (set q | q in r.value.points) == (set q | q in AllCorners(e, ToPoints(c)))
  {
    match GetBounds(c)
    case Err(err) => Err(err)
    case Ok((b, c')) =>
      var e := Env(c', t, valid, VertexBox(b));
      var pts := ToPoints(c');
      var s := MeshVoxels(e, pts);
      forall col
        ensures && (col in s.faces.entries <==> FacesOfColor(e, pts, col) != [])
                && (col in s.faces.entries ==> Deref(s.points, s.faces.entries[col]) == FacesOfColor(e, pts, col))
      {
        MeshVoxelsContent(e, pts, col);
      }
      MeshVoxelsVertices(e, pts);
      Ok(VoxelMesh(VertexBox(b), Offset(c'), s.points, s.faces, Resolution(c')))
  }

  /** When every side in `sides` is kept, all of them are. */
  lemma {:induction false} KeptSidesAll(e: Env, p: Point3, sides: seq<Side>)
    requires forall i :: 0 <= i < |sides| ==> Keep(e, p, sides[i])
    ensures KeptSides(e, p, sides) == sides
  {
    if sides != [] {
      KeptSidesAll(e, p, sides[1..]);
    }
  }

  /** When no side in `sides` is kept, none are. */
  lemma {:induction false} KeptSidesNone(e: Env, p: Point3, sides: seq<Side>)
    requires forall i :: 0 <= i < |sides| ==> !Keep(e, p, sides[i])
    ensures KeptSides(e, p, sides) == []
  {
    if sides != [] {
      KeptSidesNone(e, p, sides[1..]);
    }
  }

  /** The eight corners of the unit cube at `p`. */
  function CubeCorners(p: Point3): set<Point3> {
    { Add3(p, Point3(0, 0, 0)), Add3(p, Point3(0, 0, 1)), Add3(p, Point3(0, 1, 0)), Add3(p, Point3(0, 1, 1)),
      Add3(p, Point3(1, 0, 0)), Add3(p, Point3(1, 0, 1)), Add3(p, Point3(1, 1, 0)), Add3(p, Point3(1, 1, 1)) }
  }

  lemma CornerInCube(p: Point3, d: Side, i: nat)
    requires i < 6
    ensures Add3(p, Corners(d)[i]) in CubeCorners(p)
  {
    var o := Corners(d)[i];
    assert 0 <= o.x <= 1 && 0 <= o.y <= 1 && 0 <= o.z <= 1;
    assert o in {Point3(0, 0, 0), Point3(0, 0, 1), Point3(0, 1, 0), Point3(0, 1, 1),
                 Point3(1, 0, 0), Point3(1, 0, 1), Point3(1, 1, 0), Point3(1, 1, 1)};
  }

  /** All six faces of a voxel use exactly the eight corners of its cube. */
  lemma AllFacesUseCubeCorners(p: Point3)
    ensures (set q | q in FacesFor(p, SideOrder)) == CubeCorners(p)
  {
    FacesWithinCube(p);
    CubeWithinFaces(p);
  }

  lemma FacesWithinCube(p: Point3)
    ensures forall q :: q in FacesFor(p, SideOrder) ==> q in CubeCorners(p)
  {
    var fs := FacesFor(p, SideOrder);
    forall q | q in fs ensures q in CubeCorners(p) {
      var j :| 0 <= j < |fs| && fs[j] == q;
      FaceCornerInCube(p, j);
    }
  }

  lemma FaceCornerInCube(p: Point3, j: nat)
    requires j < |FacesFor(p, SideOrder)|
    ensures FacesFor(p, SideOrder)[j] in CubeCorners(p)
  {
    var k, i := j / 6, j % 6;
    assert FacesFor(p, SideOrder)[6 * k + i] == FaceVertices(p, SideOrder[k])[i];
    CornerInCube(p, SideOrder[k], i);
  }

  lemma CubeWithinFaces(p: Point3)
    ensures forall q :: q in CubeCorners(p) ==> q in FacesFor(p, SideOrder)
  {
    var fs := FacesFor(p, SideOrder);
    assert SideOrder[0] == Left && SideOrder[1] == Right;
    assert fs[6 * 0 + 0] == FaceVertices(p, SideOrder[0])[0] && fs[6 * 0 + 1] == FaceVertices(p, SideOrder[0])[1];
    assert fs[6 * 0 + 2] == FaceVertices(p, SideOrder[0])[2] && fs[6 * 0 + 4] == FaceVertices(p, SideOrder[0])[4];
    assert fs[6 * 1 + 0] == FaceVertices(p, SideOrder[1])[0] && fs[6 * 1 + 1] == FaceVertices(p, SideOrder[1])[1];
    assert fs[6 * 1 + 2] == FaceVertices(p, SideOrder[1])[2] && fs[6 * 1 + 4] == FaceVertices(p, SideOrder[1])[4];
  }

  /** One voxel emits its faces under its own colour and nothing elsewhere. */
  lemma SingleVoxelFaces(e: Env, p: Point3, col: Color)
    ensures AllCorners(e, [(p, col)]) == UnitFaces(e, p)
    ensures forall c :: FacesOfColor(e, [(p, col)], c) == if c == col then UnitFaces(e, p) else []
  {
    var pts := [(p, col)];
    assert pts[..0] == [];
  }

  /** Every side flag and `BORDER` are in `ValidSide::all()`; `BORDER` alone
      is missing from `0x3F`. */
  lemma FlagsOf(d: Side)
    ensures Contains(AllSides, SideFlag(d)) && Contains(AllSides, BORDER)
    ensures Contains(ValidSide(0x3F), SideFlag(d)) && !Contains(ValidSide(0x3F), BORDER)
  {
    match d
    case Left =>
    case Right =>
    case Bottom =>
    case Top =>
    case Back =>
    case Front =>
  }

  /** A voxel with no other voxel around keeps every enabled side when
      `BORDER` is enabled. */
  lemma IsolatedKeeps(e: Env, p: Point3, d: Side)
    requires forall q :: Has(e.c, q) <==> q == p
    requires Contains(e.valid, SideFlag(d)) && Contains(e.valid, BORDER)
    ensures Keep(e, p, d)
  {
    var n := Neighbour3(e.t, p, d);
    if n.Some? {
      assert Coord(n.value, AxisOf(d)) != Coord(p, AxisOf(d));
    }
  }

  lemma KeysOfOne<K, V>(m: map<K, V>, k: K, present: bool)
    requires forall x :: x in m <==> x == k && present
    ensures m.Keys == if present then {k} else {}
  {
  }

  /** Meshing a collection that lists one voxel: its colour has an entry
      iff it emits a face, the entry names exactly its corners, and the
      vertex set is the set of those corners. */
  lemma MeshingOneVoxel(c: Collection, t: IntRange, valid: ValidSide, p: Point3, col: Color)
    requires ShapeOk(c) && AllWeighted(ToVec(c)) && GetBounds(c).Ok?
    requires ToPoints(c) == [(p, col)]
    ensures var r := Meshing(c, t, valid);
      var e := Env(GetBounds(c).value.1, t, valid, VertexBox(GetBounds(c).value.0));
      && r.Ok?
      && r.value.faces.entries.Keys == (if UnitFaces(e, p) == [] then {} else {col})
      && (col in r.value.faces.entries ==> |r.value.faces.entries[col]| == |UnitFaces(e, p)|)
      && (set q | q in r.value.points) == (set q | q in UnitFaces(e, p))
      && (UnitFaces(e, p) == [] ==> r.value.points == [] && r.value.faces.entries == map[])
  {
    var b := GetBounds(c).value.0;
    var c' := GetBounds(c).value.1;
    var e := Env(c', t, valid, VertexBox(b));
    assert ToPoints(c') == [(p, col)];
    var st := MeshVoxels(e, [(p, col)]);
    assert Meshing(c, t, valid) == Ok(VoxelMesh(VertexBox(b), Offset(c'), st.points, st.faces, Resolution(c')));
    MeshOneVoxel(e, p, col);
  }

  /** The mesh of a single voxel: its corners, under its colour if any. */
  lemma MeshOneVoxel(e: Env, p: Point3, col: Color)
    ensures var s := MeshVoxels(e, [(p, col)]);
      && s.faces.entries.Keys == (if UnitFaces(e, p) == [] then {} else {col})
      && (col in s.faces.entries ==> |s.faces.entries[col]| == |UnitFaces(e, p)|)
      && (set q | q in s.points) == (set q | q in UnitFaces(e, p))
      && (UnitFaces(e, p) == [] ==> s.points == [] && s.faces.entries == map[])
  {
    var pts := [(p, col)];
    assert pts[..0] == [];
    assert MeshVoxels(e, pts) == AddCorners(MeshState([], Empty()), UnitFaces(e, p), col);
  }

  /** Every face of a voxel touches the box of that voxel's own cube. */
  lemma CubeFacesTouchBorder(p: Point3, d: Side)
    ensures TouchesBorder(VertexBox(Bounds(p, p)), p, d)
  {
    var o := Corners(d)[0];
    assert 0 <= o.x <= 1;
    assert OnBorder(VertexBox(Bounds(p, p)), FaceVertices(p, d)[0]);
  }

  /** A point cloud holding one voxel. */
  function Lone(p: Point3, v: Voxel, offset: Point3, resolution: real): Collection {
    PC(PointClouds.PointCloud([Entry(p, v)], None, offset, resolution))
  }

  /** The lone voxel's bounds are its own (offset) point, and after caching
      them the collection still holds exactly that voxel. */
  lemma LoneBounds(p: Point3, v: Voxel, offset: Point3, resolution: real)
    requires v.weight > 0
    ensures var c := Lone(p, v, offset, resolution);
      && AllWeighted(ToVec(c))
      && ToPoints(c) == [(p, DivColor(v.color, v.weight))]
      && GetBounds(c).Ok?
      && GetBounds(c).value.0 == Bounds(Add3(p, offset), Add3(p, offset))
      && forall q :: Has(GetBounds(c).value.1, q) <==> q == p
  {
    var c := Lone(p, v, offset, resolution);
    assert ToVec(c) == [Entry(p, v)];
    var b := GetBounds(c).value.0;
    assert Points(ToVecWithOffset(c)) == [Add3(p, offset)];
    TightBounds3Unique([Add3(p, offset)], b.min, b.max, Add3(p, offset), Add3(p, offset));
  }

  /** Meshing a lone voxel with every side enabled gives one colour (its
      average), six faces (36 indices) and the cube's eight corners. */
  lemma LoneVoxelMesh(p: Point3, v: Voxel, offset: Point3, resolution: real, t: IntRange)
    requires v.weight > 0
    ensures var c := Lone(p, v, offset, resolution);
      var r := Meshing(c, t, AllSides);
      && r.Ok?
      && r.value.faces.entries.Keys == {DivColor(v.color, v.weight)}
      && |r.value.faces.entries[DivColor(v.color, v.weight)]| == 36
      && (set q | q in r.value.points) == CubeCorners(p)
  {
    var c := Lone(p, v, offset, resolution);
    LoneBounds(p, v, offset, resolution);
    var r := Meshing(c, t, AllSides);
    var e := Env(GetBounds(c).value.1, t, AllSides, VertexBox(GetBounds(c).value.0));
    var col := DivColor(v.color, v.weight);
    forall i | 0 <= i < |SideOrder| ensures Keep(e, p, SideOrder[i]) {
      FlagsOf(SideOrder[i]);
      IsolatedKeeps(e, p, SideOrder[i]);
    }
    KeptSidesAll(e, p, SideOrder);
    AllFacesUseCubeCorners(p);
    MeshingOneVoxel(c, t, AllSides, p, col);
  }

  /** Without `BORDER`, a lone voxel at the collection's origin meshes to
      nothing: every face has a corner on the vertex box. */
  lemma LoneVoxelWithoutBorder(p: Point3, v: Voxel, resolution: real, t: IntRange)
    requires v.weight > 0
    ensures var r := Meshing(Lone(p, v, Origin, resolution), t, ValidSide(0x3F));
      r.Ok? && r.value.faces.entries == map[] && r.value.points == []
  {
    var c := Lone(p, v, Origin, resolution);
    LoneBounds(p, v, Origin, resolution);
    var b := GetBounds(c).value.0;
    assert b == Bounds(p, p);
    NoFacesOnOwnBorder(Env(GetBounds(c).value.1, t, ValidSide(0x3F), VertexBox(b)), p);
    MeshingOneVoxel(c, t, ValidSide(0x3F), p, DivColor(v.color, v.weight));
  }

  /** Without `BORDER`, a voxel whose vertex box is its own cube keeps no
      face. */
  lemma NoFacesOnOwnBorder(e: Env, p: Point3)
    requires e.valid == ValidSide(0x3F) && e.box == VertexBox(Bounds(p, p))
    ensures UnitFaces(e, p) == []
  {
    forall i | 0 <= i < |SideOrder| ensures !Keep(e, p, SideOrder[i]) {
      FlagsOf(SideOrder[i]);
      CubeFacesTouchBorder(p, SideOrder[i]);
    }
    KeptSidesNone(e, p, SideOrder);
  }

  /** Every face of the mesh is a kept side (enabled, not hidden, and off the
      border unless `BORDER`) of a voxel of the colour it is listed under. */
  lemma MeshFacesAreKept(c: Collection, t: IntRange, valid: ValidSide, col: Color, k: nat)
    requires ShapeOk(c) && AllWeighted(ToVec(c))
    requires Meshing(c, t, valid).Ok?
    requires var m := Meshing(c, t, valid).value;
      col in m.faces.entries && 6 * k + 6 <= |m.faces.entries[col]|
    ensures var m := Meshing(c, t, valid).value;
      var e := Env(GetBounds(c).value.1, t, valid, m.bounds);
      var pts := ToPoints(c);
      exists i, d :: 0 <= i < |pts| && pts[i].1 == col && Keep(e, pts[i].0, d)
                     && FaceAt(Deref(m.points, m.faces.entries[col]), k) == FaceVertices(pts[i].0, d)
  {
    var m := Meshing(c, t, valid).value;
    var e := Env(GetBounds(c).value.1, t, valid, m.bounds);
    assert Deref(m.points, m.faces.entries[col]) == FacesOfColor(e, ToPoints(c), col);
    FacesOfColorAreKept(e, ToPoints(c), col, k);
  }
}
