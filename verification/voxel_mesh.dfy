/** `VoxelMesh` (src/voxel_mesh.rs, repeated in src/mesh.rs): a vertex
    `IndexSet`, per-colour triangle index lists, and the voxel-space box,
    offset and resolution it came from; and its `simplify`. */
module VoxelMeshes {
  import opened Element
  import opened CollectionCore
  import opened OrderedMaps
  import opened IndexSets

  datatype VoxelMesh = VoxelMesh(
    bounds: Bounds,
    offset: Point3,
    points: seq<Point3>,
    faces: OrderedMap<Color, seq<nat>>,
    resolution: real)

  /** Every index names a vertex of `points`. */
  ghost predicate InRangeIndices(points: seq<Point3>, idx: seq<nat>) {
    forall j :: 0 <= j < |idx| ==> idx[j] < |points|
  }

  /** Vertices are distinct, the colour map is well formed, and every index
      list names vertices of `points`. */
  ghost predicate IndicesValid(points: seq<Point3>, faces: OrderedMap<Color, seq<nat>>) {
    && NoDup(points)
    && Valid(faces)
    && forall col :: col in faces.entries ==> InRangeIndices(points, faces.entries[col])
  }

  /** The vertices an index list names. */
  function Deref(points: seq<Point3>, idx: seq<nat>): (r: seq<Point3>)
    requires InRangeIndices(points, idx)
    ensures |r| == |idx| && forall j :: 0 <= j < |idx| ==> r[j] == points[idx[j]]
  {
    seq(|idx|, j requires 0 <= j < |idx| => points[idx[j]])
  }

  lemma DerefPrefix(points: seq<Point3>, longer: seq<Point3>, idx: seq<nat>)
    requires InRangeIndices(points, idx)
    requires |points| <= |longer| && longer[..|points|] == points
    ensures InRangeIndices(longer, idx) && Deref(longer, idx) == Deref(points, idx)
  {
    forall j | 0 <= j < |idx| ensures longer[idx[j]] == points[idx[j]] {
      assert longer[..|points|][idx[j]] == longer[idx[j]];
    }
  }

  lemma DerefConcat(points: seq<Point3>, a: seq<nat>, b: seq<nat>)
    requires InRangeIndices(points, a) && InRangeIndices(points, b)
    ensures InRangeIndices(points, a + b)
    ensures Deref(points, a + b) == Deref(points, a) + Deref(points, b)
  {
    assert forall j :: 0 <= j < |a + b| ==> (a + b)[j] == if j < |a| then a[j] else b[j - |a|];
  }

  const U32Limit: nat := 0x1_0000_0000

  /** An `as u32` cast: the low 32 bits. */
  function AsU32(i: nat): (r: nat)
    ensures r < U32Limit
    ensures i < U32Limit ==> r == i
  {
    i % U32Limit
  }

  /** `filter_map(|i| i.try_into().ok())` from `usize` to `u32`: indices that
      do not fit are dropped. */
  function ToU32Indices(idx: seq<nat>): (r: seq<nat>)
    ensures forall j :: 0 <= j < |r| ==> r[j] < U32Limit && r[j] in idx
    ensures forall i :: i in idx && i < U32Limit ==> i in r
    ensures |r| <= |idx|
  {
    if idx == [] then []
    else
      var rest := ToU32Indices(idx[1..]);
      assert forall i :: i in idx[1..] ==> i in idx;
      if idx[0] < U32Limit then [idx[0]] + rest else rest
  }

  /** Below the `u32` limit the conversion keeps every index. */
  lemma {:induction false} ToU32IndicesKeepsSmall(idx: seq<nat>)
    requires forall j :: 0 <= j < |idx| ==> idx[j] < U32Limit
    ensures ToU32Indices(idx) == idx
  {
    if idx != [] {
      ToU32IndicesKeepsSmall(idx[1..]);
    }
  }

  /** What `simplify` asks of the decimator (`meshopt::simplify_decoder`, not
      part of this model): every index it returns is one it was given. */
  ghost predicate Decimator(decimate: seq<nat> -> seq<nat>) {
    forall idx: seq<nat>, j :: 0 <= j < |decimate(idx)| ==> decimate(idx)[j] in idx
  }

  /** The vertices colour `col` keeps after decimation, in the old mesh. */
  function KeptCorners(m: VoxelMesh, decimate: seq<nat> -> seq<nat>, col: Color): (r: seq<Point3>)
    requires IndicesValid(m.points, m.faces) && Decimator(decimate) && col in m.faces.entries
    ensures forall j :: 0 <= j < |r| ==> r[j] in m.points
  {
    var idx := decimate(ToU32Indices(m.faces.entries[col]));
    assert InRangeIndices(m.points, idx) by {
      forall j | 0 <= j < |idx| ensures idx[j] < |m.points| {
        assert idx[j] in ToU32Indices(m.faces.entries[col]);
      }
    }
    Deref(m.points, idx)
  }

  /** Interning the vertices `kept` of a colour not yet present. */
  function InternColor(points: seq<Point3>, faces: OrderedMap<Color, seq<nat>>, col: Color, kept: seq<Point3>)
    : (r: (seq<Point3>, OrderedMap<Color, seq<nat>>))
    requires IndicesValid(points, faces) && col !in faces.entries
    ensures IndicesValid(r.0, r.1)
    ensures r.1.entries.Keys == faces.entries.Keys + {col}
    ensures Deref(r.0, r.1.entries[col]) == kept
    ensures forall c :: c in faces.entries ==> Deref(r.0, r.1.entries[c]) == Deref(points, faces.entries[c])
    ensures forall q :: q in r.0 ==> q in points || q in kept
  {
    var ins := InsertAll(points, kept);
    var faces' := OrderedMap(faces.entries[col := ins.1], faces.order + [col]);
    assert Deref(ins.0, ins.1) == kept;
    forall c | c in faces.entries ensures Deref(ins.0, faces'.entries[c]) == Deref(points, faces.entries[c]) {
      DerefPrefix(points, ins.0, faces.entries[c]);
    }
    forall q | q in ins.0 ensures q in points || q in kept {
      assert q in (set x | x in ins.0);
      assert q in (set x | x in points) + (set x | x in kept);
    }
    (ins.0, faces')
  }

  /** `simplify` over the colours `cols` still to process: each colour's
      decimated list is re-interned into the new vertex set. */
  function SimplifyColors(m: VoxelMesh, decimate: seq<nat> -> seq<nat>, cols: seq<Color>,
                          points: seq<Point3>, faces: OrderedMap<Color, seq<nat>>): (r: (seq<Point3>, OrderedMap<Color, seq<nat>>))
    requires IndicesValid(m.points, m.faces) && Decimator(decimate)
    requires forall i :: 0 <= i < |cols| ==> cols[i] in m.faces.entries && cols[i] !in faces.entries
    requires forall i, j :: 0 <= i < j < |cols| ==> cols[i] != cols[j]
    requires IndicesValid(points, faces)
    requires forall col :: col in faces.entries ==> col in m.faces.entries && Deref(points, faces.entries[col]) == KeptCorners(m, decimate, col)
    requires forall q :: q in points ==> q in m.points
    ensures IndicesValid(r.0, r.1)
    ensures forall col :: col in r.1.entries <==> col in faces.entries || col in cols
    ensures forall col :: col in r.1.entries ==> col in m.faces.entries && Deref(r.0, r.1.entries[col]) == KeptCorners(m, decimate, col)
    ensures forall q :: q in r.0 ==> q in m.points
    decreases |cols|
  {
    if cols == [] then (points, faces)
    else
      var next := InternColor(points, faces, cols[0], KeptCorners(m, decimate, cols[0]));
      SimplifyNext(m, decimate, cols, points, faces, next);
      SimplifyColors(m, decimate, cols[1..], next.0, next.1)
  }

  /** After interning the first colour, the remaining colours and the new
      state meet what the next step of `SimplifyColors` asks. */
  lemma SimplifyNext(m: VoxelMesh, decimate: seq<nat> -> seq<nat>, cols: seq<Color>,
                     points: seq<Point3>, faces: OrderedMap<Color, seq<nat>>,
                     next: (seq<Point3>, OrderedMap<Color, seq<nat>>))
    requires IndicesValid(m.points, m.faces) && Decimator(decimate)
    requires cols != []
    requires forall i :: 0 <= i < |cols| ==> cols[i] in m.faces.entries && cols[i] !in faces.entries
    requires forall i, j :: 0 <= i < j < |cols| ==> cols[i] != cols[j]
    requires IndicesValid(points, faces)
    requires forall col :: col in faces.entries ==> col in m.faces.entries && Deref(points, faces.entries[col]) == KeptCorners(m, decimate, col)
    requires forall q :: q in points ==> q in m.points
    requires next == InternColor(points, faces, cols[0], KeptCorners(m, decimate, cols[0]))
    ensures IndicesValid(next.0, next.1)
    ensures next.1.entries.Keys == faces.entries.Keys + {cols[0]}
    ensures forall c :: c in cols <==> c == cols[0] || c in cols[1..]
    ensures forall i :: 0 <= i < |cols[1..]| ==> cols[1..][i] in m.faces.entries && cols[1..][i] !in next.1.entries
    ensures forall i, j :: 0 <= i < j < |cols[1..]| ==> cols[1..][i] != cols[1..][j]
    ensures forall col :: col in next.1.entries ==> col in m.faces.entries && Deref(next.0, next.1.entries[col]) == KeptCorners(m, decimate, col)
    ensures forall q :: q in next.0 ==> q in m.points
  {
    var rest := cols[1..];
    assert forall i :: 0 <= i < |rest| ==> rest[i] == cols[i + 1];
    assert forall c :: c in cols <==> c == cols[0] || c in rest;
    InternStep(m, decimate, points, faces, cols[0], next);
  }

  /** Interning one more colour keeps every interned colour's vertices
      equal to what the decimator kept for it, and adds only old vertices. */
  lemma InternStep(m: VoxelMesh, decimate: seq<nat> -> seq<nat>, points: seq<Point3>,
                   faces: OrderedMap<Color, seq<nat>>, col: Color, next: (seq<Point3>, OrderedMap<Color, seq<nat>>))
    requires IndicesValid(m.points, m.faces) && Decimator(decimate)
    requires col in m.faces.entries && col !in faces.entries && IndicesValid(points, faces)
    requires forall c :: c in faces.entries ==> c in m.faces.entries && Deref(points, faces.entries[c]) == KeptCorners(m, decimate, c)
    requires forall q :: q in points ==> q in m.points
    requires next == InternColor(points, faces, col, KeptCorners(m, decimate, col))
    ensures forall c :: c in next.1.entries ==> c in m.faces.entries && Deref(next.0, next.1.entries[c]) == KeptCorners(m, decimate, c)
    ensures forall q :: q in next.0 ==> q in m.points
  {
    InternKeepsOld(m, decimate, points, col, KeptCorners(m, decimate, col), next.0);
  }

  /** A vertex after interning is an old vertex or a kept one, and both lie
      in the original mesh. */
  lemma InternKeepsOld(m: VoxelMesh, decimate: seq<nat> -> seq<nat>, points: seq<Point3>, col: Color,
                       kept: seq<Point3>, next: seq<Point3>)
    requires IndicesValid(m.points, m.faces) && Decimator(decimate) && col in m.faces.entries
    requires kept == KeptCorners(m, decimate, col)
    requires forall q :: q in points ==> q in m.points
    requires forall q :: q in next ==> q in points || q in kept
    ensures forall q :: q in next ==> q in m.points
  {
    forall q | q in next
      ensures q in m.points
    {
      if q !in points {
        var j :| 0 <= j < |kept| && kept[j] == q;
      }
    }
  }

  /** The colours of a valid mesh, in order, meet what `SimplifyColors`
      asks of its first call. */
  lemma SimplifyStart(m: VoxelMesh)
    requires IndicesValid(m.points, m.faces)
    ensures forall i :: 0 <= i < |m.faces.order| ==> m.faces.order[i] in m.faces.entries
    ensures forall i, j :: 0 <= i < j < |m.faces.order| ==> m.faces.order[i] != m.faces.order[j]
    ensures forall col :: col in m.faces.entries <==> col in m.faces.order
  {
    forall i | 0 <= i < |m.faces.order|
      ensures m.faces.order[i] in m.faces.entries
    {
      assert m.faces.order[i] in (set k | k in m.faces.order);
    }
  }

  /** `simplify`: every colour keeps its entry, its new indices name exactly
      the vertices the decimator kept for it, the new vertex set is drawn from
      the old vertices, and the box, offset and resolution are carried over. */
  function Simplify(m: VoxelMesh, decimate: seq<nat> -> seq<nat>): (r: VoxelMesh)
    requires IndicesValid(m.points, m.faces) && Decimator(decimate)
    ensures IndicesValid(r.points, r.faces)
    ensures r.faces.entries.Keys == m.faces.entries.Keys
    ensures forall col :: col in r.faces.entries ==> Deref(r.points, r.faces.entries[col]) == KeptCorners(m, decimate, col)
    ensures forall q :: q in r.points ==> q in m.points
    ensures r.bounds == m.bounds && r.offset == m.offset && r.resolution == m.resolution
  {
    SimplifyStart(m);
    assert IndicesValid([], Empty());
    var res := SimplifyColors(m, decimate, m.faces.order, [], Empty());
    VoxelMesh(m.bounds, m.offset, res.0, res.1, m.resolution)
  }
}
