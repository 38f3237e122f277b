/** `src/glb_gen.rs`: the layout of the binary glTF (GLB) container built
    from a voxel mesh, after chapter 4 of the Khronos glTF 2.0 specification:
    padding of every array to a multiple of four elements, the lengths and
    offsets of the buffer, its views and the accessors into them, the
    binary chunk they describe, and the GLB header. */
module GlbGen {
  import opened Wrappers
  import opened Element
  import opened CollectionCore
  import opened OrderedMaps
  import opened VoxelMeshes
  import Meshing

  /** `size_of::<Vertex>()` (three `f32`), `size_of::<u32>()` and
      `size_of::<UV>()` (two `f32`). */
  const VertexSize: nat := 12
  const IndexSize: nat := 4
  const UvSize: nat := 8

  // ---------------------------------------------------------------------------
  // Padding
  // ---------------------------------------------------------------------------

  /** `round_up_to_mul_of_four`: the next multiple of four, `n` itself when
      it is one. */
  function RoundUpToMulOfFour(n: nat): (r: nat)
    ensures r % 4 == 0 && n <= r < n + 4
    ensures r == n <==> n % 4 == 0
  {
    var remainder := n % 4;
    if remainder == 0 then n else n + 4 - remainder
  }

  /** No multiple of four at least `n` is smaller than the rounded value. */
  lemma RoundUpIsLeast(n: nat, m: nat)
    requires m % 4 == 0 && n <= m
    ensures RoundUpToMulOfFour(n) <= m
  {
  }

  /** `pad_to_mul_of_four`: the elements followed by as many default values
      as make the length a multiple of four. */
  function PadToMulOfFour<T>(v: seq<T>, default: T): (r: seq<T>)
    ensures |r| == RoundUpToMulOfFour(|v|)
    ensures r[..|v|] == v
    ensures forall i :: |v| <= i < |r| ==> r[i] == default
  {
    var remainder := |v| % 4;
    if remainder != 0 then v + seq(4 - remainder, _ => default) else v
  }

  /** Padding is the only extension of `v` by default values whose length is
      a multiple of four and that adds fewer than four elements. */
  lemma PadIsUnique<T>(v: seq<T>, default: T, w: seq<T>)
    requires |v| <= |w| < |v| + 4 && |w| % 4 == 0
    requires w[..|v|] == v && forall i :: |v| <= i < |w| ==> w[i] == default
    ensures w == PadToMulOfFour(v, default)
  {
    var p := PadToMulOfFour(v, default);
    RoundUpIsLeast(|v|, |w|);
    RoundUpIsLeast(|v|, |p|);
    assert |p| == |w|;
    forall i | 0 <= i < |w| ensures w[i] == p[i] {
      if i < |v| {
        assert w[..|v|][i] == p[..|v|][i];
      }
    }
  }

  // ---------------------------------------------------------------------------
  // Vertices and indices
  // ---------------------------------------------------------------------------

  /** A vertex in glTF's axes (y up). */
  datatype GlbVertex = GlbVertex(x: int, y: int, z: int)

  function FromGlbAxes(v: GlbVertex): Point3 {
    Point3(v.x, -v.z, v.y)
  }

  /** `Vertex([x, z, -y])`: the voxel axes turned into glTF's; no information
      is lost. */
  function ToGlbAxes(p: Point3): (r: GlbVertex)
    ensures FromGlbAxes(r) == p
  {
    GlbVertex(p.x, p.z, -p.y)
  }

  // ---------------------------------------------------------------------------
  // The binary chunk
  // ---------------------------------------------------------------------------

  /** What the binary chunk stores: vertices, `u32` indices, texture
      coordinates (of a vertex, or the zero default used as padding) and raw
      texture bytes. */
  datatype Item = Position(v: GlbVertex) | Index(i: nat) | TexCoord(point: Option<nat>) | Raw(b: nat)

  /** Byte `k` of an item's in-memory representation
      (`convert_to_byte_vec` reinterprets the elements' memory; the encoding
      of each value is not modelled). */
  datatype Byte = Byte(item: Item, k: nat)

  function ItemBytes(it: Item, size: nat): (r: seq<Byte>)
    ensures |r| == size && forall k :: 0 <= k < size ==> r[k] == Byte(it, k)
  {
    seq(size, k requires 0 <= k < size => Byte(it, k))
  }

  /** `convert_to_byte_vec`: each element as `size` consecutive bytes. */
  function Encode(items: seq<Item>, size: nat): (r: seq<Byte>)
    ensures |r| == |items| * size
  {
    if items == [] then []
    else Encode(items[..|items| - 1], size) + ItemBytes(items[|items| - 1], size)
  }

  /** The `size` bytes of element `j` of an array stored from byte `base`. */
  function ElementAt(bin: seq<Byte>, base: nat, size: nat, j: nat): seq<Byte>
    requires base + size * j + size <= |bin|
  {
    bin[base + size * j .. base + size * j + size]
  }

  /** Reading element `j` back from an encoded array gives element `j`. */
  lemma {:induction false} EncodeElement(items: seq<Item>, size: nat, j: nat)
    requires j < |items|
    ensures size * j + size <= |Encode(items, size)|
    ensures ElementAt(Encode(items, size), 0, size, j) == ItemBytes(items[j], size)
  {
    var init := items[..|items| - 1];
    var e := Encode(items, size);
    assert e == Encode(init, size) + ItemBytes(items[|items| - 1], size);
    if j < |init| {
      EncodeElement(init, size, j);
      MulMono(size, j + 1, |init|);
      assert e[size * j .. size * j + size] == Encode(init, size)[size * j .. size * j + size];
    } else {
      assert size * j == |Encode(init, size)|;
    }
  }

  lemma MulMono(a: nat, b: nat, c: nat)
    requires b <= c
    ensures a * b <= a * c
  {
  }

  lemma ElementInPrefix(a: seq<Byte>, b: seq<Byte>, base: nat, size: nat, j: nat)
    requires base + size * j + size <= |a|
    ensures ElementAt(a + b, base, size, j) == ElementAt(a, base, size, j)
  {
    assert (a + b)[base + size * j .. base + size * j + size] == a[base + size * j .. base + size * j + size];
  }

  lemma ElementInSuffix(a: seq<Byte>, b: seq<Byte>, base: nat, size: nat, j: nat)
    requires base + size * j + size <= |b|
    ensures ElementAt(a + b, |a| + base, size, j) == ElementAt(b, base, size, j)
  {
    assert (a + b)[|a| + base + size * j .. |a| + base + size * j + size] == b[base + size * j .. base + size * j + size];
  }

  /** The `u32` indices of one list. */
  function IndexItems(ids: seq<nat>): (r: seq<Item>)
    ensures |r| == |ids| && forall j :: 0 <= j < |ids| ==> r[j] == Index(AsU32(ids[j]))
  {
    seq(|ids|, j requires 0 <= j < |ids| => Index(AsU32(ids[j])))
  }

  /** The vertices in glTF's axes. */
  function VertexItems(points: seq<Point3>): (r: seq<Item>)
    ensures |r| == |points| && forall j :: 0 <= j < |points| ==> r[j] == Position(ToGlbAxes(points[j]))
  {
    seq(|points|, j requires 0 <= j < |points| => Position(ToGlbAxes(points[j])))
  }

  /** `Vertex::default()` and `u32::default()`. */
  const ZeroVertex := Position(GlbVertex(0, 0, 0))
  const ZeroIndex := Index(0)

  /** The vertex bytes: the padded vertices. */
  function VertexBytes(points: seq<Point3>): (r: seq<Byte>)
    ensures |r| == RoundUpToMulOfFour(|points|) * VertexSize
  {
    Encode(PadToMulOfFour(VertexItems(points), ZeroVertex), VertexSize)
  }

  /** Vertex `j` is stored at bytes `12 j` to `12 j + 12`. */
  lemma VertexBytesElement(points: seq<Point3>, j: nat)
    requires j < |points|
    ensures VertexSize * j + VertexSize <= |VertexBytes(points)|
    ensures ElementAt(VertexBytes(points), 0, VertexSize, j) == ItemBytes(Position(ToGlbAxes(points[j])), VertexSize)
  {
    PaddedElement(VertexItems(points), ZeroVertex, VertexSize, j);
  }

  /** Padding keeps element `j` where encoding puts it. */
  lemma PaddedElement(items: seq<Item>, default: Item, size: nat, j: nat)
    requires j < |items|
    ensures size * j + size <= |Encode(PadToMulOfFour(items, default), size)|
    ensures ElementAt(Encode(PadToMulOfFour(items, default), size), 0, size, j) == ItemBytes(items[j], size)
  {
    var padded := PadToMulOfFour(items, default);
    assert padded[j] == padded[..|items|][j];
    EncodeElement(padded, size, j);
  }

  // ---------------------------------------------------------------------------
  // from_voxel_mesh
  // ---------------------------------------------------------------------------

  function Sum(xs: seq<nat>): nat {
    if xs == [] then 0 else Sum(xs[..|xs| - 1]) + xs[|xs| - 1]
  }

  lemma SumStep(xs: seq<nat>, i: nat)
    requires i < |xs|
    ensures Sum(xs[..i + 1]) == Sum(xs[..i]) + xs[i]
  {
    assert xs[..i + 1][..i] == xs[..i];
  }

  /** A prefix sums to no more than a longer prefix. */
  lemma {:induction false} SumPrefixMono(xs: seq<nat>, i: nat, j: nat)
    requires i <= j <= |xs|
    ensures Sum(xs[..i]) <= Sum(xs[..j])
  {
    if i < j {
      SumPrefixMono(xs, i, j - 1);
      SumStep(xs, j - 1);
    }
  }

  /** The index lists of the mesh's colours, in iteration order. */
  function FaceLists(m: VoxelMesh): (r: seq<seq<nat>>)
    requires Valid(m.faces)
    ensures |r| == |m.faces.order|
    ensures forall i :: 0 <= i < |r| ==> r[i] == m.faces.entries[m.faces.order[i]]
  {
    var items := Items(m.faces);
    seq(|items|, i requires 0 <= i < |items| => items[i].1)
  }

  /** `padded_indices_length`: each list's padded byte length. */
  function PaddedIndexLengths(lists: seq<seq<nat>>): (r: seq<nat>)
    ensures |r| == |lists| && forall i :: 0 <= i < |lists| ==> r[i] == RoundUpToMulOfFour(|lists[i]|) * IndexSize
  {
    seq(|lists|, i requires 0 <= i < |lists| => RoundUpToMulOfFour(|lists[i]|) * IndexSize)
  }

  /** The index bytes: each list, as `u32`, padded, one after the other. */
  function IndexChunks(lists: seq<seq<nat>>): (r: seq<Byte>)
    ensures |r| == Sum(PaddedIndexLengths(lists))
  {
    if lists == [] then []
    else
      var init := lists[..|lists| - 1];
      assert PaddedIndexLengths(lists)[..|init|] == PaddedIndexLengths(init);
      IndexChunks(init) + Encode(PadToMulOfFour(IndexItems(lists[|lists| - 1]), ZeroIndex), IndexSize)
  }

  /** Index `j` of list `i` is stored after the padded lists before it. */
  lemma {:induction false} IndexChunksElement(lists: seq<seq<nat>>, i: nat, j: nat)
    requires i < |lists| && j < |lists[i]|
    ensures Sum(PaddedIndexLengths(lists)[..i]) + IndexSize * j + IndexSize <= |IndexChunks(lists)|
    ensures ElementAt(IndexChunks(lists), Sum(PaddedIndexLengths(lists)[..i]), IndexSize, j)
         == ItemBytes(Index(AsU32(lists[i][j])), IndexSize)
  {
    if i < |lists| - 1 {
      IndexChunksElement(lists[..|lists| - 1], i, j);
      IndexChunksEarlier(lists, i, j);
    } else {
      IndexChunksLast(lists, j);
    }
  }

  /** The split of the index bytes into those of all lists but the last,
      and those of the last. */
  lemma IndexChunksSnoc(lists: seq<seq<nat>>)
    requires lists != []
    ensures PaddedIndexLengths(lists)[..|lists| - 1] == PaddedIndexLengths(lists[..|lists| - 1])
    ensures IndexChunks(lists) == IndexChunks(lists[..|lists| - 1])
      + Encode(PadToMulOfFour(IndexItems(lists[|lists| - 1]), ZeroIndex), IndexSize)
  {
  }

  lemma IndexChunksEarlier(lists: seq<seq<nat>>, i: nat, j: nat)
    requires i < |lists| - 1 && j < |lists[i]|
    requires var init := lists[..|lists| - 1];
      && Sum(PaddedIndexLengths(init)[..i]) + IndexSize * j + IndexSize <= |IndexChunks(init)|
      && ElementAt(IndexChunks(init), Sum(PaddedIndexLengths(init)[..i]), IndexSize, j)
         == ItemBytes(Index(AsU32(init[i][j])), IndexSize)
    ensures Sum(PaddedIndexLengths(lists)[..i]) + IndexSize * j + IndexSize <= |IndexChunks(lists)|
    ensures ElementAt(IndexChunks(lists), Sum(PaddedIndexLengths(lists)[..i]), IndexSize, j)
         == ItemBytes(Index(AsU32(lists[i][j])), IndexSize)
  {
    var init := lists[..|lists| - 1];
    IndexChunksSnoc(lists);
    var padded := PaddedIndexLengths(lists);
    assert padded[..i] == PaddedIndexLengths(init)[..i];
    assert init[i] == lists[i];
    ElementInPrefix(IndexChunks(init), Encode(PadToMulOfFour(IndexItems(lists[|lists| - 1]), ZeroIndex), IndexSize),
      Sum(padded[..i]), IndexSize, j);
  }

  lemma IndexChunksLast(lists: seq<seq<nat>>, j: nat)
    requires lists != [] && j < |lists[|lists| - 1]|
    ensures Sum(PaddedIndexLengths(lists)[..|lists| - 1]) + IndexSize * j + IndexSize <= |IndexChunks(lists)|
    ensures ElementAt(IndexChunks(lists), Sum(PaddedIndexLengths(lists)[..|lists| - 1]), IndexSize, j)
         == ItemBytes(Index(AsU32(lists[|lists| - 1][j])), IndexSize)
  {
    var init, last := lists[..|lists| - 1], lists[|lists| - 1];
    IndexChunksSnoc(lists);
    var items := PadToMulOfFour(IndexItems(last), ZeroIndex);
    assert items[j] == items[..|last|][j];
    EncodeElement(items, IndexSize, j);
    ElementInSuffix(IndexChunks(init), Encode(items, IndexSize), 0, IndexSize, j);
  }

  datatype View = View(offset: nat, length: nat)

  /** An accessor: its byte offset within its view and its element count. */
  datatype Accessor = Accessor(offset: nat, count: nat)

  datatype Header = Header(magic: string, version: nat, length: nat)

  const Magic := "glTF"
  const TooLarge := "file size exceeds binary glTF limit"

  /** What `from_voxel_mesh` fixes of the GLB: the header, the buffer, its
      vertex and index views, the positions accessor with its bounds, one
      index accessor per colour, and the binary chunk.  The JSON itself is
      serialised by the `gltf` crate; only its length enters the layout. */
  datatype MeshGlb = MeshGlb(
    header: Header,
    jsonLength: nat,
    bufferLength: nat,
    vertexView: View,
    indexView: View,
    positions: Accessor,
    positionMin: GlbVertex,
    positionMax: GlbVertex,
    indexAccessors: seq<Accessor>,
    bin: seq<Byte>)

  /** `buffer_length`: the padded vertex bytes and the padded bytes of every
      index list. */
  function MeshBufferLength(m: VoxelMesh): nat
    requires Valid(m.faces)
  {
    RoundUpToMulOfFour(|m.points|) * VertexSize + Sum(PaddedIndexLengths(FaceLists(m)))
  }

  /** `GlbGen::from_voxel_mesh` (with the accessor bounds in glTF's axes):
      fails exactly when the total length does not fit in a `u32`; the
      header's length is the padded JSON plus the binary chunk, which is
      exactly `buffer_length` bytes; the vertex view starts the buffer and
      the index view follows it; the index accessors sit at the running sum
      of the padded list lengths, 16-byte aligned and each inside its own
      padded slot; and the positions accessor's bounds contain every vertex
      inside the mesh box. */
  function FromVoxelMesh(m: VoxelMesh, jsonLength: nat): (r: Result<MeshGlb, string>)
    requires Valid(m.faces)
    ensures r.Err? <==> RoundUpToMulOfFour(jsonLength) + MeshBufferLength(m) >= U32Limit
    ensures r.Err? ==> r.error == TooLarge
    ensures r.Ok? ==>
      && r.value.header == Header(Magic, 2, RoundUpToMulOfFour(jsonLength) + |r.value.bin|)
      && |r.value.bin| == r.value.bufferLength == r.value.vertexView.length + r.value.indexView.length
      && r.value.vertexView == View(0, RoundUpToMulOfFour(|m.points|) * VertexSize)
      && r.value.indexView.offset == r.value.vertexView.length
      && r.value.positions == Accessor(0, |m.points|)
      && |r.value.indexAccessors| == |m.faces.order|
      && (r.value.positionMin, r.value.positionMax) == PositionBounds(m.bounds)
  {
    var lists := FaceLists(m);
    var padded := PaddedIndexLengths(lists);
    var vertexLength := RoundUpToMulOfFour(|m.points|) * VertexSize;
    var bufferLength := vertexLength + Sum(padded);
    var accessors := seq(|lists|, i requires 0 <= i < |lists| => Accessor(Sum(padded[..i]), |lists[i]|));
    var bin := VertexBytes(m.points) + IndexChunks(lists);
    var length := RoundUpToMulOfFour(jsonLength) + bufferLength;
    if length < U32Limit then
      var (lo, hi) := PositionBounds(m.bounds);
      Ok(MeshGlb(Header(Magic, 2, length), jsonLength, bufferLength, View(0, vertexLength), View(vertexLength, Sum(padded)),
                 Accessor(0, |m.points|), lo, hi, accessors, bin))
    else
      Err(TooLarge)
  }

  /** Each list's accessor offset is a multiple of 16 and the list fits in
      its padded slot, inside the index view. */
  lemma AccessorsInSlots(lists: seq<seq<nat>>)
    ensures forall i :: 0 <= i < |lists| ==>
      && Sum(PaddedIndexLengths(lists)[..i]) % 16 == 0
      && Sum(PaddedIndexLengths(lists)[..i]) + IndexSize * |lists[i]| <= Sum(PaddedIndexLengths(lists))
  {
    var padded := PaddedIndexLengths(lists);
    forall k | 0 <= k < |padded| ensures padded[k] % 16 == 0 {
      PaddedIndexBytes(|lists[k]|);
    }
    forall i | 0 <= i < |lists|
      ensures Sum(padded[..i]) % 16 == 0
      ensures Sum(padded[..i]) + IndexSize * |lists[i]| <= Sum(padded)
    {
      SumOfSixteens(padded, i);
      SumStep(padded, i);
      SumPrefixMono(padded, i + 1, |padded|);
      assert padded[..|padded|] == padded;
    }
  }

  /** A sum of multiples of 16 is one. */
  lemma {:induction false} SumOfSixteens(xs: seq<nat>, i: nat)
    requires forall k :: 0 <= k < |xs| ==> xs[k] % 16 == 0
    requires i <= |xs|
    ensures Sum(xs[..i]) % 16 == 0
  {
    if i > 0 {
      SumOfSixteens(xs, i - 1);
      SumStep(xs, i - 1);
    }
  }

  /** Four bytes per index times a multiple of four elements. */
  lemma PaddedIndexBytes(n: nat)
    ensures (RoundUpToMulOfFour(n) * IndexSize) % 16 == 0
  {
    var q := RoundUpToMulOfFour(n) / 4;
    assert RoundUpToMulOfFour(n) == 4 * q;
    assert RoundUpToMulOfFour(n) * IndexSize == 16 * q;
  }

  /** The binary chunk holds vertex `j` at byte `12 j` of the vertex view. */
  lemma MeshGlbVertex(m: VoxelMesh, jsonLength: nat, j: nat)
    requires Valid(m.faces) && FromVoxelMesh(m, jsonLength).Ok? && j < |m.points|
    ensures var g := FromVoxelMesh(m, jsonLength).value;
      && g.vertexView.offset + VertexSize * j + VertexSize <= |g.bin|
      && ElementAt(g.bin, g.vertexView.offset, VertexSize, j) == ItemBytes(Position(ToGlbAxes(m.points[j])), VertexSize)
  {
    var g := FromVoxelMesh(m, jsonLength).value;
    var lists := FaceLists(m);
    assert g.bin == VertexBytes(m.points) + IndexChunks(lists);
    VertexBytesElement(m.points, j);
    ElementInPrefix(VertexBytes(m.points), IndexChunks(lists), 0, VertexSize, j);
  }

  /** Index accessor `i` reads, at its offset in the index view, exactly the
      `u32` indices of the `i`-th colour's list. */
  lemma MeshGlbIndex(m: VoxelMesh, jsonLength: nat, g: MeshGlb, i: nat, j: nat)
    requires Valid(m.faces) && FromVoxelMesh(m, jsonLength) == Ok(g)
    requires i < |g.indexAccessors| && j < g.indexAccessors[i].count
    ensures g.indexView.offset + g.indexAccessors[i].offset + IndexSize * j + IndexSize <= |g.bin|
    ensures ElementAt(g.bin, g.indexView.offset + g.indexAccessors[i].offset, IndexSize, j)
         == ItemBytes(Index(AsU32(m.faces.entries[m.faces.order[i]][j])), IndexSize)
  {
    MeshGlbParts(m, jsonLength, i);
    BinIndexElement(g.bin, VertexBytes(m.points), FaceLists(m), i, j, g.indexView.offset + g.indexAccessors[i].offset,
                    m.faces.entries[m.faces.order[i]][j]);
  }

  /** The binary chunk is the vertex bytes followed by the index chunks, and
      accessor `i` starts after the padded lists before it. */
  lemma MeshGlbParts(m: VoxelMesh, jsonLength: nat, i: nat)
    requires Valid(m.faces) && FromVoxelMesh(m, jsonLength).Ok?
    requires i < |FromVoxelMesh(m, jsonLength).value.indexAccessors|
    ensures var g := FromVoxelMesh(m, jsonLength).value;
      && g.bin == VertexBytes(m.points) + IndexChunks(FaceLists(m))
      && g.indexView.offset == |VertexBytes(m.points)|
      && g.indexAccessors[i].offset == Sum(PaddedIndexLengths(FaceLists(m))[..i])
  {
  }

  lemma BinIndexElement(bin: seq<Byte>, vb: seq<Byte>, lists: seq<seq<nat>>, i: nat, j: nat, base: nat, id: nat)
    requires i < |lists| && j < |lists[i]| && id == lists[i][j] && bin == vb + IndexChunks(lists)
    requires base == |vb| + Sum(PaddedIndexLengths(lists)[..i])
    ensures base + IndexSize * j + IndexSize <= |bin|
    ensures ElementAt(bin, base, IndexSize, j) == ItemBytes(Index(AsU32(id)), IndexSize)
  {
    var chunks := IndexChunks(lists);
    var off := Sum(PaddedIndexLengths(lists)[..i]);
    IndexChunksElement(lists, i, j);
    SuffixElement(bin, vb, chunks, off, base, IndexSize, j);
  }

  lemma SuffixElement(bin: seq<Byte>, a: seq<Byte>, b: seq<Byte>, off: nat, base: nat, size: nat, j: nat)
    requires bin == a + b && base == |a| + off && off + size * j + size <= |b|
    ensures base + size * j + size <= |bin|
    ensures ElementAt(bin, base, size, j) == ElementAt(b, off, size, j)
  {
    ElementInSuffix(a, b, off, size, j);
  }

  /** Accessor `i`'s indices end before accessor `i'` (`i < i'`) begins: the
      accessors are ordered and do not overlap. */
  lemma MeshGlbAccessorsDisjoint(m: VoxelMesh, jsonLength: nat, i: nat, i': nat)
    requires Valid(m.faces) && FromVoxelMesh(m, jsonLength).Ok?
    requires i < i' < |FromVoxelMesh(m, jsonLength).value.indexAccessors|
    ensures var a := FromVoxelMesh(m, jsonLength).value.indexAccessors;
      a[i].offset + IndexSize * a[i].count <= a[i'].offset
  {
    var a := FromVoxelMesh(m, jsonLength).value.indexAccessors;
    var lists := FaceLists(m);
    var padded := PaddedIndexLengths(lists);
    assert a[i].offset == Sum(padded[..i]) && a[i'].offset == Sum(padded[..i']);
    SumStep(padded, i);
    SumPrefixMono(padded, i + 1, i');
  }

  /** Index accessor `i` counts the `i`-th colour's indices, starts on a
      16-byte boundary and ends inside the index view. */
  lemma MeshGlbAccessorSlot(m: VoxelMesh, jsonLength: nat, i: nat)
    requires Valid(m.faces) && FromVoxelMesh(m, jsonLength).Ok?
    requires i < |FromVoxelMesh(m, jsonLength).value.indexAccessors|
    ensures var g := FromVoxelMesh(m, jsonLength).value;
      && g.indexAccessors[i].count == |m.faces.entries[m.faces.order[i]]|
      && g.indexAccessors[i].offset % 16 == 0
      && g.indexAccessors[i].offset + IndexSize * g.indexAccessors[i].count <= g.indexView.length
  {
    AccessorsInSlots(FaceLists(m));
  }

  // ---------------------------------------------------------------------------
  // The positions accessor's bounds
  // ---------------------------------------------------------------------------

  predicate WithinBox(lo: GlbVertex, hi: GlbVertex, v: GlbVertex) {
    lo.x <= v.x <= hi.x && lo.y <= v.y <= hi.y && lo.z <= v.z <= hi.z
  }

  /** The positions accessor's `min`/`max` as the source writes them: the
      mesh box's corners in voxel axes, although the vertices are written in
      glTF's axes. */
  function PositionBoundsAsWritten(b: Bounds): (r: (GlbVertex, GlbVertex))
    ensures r.0.x == b.min.x && r.0.y == b.min.y && r.0.z == b.min.z
    ensures r.1.x == b.max.x && r.1.y == b.max.y && r.1.z == b.max.z
  {
    (GlbVertex(b.min.x, b.min.y, b.min.z), GlbVertex(b.max.x, b.max.y, b.max.z))
  }

  /** The box of the mesh box turned into glTF's axes: it contains every
      turned point of the mesh box, and its corners are turned corners of
      the mesh box, so no smaller box does. */
  function PositionBounds(b: Bounds): (r: (GlbVertex, GlbVertex))
    ensures forall q :: InBounds(b, q) ==> WithinBox(r.0, r.1, ToGlbAxes(q))
    ensures r.0 == ToGlbAxes(Point3(b.min.x, b.max.y, b.min.z))
    ensures r.1 == ToGlbAxes(Point3(b.max.x, b.min.y, b.max.z))
  {
    (GlbVertex(b.min.x, b.min.z, -b.max.y), GlbVertex(b.max.x, b.max.z, -b.min.y))
  }

  /** A vertex on the mesh box's corner `(min.x, max.y, min.z)` becomes the
      glTF vertex `(min.x, min.z, -max.y)`: outside the bounds as written as
      soon as `-max.y < min.z`, and inside the bounds in glTF's axes. */
  lemma PositionBoundsAsWrittenMissCorner(b: Bounds)
    requires Below3(b.min, b.max) && -b.max.y < b.min.z
    ensures var corner := Point3(b.min.x, b.max.y, b.min.z);
      && InBounds(b, corner)
      && !WithinBox(PositionBoundsAsWritten(b).0, PositionBoundsAsWritten(b).1, ToGlbAxes(corner))
      && WithinBox(PositionBounds(b).0, PositionBounds(b).1, ToGlbAxes(corner))
  {
  }

  /** Meshing a lone voxel `p` (no offset) gives the box from `p` to
      `p + (1, 1, 1)` and the cube's corner `p + (0, 1, 0)` among its vertices.
      When `p.y + 1 > -p.z` (the voxel at the origin, say) that vertex lies
      outside the positions bounds as written and inside the corrected ones. */
  lemma PositionBoundsAsWrittenMissVertex(p: Point3, v: Voxel, offset: Point3, resolution: real, t: IntRange)
    requires v.weight > 0 && offset == Origin && -(p.y + 1) < p.z
    ensures var r := Meshing.Meshing(Meshing.Lone(p, v, offset, resolution), t, Meshing.AllSides);
      var q := Add3(p, Point3(0, 1, 0));
      && r.Ok?
      && q in r.value.points
      && InBounds(r.value.bounds, q)
      && !WithinBox(PositionBoundsAsWritten(r.value.bounds).0, PositionBoundsAsWritten(r.value.bounds).1, ToGlbAxes(q))
      && WithinBox(PositionBounds(r.value.bounds).0, PositionBounds(r.value.bounds).1, ToGlbAxes(q))
  {
    var r := Meshing.Meshing(Meshing.Lone(p, v, offset, resolution), t, Meshing.AllSides);
    LoneMeshCorner(p, v, offset, resolution, t);
    assert r.value.bounds == Bounds(p, Add3(p, Point3(1, 1, 1)));
    PositionBoundsAsWrittenMissCorner(r.value.bounds);
  }

  lemma LoneMeshCorner(p: Point3, v: Voxel, offset: Point3, resolution: real, t: IntRange)
    requires v.weight > 0 && offset == Origin
    ensures var r := Meshing.Meshing(Meshing.Lone(p, v, offset, resolution), t, Meshing.AllSides);
      && r.Ok?
      && r.value.bounds == Bounds(p, Add3(p, Point3(1, 1, 1)))
      && Add3(p, Point3(0, 1, 0)) in r.value.points
  {
    Meshing.LoneBounds(p, v, offset, resolution);
    Meshing.LoneVoxelMesh(p, v, offset, resolution, t);
    var r := Meshing.Meshing(Meshing.Lone(p, v, offset, resolution), t, Meshing.AllSides);
    assert Add3(p, Point3(0, 1, 0)) in (set q | q in r.value.points);
  }

  // ---------------------------------------------------------------------------
  // from_voxel_mesh_with_texture_projected_z
  // ---------------------------------------------------------------------------

  datatype Mime = ImageJpeg | ImagePng

  /** The MIME type a string names, if any. */
  function MimeOf(s: string): Option<Mime> {
    if s == "image/jpeg" then Some(ImageJpeg)
    else if s == "image/png" then Some(ImagePng)
    else None
  }

  /** The image's `mime_type`: a name that names this type back. */
  function MimeType(m: Mime): (r: string)
    ensures MimeOf(r) == Some(m)
  {
    match m
    case ImageJpeg => "image/jpeg"
    case ImagePng => "image/png"
  }

  /** The texture: its bytes (embedded in the buffer when given), its URI and
      its MIME type. */
  datatype TextureInfo = TextureInfo(buf: Option<seq<nat>>, uri: Option<string>, mime: Mime)

  datatype TexturedGlb = TexturedGlb(
    header: Header,
    jsonLength: nat,
    bufferLength: nat,
    vertexView: View,
    indexView: View,
    uvView: View,
    textureView: Option<View>,
    positions: Accessor,
    indices: Accessor,
    uvs: Accessor,
    mimeType: string,
    uri: Option<string>,
    bin: seq<Byte>)

  /** Every colour's indices, one list after the other. */
  function Flatten(lists: seq<seq<nat>>): (r: seq<nat>)
    ensures |r| == SumLengths(lists)
  {
    if lists == [] then [] else Flatten(lists[..|lists| - 1]) + lists[|lists| - 1]
  }

  function SumLengths(lists: seq<seq<nat>>): nat {
    if lists == [] then 0 else SumLengths(lists[..|lists| - 1]) + |lists[|lists| - 1]|
  }

  /** One texture coordinate per vertex. */
  function UvItems(n: nat): (r: seq<Item>)
    ensures |r| == n && forall j :: 0 <= j < n ==> r[j] == TexCoord(Some(j))
  {
    seq(n, j requires 0 <= j < n => TexCoord(Some(j)))
  }

  function TextureBytes(t: TextureInfo): (r: seq<Byte>)
    ensures |r| == if t.buf.Some? then |t.buf.value| else 0
  {
    match t.buf
    case Some(buf) => Encode(seq(|buf|, k requires 0 <= k < |buf| => Raw(buf[k])), 1)
    case None => []
  }

  /** `buffer_length` of the textured variant: the padded vertices, the
      padded flattened indices, the padded texture coordinates and the
      texture bytes. */
  function TexturedBufferLength(m: VoxelMesh, t: TextureInfo): nat
    requires Valid(m.faces)
  {
    RoundUpToMulOfFour(|m.points|) * VertexSize + RoundUpToMulOfFour(SumLengths(FaceLists(m))) * IndexSize
      + RoundUpToMulOfFour(|m.points|) * UvSize + (if t.buf.Some? then |t.buf.value| else 0)
  }

  /** `GlbGen::from_voxel_mesh_with_texture_projected_z`: the vertex,
      index, texture-coordinate and (when the texture has bytes) texture
      views follow each other without gaps and end where the buffer ends;
      the binary chunk is exactly `buffer_length` bytes; the header's length
      is the padded JSON plus the chunk, and too large a total is an error;
      the image names the texture's MIME type and URI. */
  function FromVoxelMeshWithTexture(m: VoxelMesh, t: TextureInfo, jsonLength: nat): (r: Result<TexturedGlb, string>)
    requires Valid(m.faces)
    ensures r.Err? <==> RoundUpToMulOfFour(jsonLength) + TexturedBufferLength(m, t) >= U32Limit
    ensures r.Err? ==> r.error == TooLarge
    ensures r.Ok? ==>
      var g := r.value;
      && g.header == Header(Magic, 2, RoundUpToMulOfFour(jsonLength) + |g.bin|)
      && g.header.length < U32Limit
      && g.vertexView == View(0, RoundUpToMulOfFour(|m.points|) * VertexSize)
      && g.indexView == View(g.vertexView.offset + g.vertexView.length, RoundUpToMulOfFour(g.indices.count) * IndexSize)
      && g.uvView == View(g.indexView.offset + g.indexView.length, RoundUpToMulOfFour(|m.points|) * UvSize)
      && (g.textureView.Some? <==> t.buf.Some?)
      && (t.buf.Some? ==> g.textureView == Some(View(g.uvView.offset + g.uvView.length, |t.buf.value|)))
      && g.bufferLength == g.uvView.offset + g.uvView.length + (if t.buf.Some? then |t.buf.value| else 0)
      && |g.bin| == g.bufferLength
      && g.indices.count == SumLengths(FaceLists(m))
      && g.positions.count == g.uvs.count == |m.points|
      && g.mimeType == MimeType(t.mime) && g.uri == t.uri
  {
    var flat := Flatten(FaceLists(m));
    var vertexLength := RoundUpToMulOfFour(|m.points|) * VertexSize;
    var indexLength := RoundUpToMulOfFour(|flat|) * IndexSize;
    var uvLength := RoundUpToMulOfFour(|m.points|) * UvSize;
    var textureLength := if t.buf.Some? then |t.buf.value| else 0;
    var bufferLength := vertexLength + indexLength + uvLength + textureLength;
    var bin := VertexBytes(m.points)
      + Encode(PadToMulOfFour(IndexItems(flat), ZeroIndex), IndexSize)
      + Encode(PadToMulOfFour(UvItems(|m.points|), TexCoord(None)), UvSize)
      + TextureBytes(t);
    var textureView := if t.buf.Some? then Some(View(vertexLength + indexLength + uvLength, textureLength)) else None;
    var length := RoundUpToMulOfFour(jsonLength) + bufferLength;
    if length < U32Limit then
      Ok(TexturedGlb(Header(Magic, 2, length), jsonLength, bufferLength,
        View(0, vertexLength), View(vertexLength, indexLength), View(vertexLength + indexLength, uvLength), textureView,
        Accessor(0, |m.points|), Accessor(0, |flat|), Accessor(0, |m.points|), MimeType(t.mime), t.uri, bin))
    else
      Err(TooLarge)
  }

  /** Index `j` of list `i` sits in the flattened list after the lists
      before it. */
  lemma {:induction false} FlattenElement(lists: seq<seq<nat>>, i: nat, j: nat)
    requires i < |lists| && j < |lists[i]|
    ensures SumLengths(lists[..i]) + j < |Flatten(lists)|
    ensures Flatten(lists)[SumLengths(lists[..i]) + j] == lists[i][j]
  {
    var init := lists[..|lists| - 1];
    assert Flatten(lists) == Flatten(init) + lists[|lists| - 1];
    if i < |lists| - 1 {
      FlattenElement(init, i, j);
      assert init[..i] == lists[..i];
    } else {
      assert lists[..i] == init;
    }
  }

  /** The binary chunk of the textured variant: vertices, flattened indices,
      texture coordinates, each encoded and padded, then the texture bytes. */
  lemma TexturedParts(m: VoxelMesh, t: TextureInfo, jsonLength: nat, g: TexturedGlb)
    requires Valid(m.faces) && FromVoxelMeshWithTexture(m, t, jsonLength) == Ok(g)
    ensures g.bin == VertexBytes(m.points)
      + Encode(PadToMulOfFour(IndexItems(Flatten(FaceLists(m))), ZeroIndex), IndexSize)
      + Encode(PadToMulOfFour(UvItems(|m.points|), TexCoord(None)), UvSize)
      + TextureBytes(t)
  {
  }

  lemma ConcatElement(a: seq<Byte>, b: seq<Byte>, c: seq<Byte>, d: seq<Byte>, size: nat, j: nat)
    requires size * j + size <= |b|
    ensures |a| + size * j + size <= |a + b + c + d|
    ensures ElementAt(a + b + c + d, |a|, size, j) == ElementAt(b, 0, size, j)
  {
    ElementInSuffix(a, b, 0, size, j);
    ElementInPrefix(a + b, c, |a|, size, j);
    ElementInPrefix(a + b + c, d, |a|, size, j);
  }

  /** Element `k` of a padded, encoded part `b` of `a + b + c + d`, read from
      where `b` starts. */
  lemma PartElement(bin: seq<Byte>, a: seq<Byte>, b: seq<Byte>, c: seq<Byte>, d: seq<Byte>,
                    items: seq<Item>, default: Item, size: nat, base: nat, k: nat, it: Item)
    requires bin == a + b + c + d && b == Encode(PadToMulOfFour(items, default), size)
    requires k < |items| && it == items[k] && base == |a|
    ensures base + size * k + size <= |bin|
    ensures ElementAt(bin, base, size, k) == ItemBytes(it, size)
  {
    PaddedElement(items, default, size, k);
    ConcatElement(a, b, c, d, size, k);
  }

  /** Element `k` of a padded, encoded first part `a` of `a + b + c + d`. */
  lemma FirstPartElement(bin: seq<Byte>, a: seq<Byte>, b: seq<Byte>, c: seq<Byte>, d: seq<Byte>,
                         items: seq<Item>, default: Item, size: nat, base: nat, k: nat, it: Item)
    requires bin == a + b + c + d && a == Encode(PadToMulOfFour(items, default), size)
    requires k < |items| && it == items[k] && base == 0
    ensures base + size * k + size <= |bin|
    ensures ElementAt(bin, base, size, k) == ItemBytes(it, size)
  {
    PaddedElement(items, default, size, k);
    ElementInPrefix(a, b, 0, size, k);
    ElementInPrefix(a + b, c, 0, size, k);
    ElementInPrefix(a + b + c, d, 0, size, k);
  }

  /** Vertex `j` of the textured variant is stored, in glTF's axes, at the
      start of the buffer. */
  lemma TexturedGlbVertex(m: VoxelMesh, t: TextureInfo, jsonLength: nat, g: TexturedGlb, j: nat)
    requires Valid(m.faces) && FromVoxelMeshWithTexture(m, t, jsonLength) == Ok(g) && j < |m.points|
    ensures g.vertexView.offset + VertexSize * j + VertexSize <= |g.bin|
    ensures ElementAt(g.bin, g.vertexView.offset, VertexSize, j) == ItemBytes(Position(ToGlbAxes(m.points[j])), VertexSize)
  {
    var ib := Encode(PadToMulOfFour(IndexItems(Flatten(FaceLists(m))), ZeroIndex), IndexSize);
    var ub := Encode(PadToMulOfFour(UvItems(|m.points|), TexCoord(None)), UvSize);
    TexturedParts(m, t, jsonLength, g);
    FirstPartElement(g.bin, VertexBytes(m.points), ib, ub, TextureBytes(t), VertexItems(m.points), ZeroVertex, VertexSize,
                     g.vertexView.offset, j, Position(ToGlbAxes(m.points[j])));
  }

  /** The single index accessor reads the colours' index lists one after the
      other: index `j` of the `i`-th colour is element `k`, the total length
      of the lists before it plus `j`. */
  lemma TexturedGlbIndex(m: VoxelMesh, t: TextureInfo, jsonLength: nat, g: TexturedGlb, i: nat, j: nat, k: nat)
    requires Valid(m.faces) && FromVoxelMeshWithTexture(m, t, jsonLength) == Ok(g)
    requires i < |m.faces.order| && j < |m.faces.entries[m.faces.order[i]]|
    requires k == SumLengths(FaceLists(m)[..i]) + j
    ensures k < g.indices.count
    ensures g.indexView.offset + IndexSize * k + IndexSize <= |g.bin|
    ensures ElementAt(g.bin, g.indexView.offset, IndexSize, k) == ItemBytes(Index(AsU32(m.faces.entries[m.faces.order[i]][j])), IndexSize)
  {
    var lists := FaceLists(m);
    var id := m.faces.entries[m.faces.order[i]][j];
    assert lists[i][j] == id;
    FlattenElement(lists, i, j);
    TexturedGlbFlatIndex(m, t, jsonLength, g, k, id);
  }

  /** Element `k` of the index accessor is the `k`-th flattened index. */
  lemma TexturedGlbFlatIndex(m: VoxelMesh, t: TextureInfo, jsonLength: nat, g: TexturedGlb, k: nat, id: nat)
    requires Valid(m.faces) && FromVoxelMeshWithTexture(m, t, jsonLength) == Ok(g)
    requires k < |Flatten(FaceLists(m))| && id == Flatten(FaceLists(m))[k]
    ensures k < g.indices.count
    ensures g.indexView.offset + IndexSize * k + IndexSize <= |g.bin|
    ensures ElementAt(g.bin, g.indexView.offset, IndexSize, k) == ItemBytes(Index(AsU32(id)), IndexSize)
  {
    var flat := Flatten(FaceLists(m));
    TexturedParts(m, t, jsonLength, g);
    TexturedViewStarts(m, t, jsonLength, g);
    PartElement(g.bin, VertexBytes(m.points), Encode(PadToMulOfFour(IndexItems(flat), ZeroIndex), IndexSize),
                Encode(PadToMulOfFour(UvItems(|m.points|), TexCoord(None)), UvSize), TextureBytes(t),
                IndexItems(flat), ZeroIndex, IndexSize, g.indexView.offset, k, Index(AsU32(id)));
  }

  /** Texture coordinate `j` belongs to vertex `j`. */
  lemma TexturedGlbUv(m: VoxelMesh, t: TextureInfo, jsonLength: nat, g: TexturedGlb, j: nat)
    requires Valid(m.faces) && FromVoxelMeshWithTexture(m, t, jsonLength) == Ok(g) && j < |m.points|
    ensures g.uvView.offset + UvSize * j + UvSize <= |g.bin|
    ensures ElementAt(g.bin, g.uvView.offset, UvSize, j) == ItemBytes(TexCoord(Some(j)), UvSize)
  {
    var vi := VertexBytes(m.points) + Encode(PadToMulOfFour(IndexItems(Flatten(FaceLists(m))), ZeroIndex), IndexSize);
    var ub := Encode(PadToMulOfFour(UvItems(|m.points|), TexCoord(None)), UvSize);
    TexturedParts(m, t, jsonLength, g);
    TexturedViewStarts(m, t, jsonLength, g);
    assert g.bin == vi + ub + [] + TextureBytes(t);
    PartElement(g.bin, vi, ub, [], TextureBytes(t), UvItems(|m.points|), TexCoord(None), UvSize,
                g.uvView.offset, j, TexCoord(Some(j)));
  }

  /** When the texture has bytes, its view holds exactly them. */
  lemma TexturedGlbTexture(m: VoxelMesh, t: TextureInfo, jsonLength: nat, g: TexturedGlb, k: nat)
    requires Valid(m.faces) && FromVoxelMeshWithTexture(m, t, jsonLength) == Ok(g)
    requires t.buf.Some? && k < |t.buf.value|
    ensures g.textureView.Some? && g.textureView.value.offset + k + 1 <= |g.bin|
    ensures ElementAt(g.bin, g.textureView.value.offset, 1, k) == ItemBytes(Raw(t.buf.value[k]), 1)
  {
    var front := VertexBytes(m.points)
      + Encode(PadToMulOfFour(IndexItems(Flatten(FaceLists(m))), ZeroIndex), IndexSize)
      + Encode(PadToMulOfFour(UvItems(|m.points|), TexCoord(None)), UvSize);
    TexturedParts(m, t, jsonLength, g);
    TexturedViewStarts(m, t, jsonLength, g);
    RawElement(front, t, k);
  }

  /** Each view of the textured variant starts where the parts before it
      end. */
  lemma TexturedViewStarts(m: VoxelMesh, t: TextureInfo, jsonLength: nat, g: TexturedGlb)
    requires Valid(m.faces) && FromVoxelMeshWithTexture(m, t, jsonLength) == Ok(g)
    ensures var vb := VertexBytes(m.points);
      var ib := Encode(PadToMulOfFour(IndexItems(Flatten(FaceLists(m))), ZeroIndex), IndexSize);
      var ub := Encode(PadToMulOfFour(UvItems(|m.points|), TexCoord(None)), UvSize);
      && g.vertexView.offset == 0
      && g.indexView.offset == |vb|
      && g.uvView.offset == |vb + ib|
      && (t.buf.Some? ==> g.textureView.Some? && g.textureView.value.offset == |vb + ib + ub|)
  {
    var flat := Flatten(FaceLists(m));
    var vl := RoundUpToMulOfFour(|m.points|) * VertexSize;
    var il := RoundUpToMulOfFour(|flat|) * IndexSize;
    var ul := RoundUpToMulOfFour(|m.points|) * UvSize;
    assert |VertexBytes(m.points)| == vl;
    assert |Encode(PadToMulOfFour(IndexItems(flat), ZeroIndex), IndexSize)| == il;
    assert |Encode(PadToMulOfFour(UvItems(|m.points|), TexCoord(None)), UvSize)| == ul;
    assert g.indexView.offset == vl && g.uvView.offset == vl + il;
    assert t.buf.Some? ==> g.textureView == Some(View(vl + il + ul, |t.buf.value|));
  }

  /** Byte `k` of the texture, read from where the texture starts. */
  lemma RawElement(front: seq<Byte>, t: TextureInfo, k: nat)
    requires t.buf.Some? && k < |t.buf.value|
    ensures |front| + k + 1 <= |front + TextureBytes(t)|
    ensures ElementAt(front + TextureBytes(t), |front|, 1, k) == ItemBytes(Raw(t.buf.value[k]), 1)
  {
    var buf := t.buf.value;
    var raw := seq(|buf|, i requires 0 <= i < |buf| => Raw(buf[i]));
    EncodeElement(raw, 1, k);
    ConcatElement(front, TextureBytes(t), [], [], 1, k);
    assert front + TextureBytes(t) + [] + [] == front + TextureBytes(t);
  }
}
