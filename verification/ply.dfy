/** The PLY side of src/ply.rs: the vertex and face records with their
    `set_property` dispatch (how a parsed PLY element fills a record, one
    property at a time), the property list each record is written as, and
    `PlyStructs::from_voxel_mesh`, which turns a mesh into de-duplicated
    coloured vertices and triangles of at most three indices. */
module Ply {
  import opened Element
  import opened OrderedMaps
  import opened IndexSets
  import opened VoxelMeshes

  type U8 = n: nat | n < 256

  /** A PLY property value, one constructor per scalar and list type. */
  datatype Property =
    | Char(c: int) | UChar(uc: U8) | Short(s: int) | UShort(us: nat)
    | Int(i: int) | UInt(ui: nat) | Float(f: real) | Double(d: real)
    | ListChar(lc: seq<int>) | ListUChar(luc: seq<nat>) | ListShort(ls: seq<int>) | ListUShort(lus: seq<nat>)
    | ListInt(li: seq<int>) | ListUInt(lui: seq<nat>) | ListFloat(lf: seq<real>) | ListDouble(ld: seq<real>)

  /** A PLY vertex: a position (single precision in the source, exact here)
      and an 8-bit colour. */
  datatype Vertex = Vertex(x: real, y: real, z: real, r: U8, g: U8, b: U8)

  datatype Face = Face(vertexIndices: seq<nat>)

  /** `Vertex::new()` and `Face::new()`. */
  const DefaultVertex := Vertex(0.0, 0.0, 0.0, 0, 0, 0)
  const DefaultFace := Face([])

  /** The vertex properties in the order the writer declares them. */
  const VertexKeys: seq<string> := ["x", "y", "z", "red", "green", "blue"]
  const FaceKey: string := "vertex_indices"

  /** The property a vertex is written with under `key`. */
  function GetVertexProperty(v: Vertex, key: string): Property
    requires key in VertexKeys
  {
    if key == "x" then Float(v.x)
    else if key == "y" then Float(v.y)
    else if key == "z" then Float(v.z)
    else if key == "red" then UChar(v.r)
    else if key == "green" then UChar(v.g)
    else UChar(v.b)
  }

  /** The (name, type) pairs a vertex reacts to: a float coordinate or an
      unsigned-char colour channel. */
  predicate IsVertexProperty(key: string, p: Property) {
    || ((key == "x" || key == "y" || key == "z") && p.Float?)
    || ((key == "red" || key == "green" || key == "blue") && p.UChar?)
  }

  /** A vertex is determined by its six written properties. */
  lemma VertexByProperties(v: Vertex, w: Vertex)
    requires forall k :: k in VertexKeys ==> GetVertexProperty(v, k) == GetVertexProperty(w, k)
    ensures v == w
  {
    assert GetVertexProperty(v, "x") == GetVertexProperty(w, "x");
    assert GetVertexProperty(v, "y") == GetVertexProperty(w, "y");
    assert GetVertexProperty(v, "z") == GetVertexProperty(w, "z");
    assert GetVertexProperty(v, "red") == GetVertexProperty(w, "red");
    assert GetVertexProperty(v, "green") == GetVertexProperty(w, "green");
    assert GetVertexProperty(v, "blue") == GetVertexProperty(w, "blue");
  }

  /** `Vertex::set_property`: a known (name, type) pair sets exactly the
      field it names, and anything else, an unknown name or a known name
      with another type, leaves the vertex as it was. */
  function SetVertexProperty(v: Vertex, key: string, p: Property): (r: Vertex)
    ensures IsVertexProperty(key, p) ==> key in VertexKeys && GetVertexProperty(r, key) == p
    ensures forall k :: k in VertexKeys && k != key ==> GetVertexProperty(r, k) == GetVertexProperty(v, k)
    ensures !IsVertexProperty(key, p) ==> r == v
  {
    match p
    case Float(f) =>
      if key == "x" then v.(x := f)
      else if key == "y" then v.(y := f)
      else if key == "z" then v.(z := f)
      else v
    case UChar(u) =>
      if key == "red" then v.(r := u)
      else if key == "green" then v.(g := u)
      else if key == "blue" then v.(b := u)
      else v
    case _ => v
  }

  /** `Face::set_property`: only `("vertex_indices", ListUInt)` replaces the
      index list. */
  function SetFaceProperty(f: Face, key: string, p: Property): (r: Face)
    ensures key == FaceKey && p.ListUInt? ==> r.vertexIndices == p.lui
    ensures !(key == FaceKey && p.ListUInt?) ==> r == f
  {
    match p
    case ListUInt(l) => if key == FaceKey then Face(l) else f
    case _ => f
  }

  /** A parsed element: `new()`, then `set_property` for each of its
      properties in order. */
  function ReadVertex(props: seq<(string, Property)>): Vertex {
    if props == [] then DefaultVertex
    else SetVertexProperty(ReadVertex(props[..|props| - 1]), props[|props| - 1].0, props[|props| - 1].1)
  }

  function ReadFace(props: seq<(string, Property)>): Face {
    if props == [] then DefaultFace
    else SetFaceProperty(ReadFace(props[..|props| - 1]), props[|props| - 1].0, props[|props| - 1].1)
  }

  /** The property list `into_ascii_buf` writes for a vertex and for a face. */
  function VertexElement(v: Vertex): (r: seq<(string, Property)>)
    ensures |r| == |VertexKeys|
    ensures forall i :: 0 <= i < |r| ==>
      r[i].0 == VertexKeys[i] && r[i].1 == GetVertexProperty(v, VertexKeys[i]) && IsVertexProperty(r[i].0, r[i].1)
  {
    seq(|VertexKeys|, i requires 0 <= i < |VertexKeys| => (VertexKeys[i], GetVertexProperty(v, VertexKeys[i])))
  }

  function FaceElement(f: Face): seq<(string, Property)> {
    [(FaceKey, ListUInt(f.vertexIndices))]
  }

  /** Reading back the properties a vertex is written with gives the vertex. */
  lemma VertexRoundTrip(v: Vertex)
    ensures ReadVertex(VertexElement(v)) == v
  {
    var e := VertexElement(v);
    var w := ReadVertex(e);
    assert e[..|e|] == e && VertexKeys[..|e|] == VertexKeys;
    forall k | k in VertexKeys ensures GetVertexProperty(w, k) == GetVertexProperty(v, k) {
      ReadVertexPrefix(v, |e|, k);
    }
    VertexByProperties(w, v);
  }

  /** After the first `n` written properties, the fields they name hold the
      vertex's values and the others their defaults. */
  lemma {:induction false} ReadVertexPrefix(v: Vertex, n: nat, k: string)
    requires n <= |VertexKeys| && k in VertexKeys
    ensures GetVertexProperty(ReadVertex(VertexElement(v)[..n]), k)
         == if k in VertexKeys[..n] then GetVertexProperty(v, k) else GetVertexProperty(DefaultVertex, k)
  {
    var e := VertexElement(v);
    if n > 0 {
      var key := VertexKeys[n - 1];
      assert e[..n][..n - 1] == e[..n - 1];
      assert e[n - 1] == (key, GetVertexProperty(v, key)) && IsVertexProperty(key, GetVertexProperty(v, key));
      assert ReadVertex(e[..n]) == SetVertexProperty(ReadVertex(e[..n - 1]), key, GetVertexProperty(v, key));
      ReadVertexPrefix(v, n - 1, k);
      assert VertexKeys[..n] == VertexKeys[..n - 1] + [key];
      assert k in VertexKeys[..n] <==> k == key || k in VertexKeys[..n - 1];
    }
  }

  /** Reading back the property a face is written with gives the face. */
  lemma FaceRoundTrip(f: Face)
    ensures ReadFace(FaceElement(f)) == f
  {
    assert FaceElement(f)[..0] == [];
  }

  /** A face ignores a vertex's properties and a vertex a face's. */
  lemma {:induction false} FaceIgnoresVertexProperties(v: Vertex, n: nat)
    requires n <= |VertexKeys|
    ensures ReadFace(VertexElement(v)[..n]) == DefaultFace
  {
    if n > 0 {
      var e := VertexElement(v);
      assert e[..n][..n - 1] == e[..n - 1];
      FaceIgnoresVertexProperties(v, n - 1);
    }
  }

  lemma VertexIgnoresFaceProperties(f: Face)
    ensures ReadVertex(FaceElement(f)) == DefaultVertex
  {
    assert FaceElement(f)[..0] == [];
  }

  // ---------------------------------------------------------------------------
  // PlyStructs::from_voxel_mesh
  // ---------------------------------------------------------------------------

  datatype PlyStructs = PlyStructs(vertices: seq<Vertex>, faces: seq<Face>)

  datatype Rgb = Rgb(r: U8, g: U8, b: U8)

  /** The vertex of mesh point `p` in colour `c`: the point moved by the
      mesh offset and scaled by its resolution. */
  function PlyVertex(m: VoxelMesh, p: Point3, c: Rgb): Vertex {
    Vertex((p.x + m.offset.x) as real * m.resolution, (p.y + m.offset.y) as real * m.resolution,
           (p.z + m.offset.z) as real * m.resolution, c.r, c.g, c.b)
  }

  ghost predicate GroupsInRange(points: seq<Point3>, groups: seq<(Color, seq<nat>)>) {
    forall i :: 0 <= i < |groups| ==> InRangeIndices(points, groups[i].1)
  }

  /** One colour group's vertices, in the group's index order. */
  function GroupVertices(m: VoxelMesh, rgb: Color -> Rgb, col: Color, ids: seq<nat>): (r: seq<Vertex>)
    requires InRangeIndices(m.points, ids)
    ensures |r| == |ids| && forall j :: 0 <= j < |ids| ==> r[j] == PlyVertex(m, m.points[ids[j]], rgb(col))
  {
    seq(|ids|, j requires 0 <= j < |ids| => PlyVertex(m, m.points[ids[j]], rgb(col)))
  }

  /** The vertex set after the groups, and each group's indices into it:
      every group's vertices go through `insert_full` in order. */
  function Remap(m: VoxelMesh, rgb: Color -> Rgb, groups: seq<(Color, seq<nat>)>): (r: (seq<Vertex>, seq<seq<nat>>))
    requires GroupsInRange(m.points, groups)
    ensures NoDup(r.0)
    ensures |r.1| == |groups|
    ensures forall i :: 0 <= i < |groups| ==> |r.1[i]| == |groups[i].1|
    ensures forall i, j :: 0 <= i < |groups| && 0 <= j < |r.1[i]| ==>
      r.1[i][j] < |r.0| && r.0[r.1[i][j]] == PlyVertex(m, m.points[groups[i].1[j]], rgb(groups[i].0))
  {
    if groups == [] then ([], [])
    else
      var init := groups[..|groups| - 1];
      var (col, ids) := groups[|groups| - 1];
      var (vs, lists) := Remap(m, rgb, init);
      var (vs', idx) := InsertAll(vs, GroupVertices(m, rgb, col, ids));
      RemapStep(m, rgb, groups, vs, lists, vs', idx);
      (vs', lists + [idx])
  }

  /** Appending a group keeps the earlier groups' indices valid: the vertex
      set only grows at its end. */
  lemma RemapStep(m: VoxelMesh, rgb: Color -> Rgb, groups: seq<(Color, seq<nat>)>, vs: seq<Vertex>,
                  lists: seq<seq<nat>>, vs': seq<Vertex>, idx: seq<nat>)
    requires groups != [] && GroupsInRange(m.points, groups)
    requires var init := groups[..|groups| - 1];
      && |lists| == |init|
      && (forall i :: 0 <= i < |init| ==> |lists[i]| == |init[i].1|)
      && (forall i, j :: 0 <= i < |init| && 0 <= j < |lists[i]| ==>
            lists[i][j] < |vs| && vs[lists[i][j]] == PlyVertex(m, m.points[init[i].1[j]], rgb(init[i].0)))
    requires |vs| <= |vs'| && vs'[..|vs|] == vs
    requires var (col, ids) := groups[|groups| - 1];
      && |idx| == |ids|
      && forall j :: 0 <= j < |ids| ==> idx[j] < |vs'| && vs'[idx[j]] == PlyVertex(m, m.points[ids[j]], rgb(col))
    ensures var r := lists + [idx];
      && (forall i :: 0 <= i < |groups| ==> |r[i]| == |groups[i].1|)
      && forall i, j :: 0 <= i < |groups| && 0 <= j < |r[i]| ==>
           r[i][j] < |vs'| && vs'[r[i][j]] == PlyVertex(m, m.points[groups[i].1[j]], rgb(groups[i].0))
  {
    var r := lists + [idx];
    forall i, j | 0 <= i < |groups| && 0 <= j < |r[i]|
      ensures r[i][j] < |vs'| && vs'[r[i][j]] == PlyVertex(m, m.points[groups[i].1[j]], rgb(groups[i].0))
    {
      if i < |lists| {
        assert groups[i] == groups[..|groups| - 1][i];
        assert vs'[lists[i][j]] == vs'[..|vs|][lists[i][j]];
      }
    }
  }

  /** Every vertex is used: each one is the image of some group's index. */
  lemma {:induction false} RemapCovers(m: VoxelMesh, rgb: Color -> Rgb, groups: seq<(Color, seq<nat>)>, k: nat)
    requires GroupsInRange(m.points, groups) && k < |Remap(m, rgb, groups).0|
    ensures exists i, j :: 0 <= i < |groups| && 0 <= j < |Remap(m, rgb, groups).1[i]| && Remap(m, rgb, groups).1[i][j] == k
  {
    if groups != [] {
      var init := groups[..|groups| - 1];
      var (col, ids) := groups[|groups| - 1];
      var (vs, lists) := Remap(m, rgb, init);
      var vis := GroupVertices(m, rgb, col, ids);
      if k < |vs| {
        RemapCovers(m, rgb, init, k);
        var i, j :| 0 <= i < |init| && 0 <= j < |lists[i]| && lists[i][j] == k;
        assert Remap(m, rgb, groups).1[i] == lists[i];
      } else {
        InsertAllCovers(vs, vis, k);
        assert Remap(m, rgb, groups).1[|groups| - 1] == InsertAll(vs, vis).1;
      }
    }
  }

  /** `chunks(3)`: consecutive slices of three, the last one shorter. */
  function Chunks(ids: seq<nat>): (r: seq<Face>)
    ensures |r| == (|ids| + 2) / 3
    ensures forall k :: 0 <= k < |r| ==> 1 <= |r[k].vertexIndices| <= 3
    ensures forall k :: 0 <= k < |r| - 1 ==> |r[k].vertexIndices| == 3
    ensures JoinFaces(r) == ids
    decreases |ids|
  {
    if ids == [] then []
    else if |ids| <= 3 then [Face(ids)]
    else
      var rest := Chunks(ids[3..]);
      assert ids == ids[..3] + ids[3..];
      [Face(ids[..3])] + rest
  }

  /** The indices of a face list, one face after the other. */
  function JoinFaces(fs: seq<Face>): seq<nat> {
    if fs == [] then [] else fs[0].vertexIndices + JoinFaces(fs[1..])
  }

  /** A group's `u32` indices. */
  function U32s(idx: seq<nat>): (r: seq<nat>)
    ensures |r| == |idx| && forall j :: 0 <= j < |idx| ==> r[j] == AsU32(idx[j])
  {
    seq(|idx|, j requires 0 <= j < |idx| => AsU32(idx[j]))
  }

  /** The faces of every group, group after group. */
  function GroupFaces(lists: seq<seq<nat>>): seq<Face> {
    if lists == [] then [] else GroupFaces(lists[..|lists| - 1]) + Chunks(U32s(lists[|lists| - 1]))
  }

  /** `PlyStructs::from_voxel_mesh`.  Positions and colours are scaled with
      floating point in the source; here the position is exact and the
      colour conversion `rgb` is a parameter.  The vertices are distinct,
      every face has one to three indices, and when the vertex count fits
      in `u32` every index names a vertex. */
  function FromVoxelMesh(m: VoxelMesh, rgb: Color -> Rgb): (r: PlyStructs)
    requires Valid(m.faces) && forall col :: col in m.faces.entries ==> InRangeIndices(m.points, m.faces.entries[col])
    ensures NoDup(r.vertices)
    ensures forall f :: f in r.faces ==> 1 <= |f.vertexIndices| <= 3
    ensures |r.vertices| <= U32Limit ==> forall f, k :: f in r.faces && k in f.vertexIndices ==> k < |r.vertices|
  {
    var groups := Items(m.faces);
    var (vs, lists) := Remap(m, rgb, groups);
    FacesInRange(lists, |vs|);
    PlyStructs(vs, GroupFaces(lists))
  }

  /** Faces of chunks of lists whose indices are below `n`: one to three
      indices each, and below `n` when `n` fits in `u32`. */
  lemma {:induction false} FacesInRange(lists: seq<seq<nat>>, n: nat)
    requires forall i, j :: 0 <= i < |lists| && 0 <= j < |lists[i]| ==> lists[i][j] < n
    ensures forall f :: f in GroupFaces(lists) ==> 1 <= |f.vertexIndices| <= 3
    ensures n <= U32Limit ==> forall f, k :: f in GroupFaces(lists) && k in f.vertexIndices ==> k < n
  {
    if lists != [] {
      var init, last := lists[..|lists| - 1], lists[|lists| - 1];
      FacesInRange(init, n);
      var cs := Chunks(U32s(last));
      forall f, k | f in cs && k in f.vertexIndices && n <= U32Limit ensures k < n {
        JoinedMember(cs, f, k);
      }
    }
  }

  lemma {:induction false} JoinedMember(fs: seq<Face>, f: Face, k: nat)
    requires f in fs && k in f.vertexIndices
    ensures k in JoinFaces(fs)
  {
    if fs[0] != f {
      JoinedMember(fs[1..], f, k);
    }
  }

  /** The `i`-th colour's `j`-th index is remapped to the vertex of that
      point in that colour: all the vertices of a group share its colour. */
  lemma FromVoxelMeshGroup(m: VoxelMesh, rgb: Color -> Rgb, i: nat, j: nat)
    requires Valid(m.faces) && forall col :: col in m.faces.entries ==> InRangeIndices(m.points, m.faces.entries[col])
    requires i < |m.faces.order| && j < |m.faces.entries[m.faces.order[i]]|
    ensures var lists := Remap(m, rgb, Items(m.faces)).1;
      && j < |lists[i]|
      && FromVoxelMesh(m, rgb).vertices[lists[i][j]]
         == PlyVertex(m, m.points[m.faces.entries[m.faces.order[i]][j]], rgb(m.faces.order[i]))
  {
  }

  /** The faces are each group's remapped `u32` indices cut into chunks, and
      the vertices are exactly the ones the groups use. */
  lemma FromVoxelMeshFaces(m: VoxelMesh, rgb: Color -> Rgb, k: nat)
    requires Valid(m.faces) && forall col :: col in m.faces.entries ==> InRangeIndices(m.points, m.faces.entries[col])
    requires k < |FromVoxelMesh(m, rgb).vertices|
    ensures FromVoxelMesh(m, rgb).faces == GroupFaces(Remap(m, rgb, Items(m.faces)).1)
    ensures var lists := Remap(m, rgb, Items(m.faces)).1;
      exists i, j :: 0 <= i < |lists| && 0 <= j < |lists[i]| && lists[i][j] == k
  {
    RemapCovers(m, rgb, Items(m.faces), k);
  }
}
