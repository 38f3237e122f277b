# voxel-tiler-core in Dafny

A Dafny model of the integer core of `voxel-tiler-core`, a Rust library that
turns point clouds into coloured voxels, splits them into web-map tiles,
meshes the occupied voxels into cubes with hidden faces culled, and lays the
result out as binary glTF (GLB) or PLY. The model covers:

- `element.dfy` (`Element`): voxels as a colour sum plus a weight, the six
  checked neighbours of a 3-D point and the four of a 2-D point, per-axis
  bounds (src/element.rs).
- `collection_core.dfy`, `point_cloud.dfy`, `vec3.dfy`, `vec2.dfy`,
  `hmap3d.dfy`, `hmap2d.dfy`, `voxel_collection.dfy`: the `VoxelCollection`
  trait and its five stores (src/collection.rs): saturating accumulation,
  bounds and their caching, offsets, `to_vec`, averaging `to_points`, `new`,
  `insert_one`, `has`, `merge` and the builder. `grid.dfy` holds the nested
  vectors of the two dense stores, `ordered_map.dfy` the hash maps and
  `index_set.dfy` the `IndexSet`.
- `mesher.dfy` (`Meshing`): `Mesher::meshing` and its `ValidSide` flags
  (src/mesher.rs; src/mesh.rs lines 61-169 repeat it verbatim, 55 lines
  further down, so the same members model both).
- `voxel_mesh.dfy` (`VoxelMeshes`): `VoxelMesh` and the index remapping of
  `simplify` around the external decimator (src/voxel_mesh.rs, repeated in
  src/mesh.rs:13-59).
- `voxelizer.dfy` (`Voxelizers`): `average_color`, `SimpleVoxelizer` and
  `MapTileVoxelizer` (src/voxelizer.rs).
- `voxel_tiles.dfy` (`VoxelTiles`): `split_by_tile` and
  `from_voxel_point_cloud` (src/voxel.rs).
- `glb_gen.dfy` (`GlbGen`): padding, buffer, view and accessor layout and
  the header of both GLB builders (src/glb_gen.rs), for the container of
  chapter 4 of the Khronos glTF 2.0 specification.
- `ply.dfy` (`Ply`): `set_property` of PLY vertices and faces and
  `PlyStructs::from_voxel_mesh` (src/ply.rs).
- `image_sampler.dfy` (`ImageSampler`): decoding of elevation PNG tiles of
  the Geospatial Information Authority of Japan (24-bit two's complement in
  centimetres, 2^23 meaning no data) and the pixel enumeration of
  `JTerrainImageSampler::sampling` (src/image_sampler.rs).

Modelling conventions:

- Hash maps (`DashMap`, `HashMap`) and `IndexSet` are a Dafny `map` together
  with the sequence of keys in first-insertion order. The model fixes that
  order; the contracts speak of keys, values and memberships, which do not
  depend on it.
- Rust's fixed-width integers are unbounded here. The weight type is a
  parameter `wmax` (its maximum), and the coordinate type is a parameter
  `IntRange` (its least and greatest value) wherever `checked_add` and
  `checked_sub` matter. `as u32` and `as u8` casts are written out.
- A panic in the source (an out-of-range index, `unwrap` on `None`, a
  division by zero) is either a `requires` or, where a caller could meet it
  with ordinary input, an `Err` result.
- Floating-point values (resolutions, positions in metres) are `real`.
  Quantisation `floor(p / r)` is exact over `real`.
- Functions from other crates are parameters: the coordinate transforms of
  `coordinate_transformer`, meshopt's `simplify_decoder`, and the
  `z / resolution` cast of the image sampler. The length of the serialised
  glTF JSON is a parameter too.

## Model

| member | source | states |
|---|---|---|
| Element.CheckedAdd | src/element.rs:180-181 | `checked_add` in the coordinate type: defined exactly when the sum stays in the type's range, and then it is the sum |
| Element.CheckedSub | src/element.rs:185-186 | `checked_sub`: defined exactly when the difference stays in range, and then it is the difference |
| Element.Neighbour3 | src/element.rs:179-208 | the six neighbours of a 3-D point: present iff the stepped coordinate fits the type; the stepped axis moves by one, the others are unchanged |
| Element.NeighbourRoundTrip3 | src/element.rs:179-208 | stepping to a neighbour and back in the opposite direction returns the starting point |
| Element.UnsignedEdgeHasNoLowerNeighbour | src/element.rs:185-187 | in an unsigned coordinate type, a 0 coordinate has no `left`/`back`/`bottom` neighbour |
| Element.DivColorIsAverage | src/voxelizer.rs:27 | the channel-wise division of a colour sum by the weight is that sum's average rounded down |
| Element.Neighbour2 | src/element.rs:135-162 | planar neighbours: `right`/`left` step x and `front`/`back` step y when the result fits; `top` and `bottom` are always `None` |
| Element.CalcBounds3 | src/element.rs:210-220 | `calc_bounds` of a non-empty 3-D list: every point lies between the result's corners and each corner coordinate is attained by some point |
| Element.TightBounds3Unique | src/element.rs:210-220 | the per-axis minimum/maximum of a list is unique |
| Element.TightBounds3Concat | src/element.rs:210-220 | the bounds of a concatenation are the componentwise min/max of the parts' bounds |
| Element.CalcBounds2 | src/element.rs:164-174 | `calc_bounds` of a non-empty 2-D list: the corners enclose every point and each is attained |
| Element.NewVoxelAveragesToItsColor | src/element.rs:100-102 | `Voxel::new(c)` has weight one, so its average colour is `c` |
| OrderedMaps.Upsert | src/collection.rs:920-923 | `entry(k).and_modify(..).or_insert(..)`: an existing key is updated in place, a new key is inserted with the initial value and joins the iteration order at the end; no other key changes |
| IndexSets.InsertFull | src/ply.rs:139 | `IndexSet::insert_full`: the returned index holds the value; a present value leaves the set unchanged, a new one is appended |
| IndexSets.InsertAll | src/ply.rs:136-141 | inserting values one after the other: the set stays duplicate-free, keeps its prefix, gains exactly the new values, and each returned index holds its value |
| IndexSets.InsertAllCovers | src/ply.rs:136-141 | every position the insertions added is an index one of them returned |
| CollectionCore.AddColorWithWeightCheck | src/collection.rs:51-68 | the weight grows by the incoming weight, saturating at the weight type's maximum; the colour grows by the incoming colour times the weight actually added; a saturated voxel is left unchanged |
| CollectionCore.AccumulatePointsKeepsFirstColors | src/collection.rs:51-68 | feeding single points one by one counts them up to the maximum weight and sums exactly the colours of the points that still fitted |
| CollectionCore.AddOneUnsaturated | src/collection.rs:64-66 | below the maximum, adding one point adds its colour and one to the weight |
| CollectionCore.UnitAccumulationKeepsAverageInRange | src/collection.rs:51-68 | adding single points whose channels are at most `cmax` keeps every channel of the sum within `weight * cmax`, so the average stays a valid colour |
| CollectionCore.AccumulatingASumRescalesIt | src/collection.rs:65-66 | adding a voxel that already carries a sum of two or more points multiplies that sum by its weight: the result is the sum of the two sums exactly when the incoming sum is black |
| CollectionCore.CalcBounds | src/collection.rs:23-41 | no entries give the default (zero) corners; otherwise the result is the per-axis minimum and maximum of the points |
| CollectionCore.CalcBoundsFrom2 | src/collection.rs:43-48 | the combined box contains both boxes |
| CollectionCore.CalcBoundsFrom2OfConcat | src/collection.rs:23-48 | combining the bounds of two non-empty lists gives the bounds of their concatenation |
| CollectionCore.WithOffset | src/collection.rs:220-225 | `to_vec_with_offset`: same length, the voxels unchanged, each point shifted by the offset |
| CollectionCore.TightBoundsWithOffset | src/collection.rs:171-180 | the bounds of shifted points are the shifted bounds |
| CollectionCore.CalcBoundsWithOffset | src/collection.rs:171-180 | `calc_bounds` of the offset-applied entries is `calc_bounds` plus the offset, as `get_bounds` computes it |
| CollectionCore.WithOffsetInverse | src/collection.rs:220-225 | shifting by an offset and then by its negation restores the entries |
| CollectionCore.AveragedPoints | src/collection.rs:238-247 | `to_points`: same points in the same order; each of the three channels is the sum's average rounded down (`a * w <= sum < a * w + w`) |
| CollectionCore.VoxelsAt | src/collection.rs:875-879 | the voxels given for a point, in input order: empty iff the point does not occur |
| CollectionCore.VoxelsAtCount | src/collection.rs:875-879 | `VoxelsAt` holds as many voxels as there are entries at the point |
| CollectionCore.VoxelsAtOrder | src/collection.rs:875-879 | the entry at position `i`, when it is at the point, gives the element after those of the earlier entries at the point: the voxels at the point in input order |
| CollectionCore.CollapseUnitWeights | src/collection.rs:51-68 | accumulating unit-weight voxels gives the number of points, saturated at the maximum weight |
| PointClouds.Default | src/collection.rs:357-368 | the default point cloud is empty, without bounds, at the origin, with resolution 1 |
| PointClouds.New | src/collection.rs:386-394 | `new` keeps the entries as given, in order and with repeats, and stores bounds, offset and resolution unchanged |
| PointClouds.InsertOne | src/collection.rs:426-429 | `insert_one` appends the entry at the end and drops the cached bounds |
| PointClouds.InsertAll | src/collection.rs:421-424 | the `insert` override appends the other collection's entries after the existing ones and drops the cached bounds |
| PointClouds.InsertAllIsRepeatedInsertOne | src/collection.rs:296-300 | the override agrees with the trait's default `insert`, which calls `insert_one` per entry |
| PointClouds.Has | src/collection.rs:431-433 | `has` is true iff some entry's point equals the query |
| PointClouds.ToVec | src/collection.rs:412-414 | `to_vec` returns the field; rebuilding from it gives back the same cloud |
| Grid.Filled3 | src/collection.rs:501 | `vec![vec![vec![v; z]; y]; x]` is a box of that shape whose every cell is `v` |
| Grid.Filled2 | src/collection.rs:682 | the planar field is an `x` by `y` box whose every cell is the given value |
| Grid.Set3 | src/collection.rs:511 | writing one existing cell changes that cell only and keeps the shape |
| Grid.Set2 | src/collection.rs:689 | writing one existing column changes that column only and keeps the shape |
| Grid.FlatRoundTrip3 | src/collection.rs:537-546 | the flattening order of `to_vec` (x, then y, then z) sends each cell of a box to a position of the list, and unflattening that position gives the cell back, so distinct cells get distinct positions |
| Grid.FlatRoundTrip2 | src/collection.rs:744-756 | the planar flattening order (x, then y) sends each column to a position of the list, and dividing that position by the column count gives the column back, so distinct columns get distinct positions |
| Grid.UnflatInRange3 | src/collection.rs:537-546 | every position of the list unflattens to a cell inside the box, and flattening that cell gives the position back; with FlatRoundTrip3 the order is a bijection between cells and positions |
| Grid.UnflatInRange2 | src/collection.rs:744-756 | every position of the planar list names a column inside the grid, and that column flattens back to the position; with FlatRoundTrip2 the order is a bijection |
| Vec3Collections.CellAtInBounds | src/collection.rs:566-568 | in a field of the box's shape, a cell exists exactly for the points inside the box |
| Vec3Collections.LastVoxelAt | src/collection.rs:504-512 | the voxel the last write at a point leaves: none iff the point is never written, and otherwise an entry at that point |
| Vec3Collections.WriteAll | src/collection.rs:504-512 | writing the entries in order: the shape is kept and each cell holds the last voxel written to it, or its earlier content |
| Vec3Collections.New | src/collection.rs:493-520 | `new`: the box is the given bounds or the tight bounds; a box of negative extent and an entry outside the box are errors (panics in the source); otherwise each cell holds the last voxel written to it, or the zero voxel |
| Vec3Collections.Build | src/collection.rs:499-518 | filling the box: a well-formed grid of that box, offset and resolution in which each cell holds the last voxel written to it, or the zero voxel |
| Vec3Collections.NewWithoutBoundsSucceeds | src/collection.rs:494-496 | without explicit bounds the box is tight around the entries, so `new` cannot fail |
| Vec3Collections.InsertOne | src/collection.rs:560-573 | `insert_one`: inside the box the cell accumulates through the weight check, outside it nothing changes; no other cell changes |
| Vec3Collections.HasAfterNew | src/collection.rs:575-589 | after `new`, a point is present iff it lies in the box and the last voxel written at it has a non-zero weight |
| Vec3Collections.HasIffListed | src/collection.rs:575-589 | `has` is true exactly for the points `to_vec` lists with a voxel of non-zero weight |
| Vec3Collections.ToVec | src/collection.rs:537-546 | `to_vec` lists every cell of the box, empty ones included, once each, at its absolute coordinate with its stored voxel |
| Vec2Collections.LastInColumnIsLast | src/collection.rs:684-690 | the column a sequence of writes leaves: none iff no entry lies in that `(x, y)` column, and otherwise an entry with no later entry in the same column |
| Vec2Collections.WriteAll | src/collection.rs:684-690 | writing the entries in order keeps the grid's shape and leaves each column holding the height and voxel of the last entry in it |
| Vec2Collections.New | src/collection.rs:675-699 | `new`: the grid spans the x and y extent of the given or tight bounds and stores the z extent unchecked; a negative extent and an entry outside the grid are errors (panics in the source); otherwise each column holds the last entry written to it, or the empty column |
| Vec2Collections.Build | src/collection.rs:680-697 | filling the grid: a well-formed grid of the x and y extent, the z extent kept, and each column holding the last entry written to it, or the empty column |
| Vec2Collections.InsertOne | src/collection.rs:772-790 | `insert_one`: a different height replaces the column and keeps the cached z bounds; the same height accumulates through the weight check and drops them; outside the grid only the cached z bounds are dropped; no other column changes |
| Vec2Collections.HasAfterNew | src/collection.rs:792-802 | with the index taken relative to the grid's minimum, a point is present after `new` iff it is the last entry written in its column and has weight |
| Vec2Collections.HasAsWrittenMissesOffsetGrid | src/collection.rs:792-802 | `has` as written indexes the grid with the raw x and y: for a grid built from the single point (5, 5, 0) it answers false while the point is present |
| Vec2Collections.HasAsWritten | src/collection.rs:792-802 | `has` as written reads the grid at the raw `x` and `y`; on a grid whose minimum column is (0, 0) it agrees with the corrected `has` |
| Vec2Collections.HasIffListed | src/collection.rs:792-802 | with the index taken relative to the grid, `has` is true exactly for the points `to_vec` lists with a voxel of non-zero weight |
| Vec2Collections.ToVec | src/collection.rs:744-756 | `to_vec` lists every column of the grid once, empty ones included, as the point `(x, y, height)` with its voxel |
| Vec2Collections.GetBounds | src/collection.rs:705-730 | `get_bounds`: the grid's x and y extent with the cached z extent; when that was dropped, the least and greatest height among the columns with weight; no such column is the source's panic on an empty minimum |
| Vec2Collections.WeightedEntriesAreWeightedColumns | src/collection.rs:707-715 | the weighted entries of `to_vec` are exactly the columns that hold weight |
| Vec2Collections.Weighted | src/collection.rs:707-715 | the filter keeps exactly the entries with non-zero weight |
| Vec2Collections.ZRangeOfWeighted | src/collection.rs:717-720 | the z extent of the weighted entries is the least and greatest height of the weighted columns |
| HMap3DCollections.Put | src/collection.rs:876-878 | one `entry(..).and_modify(..).or_insert(..)`: a present coordinate accumulates through the weight check, a new one takes the voxel as given, no other coordinate changes |
| HMap3DCollections.PutAllKeys | src/collection.rs:875-879 | building from a list gives exactly the list's coordinates as keys |
| HMap3DCollections.PutAllValues | src/collection.rs:875-879 | each coordinate holds the first voxel given for it with every later one accumulated through the weight check |
| HMap3DCollections.New | src/collection.rs:870-888 | `new`: one entry per distinct coordinate, each the accumulation of the voxels given for it; bounds, offset and resolution stored as given |
| HMap3DCollections.InsertOne | src/collection.rs:920-926 | `insert_one`: an existing coordinate accumulates, a new one is inserted as given, nothing else changes, and the cached bounds are dropped |
| HMap3DCollections.NewThenInsertOne | src/collection.rs:870-926 | inserting one more voxel into a built store gives the same field as building from the longer list |
| HMap3DCollections.HasAfterNew | src/collection.rs:928-930 | after `new`, `has` is true exactly for the coordinates that were given |
| HMap3DCollections.ToVec | src/collection.rs:906-911 | `to_vec` lists each stored coordinate with its voxel, and every stored coordinate appears |
| HMap3DCollections.ToVecDistinct | src/collection.rs:906-911 | `to_vec` lists every coordinate once |
| HMap3DCollections.HasIffListed | src/collection.rs:928-930 | `has` is true exactly for the points `to_vec` lists |
| HMap2DCollections.Put | src/collection.rs:1002-1006 | one `entry(..)` on the `(x, y)` column: a new column takes the point's height and voxel, the stored height accumulates, another height leaves the map unchanged; no other column changes |
| HMap2DCollections.PutAllKeys | src/collection.rs:1001-1007 | building gives exactly the columns of the given points as keys |
| HMap2DCollections.FirstHeightAttained | src/collection.rs:1001-1007 | the height a column keeps is the height of one of the given points in it |
| HMap2DCollections.ColumnOfStep | src/collection.rs:1002-1006 | one more point keeps every column equal to the first height given for it with the accumulation of the voxels given at that height |
| HMap2DCollections.PutAllValues | src/collection.rs:1001-1007 | the first height given for a column wins and its voxel accumulates exactly the voxels given at that height |
| HMap2DCollections.New | src/collection.rs:998-1016 | `new`: one `(height, voxel)` per column; the first height given for a column wins and later points at another height are dropped; bounds, offset and resolution stored as given |
| HMap2DCollections.InsertOne | src/collection.rs:1049-1057 | `insert_one`: a new column takes the point, the stored height accumulates, any other height is discarded; the cached bounds are dropped in every case |
| HMap2DCollections.HasAfterNew | src/collection.rs:1059-1069 | after `new`, a point is present iff its column was given and it lies at that column's first height; the weight is not consulted |
| HMap2DCollections.ToVec | src/collection.rs:1033-1038 | `to_vec` lists each column once as the point `(x, y, height)` with its voxel |
| HMap2DCollections.ToVecComplete | src/collection.rs:1033-1038 | every stored column appears in `to_vec` |
| HMap2DCollections.ToVecDistinct | src/collection.rs:1033-1038 | `to_vec` lists every column once |
| HMap2DCollections.HasIffListed | src/collection.rs:1059-1069 | `has` is true exactly for the points `to_vec` lists, whatever their weight |
| VoxelCollections.SetInnerBounds | src/collection.rs:375-377 | `set_inner_bounds` of the sparse stores caches exactly the given bounds |
| VoxelCollections.New | src/collection.rs:164 | `VC::new` for the chosen store: the result has that kind, the given offset and resolution, and the sparse stores always succeed and keep the given bounds; only the dense stores can fail, and only with their two panics |
| VoxelCollections.HasBounds | src/collection.rs:396-398 | `has_bounds`: the dense stores always answer true, the sparse ones iff bounds are cached |
| VoxelCollections.ToVecWeights | src/collection.rs:209 | every voxel `to_vec` lists fits the weight type |
| VoxelCollections.ToVecDistinct | src/collection.rs:209 | the hash-map stores' `to_vec` lists every point once |
| VoxelCollections.HasIffListed | src/collection.rs:339 | `has` of every store is true exactly for the points its `to_vec` lists, the dense stores asking also that the voxel carry weight |
| VoxelCollections.ToVecWithOffset | src/collection.rs:220-225 | `to_vec_with_offset` lists the `to_vec` entries in order, each point shifted by the store's offset |
| VoxelCollections.ToPoints | src/collection.rs:238-247 | `to_points` lists the `to_vec` points in order, each of the three colour channels the sum's average over the weight rounded down |
| VoxelCollections.ComputeBounds | src/collection.rs:171-180 | the default `get_bounds` without a cache: the tight bounds of the offset-applied points (the offset itself for no points), cached, with the listed entries unchanged |
| VoxelCollections.GetBounds | src/collection.rs:171-180 | `get_bounds`: the cached bounds when present and nothing changes; otherwise they are computed and cached; only Vec2's override can fail, and it never caches |
| VoxelCollections.GetBoundsIdempotent | src/collection.rs:171-180 | asking for the bounds twice gives the same bounds, and the second call changes nothing |
| VoxelCollections.InsertOne | src/collection.rs:304 | `insert_one` of each store keeps the kind, offset and resolution and the weight bound; the sparse stores drop their cached bounds, Vec3 keeps its box |
| VoxelCollections.HasAfterInsertOne | src/collection.rs:426-433 | a point just inserted into a point cloud or 3-D hash map is present; in the 2-D hash map iff its column was new or already at that height; in Vec3 iff it lies in the box and its cell ends up with weight |
| VoxelCollections.Merge | src/collection.rs:318-336 | `merge`: an error exactly when the resolutions differ; otherwise a store of the receiver's kind at offset zero with the shared resolution, holding both sides' offset-applied entries, with bounds iff both sides had them and then bounds that contain both |
| VoxelCollections.MergeIsNew | src/collection.rs:318-336 | for every store, `merge` with matching resolutions either fails with `get_bounds`'s error, or equals `new` of the receiver's kind applied to both sides' offset-applied entries in order, with the merged bounds, at offset zero, with the shared resolution. What the merged store holds is then that store's `new` contract |
| VoxelCollections.MergeBounds | src/collection.rs:325-327 | the bounds handed to `new` exist iff both sides have bounds, and then contain both sides' boxes; only a failing `get_bounds` of a 2-D grid can make this step fail |
| VoxelCollections.MergeWithoutBounds | src/collection.rs:325-335 | when either side lacks bounds, `merge` is `new` of the concatenated offset-applied entries with no bounds at offset zero |
| VoxelCollections.MergeKeys | src/collection.rs:329-335 | merging into a 3-D hash map keeps exactly the coordinates of both sides |
| VoxelCollections.NewBuilder | src/collection.rs:153-161 | `builder()`: no voxels, no bounds, zero offset, resolution one |
| VoxelCollections.WithPoints | src/collection.rs:107-112 | `points`: each point becomes a weight-one voxel of its colour, replacing the voxels set before; the other fields are unchanged |
| VoxelCollections.Build | src/collection.rs:139-141 | `build` is `new` with the builder's fields: kind, offset and resolution carried over; the sparse stores always succeed with the builder's bounds |
| VoxelCollections.BuildFromPoints | src/collection.rs:107-161 | a sparse store built from points alone succeeds, at offset zero and resolution one, without bounds |
| VoxelMeshes.AsU32 | src/glb_gen.rs:124-126 | an `as u32` cast keeps the low 32 bits: the result is below 2^32 and equals the input when the input fits |
| VoxelMeshes.Deref | src/voxel_mesh.rs:41-43 | looking up indices gives, in order, the points they name |
| VoxelMeshes.ToU32Indices | src/voxel_mesh.rs:37-38 | the `usize` to `u32` conversion keeps only indices that fit, each of which was given, and every given index that fits survives |
| VoxelMeshes.ToU32IndicesKeepsSmall | src/voxel_mesh.rs:37-38 | when every index fits in 32 bits the conversion keeps the list unchanged |
| VoxelMeshes.InternColor | src/voxel_mesh.rs:41-45 | interning the vertices a colour keeps: vertices stay distinct, the new colour's indices name exactly those vertices, the colours already present still name the same vertices |
| VoxelMeshes.SimplifyColors | src/voxel_mesh.rs:36-46 | processing the colours in turn keeps every index valid, gives exactly the processed colours, each naming the vertices the decimator kept for it, all drawn from the old vertices |
| VoxelMeshes.Simplify | src/voxel_mesh.rs:26-56 | `simplify`: the same colours, each whose new indices name exactly the old vertices the decimator kept, a vertex set drawn from the old one, and the box, offset and resolution carried over |
| Meshing.FaceVertices | src/mesher.rs:79-91 | a face is six corners, each the voxel's point plus that side's unit-cube offset |
| Meshing.FaceVerticesInjective | src/mesher.rs:80-85 | the six sides of one voxel have six different corner lists |
| Meshing.KeptSides | src/mesher.rs:86-87 | the `filter(valid && required)`: a side survives iff it is in the list and is kept, order preserved |
| Meshing.FacesFor | src/mesher.rs:88-100 | the surviving sides' corners, six per side, in the sides' order |
| Meshing.UnitFaces | src/mesher.rs:79-100 | `unit_faces`: whole faces of six corners (which sides they are is stated by `UnitFacesSides`) |
| Meshing.UnitFacesSides | src/mesher.rs:79-100 | a voxel emits the face of a side iff that side is enabled, its neighbour is absent or unrepresentable, and (without `BORDER`) no corner lies on the vertex box |
| Meshing.DisabledSideNotMeshed | src/mesher.rs:80-87 | a side switched off in `valid_side` is never meshed |
| Meshing.HiddenSideNotMeshed | src/mesher.rs:60-68 | a side whose neighbour is present in the collection is never meshed |
| Meshing.BorderSideNotMeshed | src/mesher.rs:70-76 | without `BORDER`, a side with a corner on the vertex box is never meshed |
| Meshing.FacesOfColorAreKept | src/mesher.rs:78-109 | every face emitted under a colour is a kept side of a voxel of that colour |
| Meshing.AddVoxel | src/mesher.rs:102-108 | one voxel's step keeps every index valid and every colour a whole number of faces, and only appends vertices |
| Meshing.AddCornersContent | src/mesher.rs:106-108 | one voxel's corners are appended to the corners listed under its own colour and change no other colour |
| Meshing.MeshVoxelsContent | src/mesher.rs:78-109 | after all voxels, a colour has an entry iff some voxel of that colour emitted a face, and its indices name exactly those corners in order |
| Meshing.MeshVoxels | src/mesher.rs:78-109 | the `for_each` over the voxels leaves every index naming a listed vertex and every colour with whole faces |
| Meshing.MeshVoxelsVertices | src/mesher.rs:106 | the vertex set is exactly the set of emitted corners |
| Meshing.VertexBox | src/mesher.rs:56-57 | `mesh.bounds.1 += 1`: the voxel box becomes the box of the voxels' corners |
| Meshing.Meshing | src/mesher.rs:41-112 | `meshing`: fails only where `get_bounds` does; the box is the vertex box, offset and resolution are the collection's; colours, indices and vertices are exactly those the kept faces of `to_points` produce |
| Meshing.KeptSidesAll | src/mesher.rs:86-87 | when every side is kept, the filter keeps them all |
| Meshing.KeptSidesNone | src/mesher.rs:86-87 | when no side is kept, the filter keeps none |
| Meshing.AllFacesUseCubeCorners | src/mesher.rs:80-85 | the six faces of a voxel use exactly the eight corners of its unit cube |
| Meshing.SingleVoxelFaces | src/mesher.rs:78-109 | one voxel emits its faces under its own colour and nothing under any other |
| Meshing.FlagsOf | src/mesher.rs:12-33 | every side flag and `BORDER` are in `ValidSide::all()`; `0x3F` holds every side but not `BORDER` |
| Meshing.IsolatedKeeps | src/mesher.rs:60-99 | a voxel with no other voxel around keeps every enabled side when `BORDER` is set |
| Meshing.MeshingOneVoxel | src/mesher.rs:41-112 | meshing a collection of one voxel: its colour has an entry iff it emits a face, with exactly that many indices, and the vertex set is its corners |
| Meshing.MeshOneVoxel | src/mesher.rs:102-108 | the mesh of a single voxel is its corners, under its colour if it emits any |
| Meshing.CubeFacesTouchBorder | src/mesher.rs:70-76 | every face of a voxel touches the vertex box of that voxel alone |
| Meshing.LoneBounds | src/collection.rs:171-180 | a point cloud of one voxel has that (offset) point as its bounds and still holds exactly that voxel after caching them |
| Meshing.LoneVoxelMesh | src/mesher.rs:41-112 | meshing a lone voxel with every side enabled gives one colour (its average), six faces (36 indices) and the cube's eight corners |
| Meshing.LoneVoxelWithoutBorder | src/mesher.rs:93-97 | without `BORDER`, a lone voxel at offset zero meshes to nothing: every face has a corner on the vertex box |
| Meshing.NoFacesOnOwnBorder | src/mesher.rs:70-97 | without `BORDER`, a voxel whose vertex box is its own cube keeps no face: each of its faces has a corner on the box |
| Meshing.MeshFacesAreKept | src/mesher.rs:78-109 | every face of the mesh is a kept side (enabled, not hidden, off the border unless `BORDER`) of a voxel of the colour it is listed under |
| Voxelizers.Quantise | src/voxelizer.rs:93 | `(point / resolution).batch(floor)`: the unique cell whose every coordinate is the floor of the coordinate divided by the resolution |
| Voxelizers.AverageAll | src/voxelizer.rs:19-32 | `average_color` over a list: same points in order, each voxel a fresh one-point voxel whose colour is the rounded-down average of the sum |
| Voxelizers.NewWithoutBoundsSucceeds | src/collection.rs:493-496 | without explicit bounds every store can be built, dense ones included |
| Voxelizers.DefaultCollection | src/voxelizer.rs:63-68 | `CalcVC::default()` of a sparse store: empty, no bounds, zero offset, unit resolution |
| Voxelizers.NewSimple | src/voxelizer.rs:80-89 | `SimpleVoxelizer::new` accepts exactly a resolution in metres (the other variant panics) and starts from the default store |
| Voxelizers.Quantised | src/voxelizer.rs:92-98 | the points of one `add` call, each replaced by its cell, with its colour sum |
| Voxelizers.AddedCloud | src/voxelizer.rs:100 | the point cloud `add` builds holds one-point voxels of the quantised points, at unit resolution, without offset or bounds |
| Voxelizers.UnitVoxelsPoints | src/collection.rs:107-112 | the points of one-point voxels are the given points |
| Voxelizers.Add | src/voxelizer.rs:91-103 | `add`: the store keeps its kind and gets offset zero and no bounds; a point-cloud store gains the quantised one-point voxels after its own entries; a 3-D hash-map store's cells become its old cells plus the quantised cells |
| Voxelizers.AddCollection | src/voxelizer.rs:91-92 | `add` of an integer collection uses its offset-applied entries; a point-cloud store grows by exactly their number |
| Voxelizers.Finish | src/voxelizer.rs:104-116 | `finish`: the averaged entries go to the output store's `new` with the calculation store's cached bounds (if any), its offset and the voxelizer's resolution; without cached bounds, or into a sparse store, it cannot fail |
| Voxelizers.ColorsAt | src/voxelizer.rs:92-98 | the colours given for a cell, in input order: empty iff no point falls in that cell |
| Voxelizers.ColorsAtContents | src/voxelizer.rs:92-98 | as many colours as points in the cell, the point at position `i` giving the element after those of the earlier points in the cell: exactly their colours in input order |
| Voxelizers.VoxelsAtUnit | src/voxelizer.rs:92-100 | the voxels one-point entries give for a cell are the one-point voxels of the colours given for it |
| Voxelizers.CollapseUnitVoxels | src/collection.rs:51-68 | accumulating one-point voxels counts them up to the maximum weight and sums the colours of the points counted |
| Voxelizers.VoxelsAtDistinct | src/collection.rs:875-879 | in a list of distinct points, the voxels at a listed point are its own |
| Voxelizers.NewFromUnitVoxels | src/collection.rs:870-888 | a 3-D hash map built from one-point voxels has one entry per occupied cell, counting its points up to the maximum weight and summing their colours |
| Voxelizers.AddToFreshH3 | src/voxelizer.rs:91-103 | one `add` into a fresh 3-D hash-map store builds the store from the quantised points' one-point voxels |
| Voxelizers.NewH3 | src/collection.rs:870-888 | `new` into a 3-D hash map never fails |
| Voxelizers.FinishAveragesH3 | src/voxelizer.rs:104-116 | finishing a 3-D hash-map store without bounds keeps its cells and replaces every colour sum by its average colour |
| Voxelizers.AveragedStore | src/voxelizer.rs:112-115 | building a 3-D hash map from a store's averaged entries keeps its cells, each with weight one and the average colour |
| Voxelizers.AveragedEntry | src/voxelizer.rs:112-115 | each cell of the averaged store holds the average of the original cell's sum |
| Voxelizers.AveragedKeys | src/voxelizer.rs:112-115 | the averaged store has no cell the original lacked |
| Voxelizers.SingleEntryCollapses | src/collection.rs:875-879 | building from distinct points keeps each entry's own voxel |
| Voxelizers.SimpleVoxelizerAverages | src/voxelizer.rs:80-116 | with hash-map stores, voxelizing a cloud gives one voxel per occupied cell whose colour is the rounded-down average of the colours of the first at most `wmax` points in that cell |
| Voxelizers.TileOf | src/voxelizer.rs:182 | the tile of a pixel is its coordinates divided by 256: the pixel lies in that 256-pixel square |
| Voxelizers.NewMapTile | src/voxelizer.rs:162-172 | `MapTileVoxelizer::new` accepts exactly a tile resolution and starts with no tiles |
| Voxelizers.Seed | src/voxelizer.rs:193-198 | the store a new tile starts with is built from the one point, at the point's pixel resolution, at offset zero |
| Voxelizers.SeedBoundsOnePoint | src/voxelizer.rs:193-198 | the box computed for a new tile's one-point store is that pixel's cell |
| Voxelizers.DenseSeedKeepsOneCell | src/voxelizer.rs:189-198 | with the default `Vec3` (map tiles) or `Vec2` (terrain) store, a later point of the tile outside the first point's cell (column) changes nothing but the cached height range |
| Voxelizers.Vec3SeedKeepsOneCell | src/collection.rs:560-573 | a `Vec3` tile store seeded from one point is left unchanged by `insert_one` of a point in any other cell |
| Voxelizers.Vec2SeedKeepsOneColumn | src/voxelizer.rs:189-198 | a `Vec2` tile store seeded from one point keeps its grid when a point of another column is inserted; only the cached height range is dropped |
| Voxelizers.AddSample | src/voxelizer.rs:176-199 | one point goes into its tile's store: inserted into an existing store or seeding a new one; other tiles are untouched |
| Voxelizers.AddSampleKeys | src/voxelizer.rs:176-199 | after one point the tiles held are those before plus the point's own tile |
| Voxelizers.AddAll | src/voxelizer.rs:174-200 | `add` processes the points in order and keeps the zoom, origin and store kind |
| Voxelizers.AddAllTiles | src/voxelizer.rs:174-200 | after adding points, the tiles are the tiles held before and the tiles the points fall in |
| Voxelizers.TilesOfSnoc | src/voxelizer.rs:174-200 | one more point adds its own tile to the tiles the points fall in |
| Voxelizers.PixelsInSnoc | src/voxelizer.rs:186-192 | one more point adds its pixel to its own tile's pixels and to no other tile's |
| Voxelizers.InsertOneH3Keys | src/voxelizer.rs:191-192 | `insert_one` into a 3-D hash-map store adds the point to its cells |
| Voxelizers.TileHoldsStep | src/voxelizer.rs:176-199 | one more point keeps every tile holding exactly the pixels of the points that fall in it |
| Voxelizers.AddAllPixels | src/voxelizer.rs:174-200 | with a hash-map store per tile, each tile holds exactly the pixels of the points that fall in it, at the pixel resolution of one of them; a tile no point falls in has no store |
| Voxelizers.AddAllPixelsStep | src/voxelizer.rs:176-199 | the per-tile property survives one more point |
| Voxelizers.AddCollectionToTiles | src/voxelizer.rs:176-182 | `add` of an integer collection reads its entries without the offset (`into_vec`); the tiles become the old tiles plus the tiles its points fall in |
| Voxelizers.FinishTiles | src/voxelizer.rs:128-142 | `finish_tiles`: per tile, in iteration order, the tile's bounds and averaged entries go to the output store's `new` with the tile store's offset and resolution |
| Voxelizers.FinishTile | src/voxelizer.rs:133-140 | one tile: a failing `get_bounds` fails the tile; otherwise a sparse output store holds exactly those bounds, offset and resolution |
| Voxelizers.FinishTilePoints | src/voxelizer.rs:133-140 | a tile whose bounds exist, finished into a point cloud, holds exactly the tile's entries, each divided by its weight, in the tile's order |
| Voxelizers.FinishTileH3 | src/voxelizer.rs:133-140 | a hash-map tile finished into a hash-map store keeps exactly the tile's points; each has weight one and the tile's colour sum divided by the tile's weight in every channel |
| Voxelizers.FinishTilesContents | src/voxelizer.rs:128-142 | for the tile at each position of `finish_tiles`' output: finished into a point cloud, it holds the tile's averaged entries; finished from a hash-map tile into a hash-map store, it holds the tile's points with averaged colours and weight one |
| Voxelizers.MinOf | src/voxelizer.rs:207 | `reduce(min)` of a non-empty list is an element no greater than any other |
| Voxelizers.MaxOf | src/voxelizer.rs:208 | `reduce(max)` of a non-empty list is an element no smaller than any other |
| Voxelizers.Resolutions | src/voxelizer.rs:207-208 | the tile stores' resolutions, in iteration order |
| Voxelizers.TileVoxels | src/voxelizer.rs:211 | the averaged entries of all tiles are one-point voxels, each at an offset-applied point of the tiles taken so far |
| Voxelizers.TilesPointsFromTile | src/voxelizer.rs:211 | a point of the tiles taken so far is a point of one particular tile among them |
| Voxelizers.TileLists | src/voxelizer.rs:205-211 | one list per tile, in the map's iteration order, each the tile's `into_vec_with_offset` |
| Voxelizers.TileVoxelsIsConcat | src/voxelizer.rs:211 | `flat_map(into_vec_with_offset).map(average_color)`: the collected voxels are the tiles' offset-applied lists, each averaged, concatenated tile after tile |
| Voxelizers.AveragedConcatLength | src/voxelizer.rs:211 | the averaged concatenation is exactly as long as all the lists together |
| Voxelizers.AveragedConcatAt | src/voxelizer.rs:211 | entry `k` of list `i` appears, averaged, at position `SegmentStart(i) + k` of the concatenation: nothing is dropped, reordered or merged |
| Voxelizers.FinishMapTile | src/voxelizer.rs:203-217 | `finish`: fails exactly when there are no tiles (the `unwrap` of an empty `reduce`); otherwise offset zero, no bounds, the resolution halfway between the smallest and largest tile resolution, and a point-cloud output lists every tile's averaged entries |
| Voxelizers.MergedTiles | src/voxelizer.rs:205-216 | the output store built from the tiles has the kind asked for, offset zero, no bounds and the mid-range resolution |
| Voxelizers.MergedTilesIsNew | src/voxelizer.rs:203-217 | for every output kind, the merged store is exactly that store's `new` over the collected tile voxels, with no bounds, offset zero and the mid-range resolution; the voxels respect the weight limit, so `new` succeeds |
| Voxelizers.FinishMapTileIsNew | src/voxelizer.rs:203-217 | `finish` fails exactly when there are no tiles; otherwise, for every output kind, its result is that store's `new` over the collected tile voxels (`TileVoxelsIsConcat`) with no bounds, offset zero and the mid-range resolution |
| VoxelTiles.TileOfCoord | src/voxel.rs:60-66 | the tile index of a pixel is its x and y divided by 256: the pixel lies in that 256-pixel square |
| VoxelTiles.InTile | src/voxel.rs:59-69 | the points that lie in a tile, in their original order: exactly the points whose tile it is |
| VoxelTiles.SplitMapContents | src/voxel.rs:57-69 | the tile map holds exactly the tiles some point lies in, each with exactly that tile's points in order, at the cloud's zoom level |
| VoxelTiles.SplitStep | src/voxel.rs:68 | one more point is appended to its tile, and a tile seen for the first time starts with just that point |
| VoxelTiles.SplitMapCount | src/voxel.rs:57-69 | every point is counted in exactly one tile of the map |
| VoxelTiles.CountInBump | src/voxel.rs:68 | one more point in a tile listed once adds one to the total |
| VoxelTiles.TotalOfListing | src/voxel.rs:71 | listing the map counts the same points as the map holds |
| VoxelTiles.SplitByTile | src/voxel.rs:56-72 | `split_by_tile`: one entry per tile some point lies in, no tile twice, each holding exactly that tile's points in order (so none is empty) at the cloud's zoom level; together they hold every point once |
| VoxelTiles.TallyMapContents | src/voxel.rs:132-141 | the tally map holds exactly the given coordinates, each counting and summing every occurrence but the first |
| VoxelTiles.TallyStep | src/voxel.rs:137-140 | one more point: a new coordinate starts at count 0 and sum 0, a known one adds its colour and counts one |
| VoxelTiles.TallyAgain | src/voxel.rs:137-139 | a later occurrence adds its colour and counts one |
| VoxelTiles.ColorToU8 | src/voxel.rs:152-156 | `as u8` keeps each channel below 256 and leaves channels that fit unchanged |
| VoxelTiles.Emit | src/voxel.rs:144-158 | the closure gives nothing for a count of 0 or a count below the threshold; otherwise the coordinate with the integer mean colour cast to `u8` |
| VoxelTiles.FilterMapTallies | src/voxel.rs:160-164 | `filter_map` keeps exactly what the closure emits for some tally, and distinct coordinates stay distinct |
| VoxelTiles.FromVoxelPointCloud | src/voxel.rs:127-169 | `from_voxel_point_cloud`: a voxel exactly for each coordinate given at least twice and at least threshold + 1 times, whose colour is the integer mean of its occurrences after the first; no coordinate twice; the zoom level kept |
| VoxelTiles.EmittedIff | src/voxel.rs:143-165 | the filtered tallies hold a pair iff its coordinate is kept and the colour is that coordinate's mean after the first occurrence |
| VoxelTiles.EmitOfTally | src/voxel.rs:144-158 | the closure emits for a coordinate's tally iff the coordinate is kept, and then emits its mean |
| VoxelTiles.SingleOccurrenceDropped | src/voxel.rs:137-147 | a coordinate given only once never yields a voxel, because its tally starts at count 0 |
| VoxelTiles.MeanOfBytesFitsU8 | src/voxel.rs:152-156 | for byte colours the mean never exceeds 255, so the `as u8` cast never truncates |
| GlbGen.RoundUpToMulOfFour | src/glb_gen.rs:95-102 | the result is a multiple of four, at least `n` and less than `n + 4`, and equals `n` exactly when `n` already is one (the unit test's table 0→0, 1..4→4, 5..8→8 follows) |
| GlbGen.RoundUpIsLeast | src/glb_gen.rs:93-102 | no multiple of four at least `n` is smaller than the rounded-up value: it is the least one |
| GlbGen.PadToMulOfFour | src/glb_gen.rs:80-91 | the padded list keeps the input as its prefix, fills the rest with the default value, and its length is the length rounded up to a multiple of four |
| GlbGen.PadIsUnique | src/glb_gen.rs:80-91 | any list with those three properties is the padded list, so the padding is determined (the unit test's `[1,2,3]`→`[1,2,3,0]` is one instance) |
| GlbGen.ToGlbAxes | src/glb_gen.rs:116-120 | the glTF vertex `(x, z, -y)` maps back to the mesh point it came from: the axis change loses nothing |
| GlbGen.ItemBytes | src/glb_gen.rs:72-78 | an element's bytes are exactly its `size` bytes in memory order |
| GlbGen.Encode | src/glb_gen.rs:72-78 | a list's byte image has `size` bytes per element |
| GlbGen.EncodeElement | src/glb_gen.rs:72-78 | element `j` of a list occupies bytes `size*j` to `size*j + size` of its byte image |
| GlbGen.PaddedElement | src/glb_gen.rs:272 | padding the list does not move or change its elements' bytes |
| GlbGen.IndexItems | src/glb_gen.rs:124-126 | each vertex id becomes the `u32` index it is cast to, in order |
| GlbGen.VertexItems | src/glb_gen.rs:116-120 | each mesh point becomes the glTF vertex in glTF's axes, in order |
| GlbGen.VertexBytes | src/glb_gen.rs:131-134 | the vertex bytes take the padded vertex length: the vertex count rounded up to four, 12 bytes each |
| GlbGen.VertexBytesElement | src/glb_gen.rs:271-274 | vertex `j` is stored at byte `12 j` of the vertex bytes as the glTF vertex of point `j` |
| GlbGen.FaceLists | src/glb_gen.rs:122-129 | the index lists follow the faces map's colour order, list `i` being colour `i`'s vertex ids |
| GlbGen.PaddedIndexLengths | src/glb_gen.rs:132 | each list's padded length is its length rounded up to four, four bytes per index |
| GlbGen.IndexChunks | src/glb_gen.rs:271-274 | the index chunks are exactly as long as the sum of the padded index lengths |
| GlbGen.IndexChunksElement | src/glb_gen.rs:271-274 | index `j` of list `i` is stored, as its `u32` cast, after the padded lists before `i` |
| GlbGen.FromVoxelMesh | src/glb_gen.rs:107-285 | `from_voxel_mesh`: an error exactly when the padded JSON plus the buffer reaches 2^32; otherwise header magic, version 2 and the padded JSON plus the binary chunk, the chunk exactly `buffer_length` bytes, the vertex view first and the index view right after it, one index accessor per colour, the positions accessor counting every vertex and bounded by the corrected mesh box |
| GlbGen.AccessorsInSlots | src/glb_gen.rs:191-197 | every index accessor's offset is a multiple of 16 and its indices fit inside the index view |
| GlbGen.MeshGlbVertex | src/glb_gen.rs:116-152 | the vertex view holds vertex `j` at byte `12 j` as the glTF vertex of mesh point `j` |
| GlbGen.MeshGlbIndex | src/glb_gen.rs:191-207 | accessor `i` reads, at its offset in the index view, exactly the `u32` vertex ids of colour `i` |
| GlbGen.MeshGlbParts | src/glb_gen.rs:154-197 | the binary chunk is the vertex bytes then the index chunks, the index view starts after the vertices, accessor `i` after the padded lists before it |
| GlbGen.MeshGlbAccessorsDisjoint | src/glb_gen.rs:191-197 | an earlier colour's indices end before a later colour's accessor begins: the accessors do not overlap |
| GlbGen.MeshGlbAccessorSlot | src/glb_gen.rs:191-207 | accessor `i` counts colour `i`'s indices, starts on a 16-byte boundary and ends inside the index view |
| GlbGen.PositionBoundsAsWritten | src/glb_gen.rs:165-173 | the bounds as written copy all six coordinates of the mesh box's `min` and `max` unchanged, in the mesh's axes |
| GlbGen.PositionBounds | src/glb_gen.rs:165-189 | the corrected bounds contain the glTF image of every point of the mesh box: `(min.x, min.z, -max.y)` to `(max.x, max.z, -min.y)` |
| GlbGen.PositionBoundsAsWrittenMissCorner | src/glb_gen.rs:165-189 | a corner of the mesh box falls outside the bounds as written once `-max.y < min.z`, yet inside the corrected bounds |
| GlbGen.PositionBoundsAsWrittenMissVertex | src/glb_gen.rs:165-189 | meshing a lone voxel at the origin gives a vertex that the positions accessor's bounds as written exclude and the corrected bounds include |
| GlbGen.LoneMeshCorner | src/mesher.rs:41-112 | meshing a lone voxel gives the unit box from the voxel and the cube corner one step up in `y` among the vertices |
| GlbGen.MimeType | src/glb_gen.rs:453-456 | the MIME string names the texture format: reading it back gives the same format |
| GlbGen.Flatten | src/glb_gen.rs:300-302 | the flattened index list is as long as all lists together |
| GlbGen.FlattenElement | src/glb_gen.rs:300-302 | index `j` of colour `i` sits in the flat list after the lists of the colours before it |
| GlbGen.UvItems | src/glb_gen.rs:321-327 | one texture coordinate per mesh point, in point order |
| GlbGen.TextureBytes | src/glb_gen.rs:335-339 | the texture contributes its bytes when it has some and nothing otherwise |
| GlbGen.FromVoxelMeshWithTexture | src/glb_gen.rs:287-575 | `from_voxel_mesh_with_texture_projected_z`: vertex, index, texture-coordinate and (only when the texture has bytes) texture views follow one another without gaps; the chunk is exactly `buffer_length` bytes; one index per vertex id of every colour and one texture coordinate per point; the image carries the texture's MIME type and URI; too large a file is an error, exactly when the padded JSON plus the buffer reaches 2^32 |
| GlbGen.TexturedParts | src/glb_gen.rs:556-564 | the textured binary chunk is the padded vertices, the padded flat indices, the padded texture coordinates, then the texture bytes |
| GlbGen.TexturedGlbVertex | src/glb_gen.rs:556-560 | the vertex view holds vertex `j` at byte `12 j` as the glTF vertex of mesh point `j` |
| GlbGen.TexturedGlbIndex | src/glb_gen.rs:556-560 | the index of colour `i`'s `j`-th vertex id sits in the index view after every index of the colours before `i` |
| GlbGen.TexturedGlbFlatIndex | src/glb_gen.rs:300-302 | element `k` of the index accessor is the `u32` cast of the `k`-th vertex id of the flattened lists |
| GlbGen.TexturedGlbUv | src/glb_gen.rs:556-560 | the texture-coordinate view holds point `j`'s coordinate at byte `8 j` |
| GlbGen.TexturedGlbTexture | src/glb_gen.rs:562-564 | the texture view holds the texture's bytes unchanged, in order |
| Ply.VertexByProperties | src/ply.rs:17-25 | a vertex is determined by its six properties `x`, `y`, `z`, `red`, `green`, `blue` |
| Ply.SetVertexProperty | src/ply.rs:32-42 | a known key with a property of the right type sets exactly that field and leaves the others alone; any other key or type changes nothing |
| Ply.SetFaceProperty | src/ply.rs:57-62 | `vertex_indices` with an unsigned-int list replaces the face's indices; anything else changes nothing |
| Ply.VertexElement | src/ply.rs:179-188 | the writer lists the six vertex properties in header order, each with the type `set_property` accepts for it |
| Ply.VertexRoundTrip | src/ply.rs:179-188 | reading a written vertex element back through `set_property` gives the vertex again |
| Ply.ReadVertexPrefix | src/ply.rs:32-42 | after the first `n` properties are read, exactly the fields among them are set and the rest keep their default |
| Ply.FaceRoundTrip | src/ply.rs:192-195 | reading a written face element back gives the face again |
| Ply.FaceIgnoresVertexProperties | src/ply.rs:57-62 | a face reading vertex properties stays the default face |
| Ply.VertexIgnoresFaceProperties | src/ply.rs:32-42 | a vertex reading a face's property stays the default vertex |
| Ply.GroupVertices | src/ply.rs:126-137 | a colour group's vertex ids become, in order, the vertices of those mesh points in the group's colour |
| Ply.Remap | src/ply.rs:124-140 | after the groups go through `insert_full` in turn, the vertex set has no duplicates and each group's `j`-th index points at the vertex of its `j`-th point in the group's colour |
| Ply.RemapStep | src/ply.rs:139 | inserting a later group keeps the indices of the earlier groups valid, because the set only grows at its end |
| Ply.RemapCovers | src/ply.rs:124-149 | every vertex in the set is the target of some group's index: none is unused |
| Ply.Chunks | src/ply.rs:142-144 | `chunks(3)` cuts the indices into `ceil(n/3)` faces of three indices, only the last possibly shorter but never empty, which joined give back the indices |
| Ply.U32s | src/ply.rs:139 | each index is the `u32` cast of the `insert_full` position |
| Ply.FromVoxelMesh | src/ply.rs:113-152 | `from_voxel_mesh`: distinct vertices; every face has one to three indices; while the vertex count fits in `u32`, every index names a vertex |
| Ply.FacesInRange | src/ply.rs:139-145 | chunking the groups' indices keeps one to three per face, each below the vertex count when that fits in `u32` |
| Ply.FromVoxelMeshGroup | src/ply.rs:126-140 | colour `i`'s `j`-th vertex id is remapped to the vertex of that point in colour `i` |
| Ply.FromVoxelMeshFaces | src/ply.rs:126-151 | the faces are each group's remapped indices in chunks of three, and every vertex is used by some index |
| ImageSampler.Raw | src/image_sampler.rs:64-69 | the pixel's value `65536 r + 256 g + b` is below 2^24 |
| ImageSampler.RawRoundTrip | src/image_sampler.rs:64-69 | the value determines the pixel and every value below 2^24 comes from exactly one pixel |
| ImageSampler.HeightCm | src/image_sampler.rs:64-79 | no height exactly at 2^23; below it the height in centimetres is the value itself, above it the value less 2^24, so negative |
| ImageSampler.HeightRoundTrip | src/image_sampler.rs:64-79 | every height strictly between -2^23 and 2^23 centimetres has a pixel, and a pixel's height gives that pixel back |
| ImageSampler.ColorOf | src/image_sampler.rs:84 | the colour is the colour pixel's three bytes, so each channel is at most 255 |
| ImageSampler.DefaultColors | src/image_sampler.rs:41-51 | without a colour image, a 256×256 tile of black pixels |
| ImageSampler.Zip | src/image_sampler.rs:53-57 | `zip` pairs the pixels index by index and stops at the shorter image |
| ImageSampler.Rows | src/image_sampler.rs:58 | `chunks(256)` gives rows of one to 256 pixels |
| ImageSampler.SamplePixel | src/image_sampler.rs:63-90 | a pixel yields a point exactly when it has a height, and at most one |
| ImageSampler.SampleFromAppend | src/image_sampler.rs:58-92 | sampling a concatenation samples the first part, then the second from where the first stopped |
| ImageSampler.SampleRowFlat | src/image_sampler.rs:58-63 | sampling row `y` from column `x` is sampling the flat pixel list from `256 y + x` |
| ImageSampler.SampleRowsFlat | src/image_sampler.rs:58-92 | sampling the rows of 256 is sampling the flat list with each pixel at column `i mod 256` and row `i div 256` |
| ImageSampler.SampleFromContents | src/image_sampler.rs:60-92 | one point per pixel with data, and a point is sampled exactly when such a pixel yields it |
| ImageSampler.SamplePoints | src/image_sampler.rs:43-92 | the points are those of the zipped flat pixel list |
| ImageSampler.SamplePointsContents | src/image_sampler.rs:43-92 | as many points as pixels with data among the zipped ones; a point is sampled exactly when some pixel `i` with data yields it at column `i mod 256`, row `i div 256`, with the colour pixel's colour |
| ImageSampler.HeightMap | src/image_sampler.rs:94-97 | the builder gives a well-formed height map with `u8` weights, the given resolution and no offset |
| ImageSampler.HeightMapColumns | src/image_sampler.rs:94-97 | the height map has a column exactly at the `(x, y)` of each point |
| ImageSampler.HeightMapKeys | src/image_sampler.rs:94-97 | its columns are those the builder's points give |
| ImageSampler.Sampling | src/image_sampler.rs:24-98 | `sampling` gives a well-formed height map with the resolution of the zoom level and no offset |
| ImageSampler.SamplingColumns | src/image_sampler.rs:24-98 | the height map has a column exactly at the position of each altitude pixel that has data |
| ImageSampler.PointColumns | src/image_sampler.rs:53-92 | the points' columns are exactly the positions of the pixels with data |

## Left out

- File and stream I/O: `PointCloud::from_ply` and `PlyStructs::into_ascii_buf` (src/ply.rs:72-91, 155-207) parse and write text through `ply_rs`; only the records they exchange and `set_property` are modelled. src/las.rs and src/tiler.rs read LAS files and are not part of this model.
- Floating-point arithmetic: the sRGB-to-linear conversion `srgb_to_liner_rgba` (src/glb_gen.rs:56-71), the PLY position and colour scaling (src/ply.rs:122, 127), averaging of resolutions (src/voxelizer.rs:207-209) and `pixel_resolution` (src/image_sampler.rs:31-39). PLY positions are exact `real`s and the colour conversion is a parameter `rgb`; the resolution of a zoom level is a parameter.
- GLB contents beyond the layout: the glTF JSON and its serialisation (`root.to_string`), the materials' colours, node translation and scale, and the floating-point texture coordinates. The texture coordinates are abstract values, one per point. `convert_to_byte_vec` is modelled by its byte count and element order; the bytes of an `f32` or `u32` are abstract.
- GlbGen.FromVoxelMesh: the header's `length` is the padded JSON plus the buffer, leaving out the 12-byte file header and the two 8-byte chunk headers that chapter 4 of the glTF 2.0 specification counts; this is modelled as written, since the `gltf` crate may recompute the length when it writes the file.
- GlbGen.FromVoxelMeshWithTexture: does not model the positions accessor's `min`/`max` (src/glb_gen.rs:363-368), which copy the mesh box without the axis change just as in `from_voxel_mesh`; and the texture bytes are not padded to four, as written (src/glb_gen.rs:562-564).
- Hash-map iteration order of `DashMap`, `HashMap` and `FxBuildHasher` maps, and concurrency: the model iterates in first-insertion order and no contract depends on the order.
- The accessors `set_offset`, `get_offset`, `get_resolution`, `batch`, `offset_to_min` and the trait's default `insert` (src/collection.rs): not among the operations modelled; `PointCloud`'s own `insert` is.
- Voxelizers.NewSimple: `SimpleVoxelizer` is modelled over the sparse stores only. With a dense `Vec3` or `Vec2` store nothing is lost on `add`: the merge passes no bounds, because the builder cloud has none (src/voxelizer.rs:91-103, src/collection.rs:325-327), and the dense `new` then recomputes the box from the points (src/collection.rs:494-499, 675-677). But the dense `new` writes each point into its cell and overwrites an earlier point in the same cell instead of adding to it (src/collection.rs:501-512, 682-689). Its `into_vec` also lists every empty cell or column of the box with weight zero (src/collection.rs:548-557, 758-770), and `finish` then divides those cells' colours by zero (src/voxelizer.rs:27). A dense simple voxelizer therefore has no well-defined result to model.
- Voxelizers.FinishMapTile: its own contract lists the contents only for a point-cloud output. For every other output kind, `FinishMapTileIsNew` shows that the result is that store's `new` over the collected tile voxels, and the contents then follow from that `new`'s own contract (for example `Vec3Collections.New`, `Vec2Collections.New`) rather than being restated per store.
- Voxelizers.FinishTiles: the contents of a finished tile are restated only for a point-cloud output and for a hash-map tile finished into a hash-map store (`FinishTilesContents`). For the dense outputs, and for `HMap2D` outputs, the tile is that store's `new` applied to the averaged entries, and its contents are given by that `new`'s own contract.
- Voxelizers.NewMapTile: `Resolution::Tile` has only `zoom_lv` (src/element.rs:224-235) while `MapTileVoxelizer::new` matches a `jpr_origin` field too (src/voxelizer.rs:162-171); the model takes the zoom level and the origin as given.
- CollectionCore.AddColorWithWeightCheck: the colour sum is unbounded; an overflow of the colour type's `ColorPool` is not modelled.
- Vec3Collections.New, Vec2Collections.New, Vec3Collections.InsertOne, Vec3Collections.Has and Vec2Collections.InsertOne: the unsigned `point - min` of a point below the box (src/collection.rs:561, 576, 773) wraps around in release builds and panics in debug builds; the model treats it as a point outside the box, which is what the release build's wrapped index amounts to. `meshing` reaches `has` at such a point for the lower neighbour of every voxel on the box's low face, so a debug build with an unsigned coordinate type panics there, while the model answers false.
- Meshing.Meshing: the `BORDER` test compares the corners in local coordinates with the bounds returned by `get_bounds`, which include the offset for stores that compute their bounds; the model does the same and claims no property for a non-zero offset.
- Meshing.Meshing: faces are read from the collection after `get_bounds` has cached its bounds, as in the source; the value `to_points` divides by is a voxel's weight, so the model requires every entry to carry weight (an empty dense cell would divide by zero).
- Meshing.Meshing: for a `Vec2` store the neighbour test of `is_required` (src/mesher.rs:60-68) asks the corrected `has` that indexes relative to the grid (Vec2Collections.Has), not the raw-index `has` of src/collection.rs:792-802 (see Findings). The two agree when the grid's minimum column is (0, 0) (Vec2Collections.HasAsWritten). Elsewhere the source can keep or cull a side differently from the model.
- GlbGen.FromVoxelMesh: the positions accessor's `min`/`max` are the mesh box turned into glTF's axes (GlbGen.PositionBounds), not the unchanged copy of the mesh box that src/glb_gen.rs:165-173 writes (GlbGen.PositionBoundsAsWritten, see Findings).
- Voxelizers.AddAllPixels: proved for hash-map tile stores only. With the default `Vec3` (map tiles) or `Vec2` (terrain) store, each tile keeps only its first point's cell or column (Voxelizers.DenseSeedKeepsOneCell), as the source does.
- Params, wiring and type-level configuration (src/params.rs, src/build_voxelizer.rs, src/lib.rs): constants and generic plumbing with no behaviour of their own.

## Findings

| source | as written | input that shows it | evidently intended | confidence | as-written member | corrected member |
|---|---|---|---|---|---|---|
| src/collection.rs:792-802 | `Vec2VoxelCollection::has` indexes the grid with the raw `x` and `y` | a grid built by `new` from the single point (5, 5, 0): the point is stored at column (0, 0), and `has` looks at (5, 5) and answers false | index relative to `bounds_xy.0`, as `new` and `insert_one` do (src/collection.rs:686-689, 772-774) | not executed | Vec2Collections.HasAsWrittenMissesOffsetGrid | Vec2Collections.HasAfterNew |
| src/glb_gen.rs:165-189 | the positions accessor's `min` and `max` copy the mesh box in the mesh's axes | a lone voxel at the origin: its vertex (0, 1, 0) becomes the glTF vertex (0, 0, -1), below the written `min` (0, 0, 0) | the box in glTF's axes `(x, z, -y)`, the change applied to the vertices at src/glb_gen.rs:116-120 | not executed | GlbGen.PositionBoundsAsWrittenMissVertex | GlbGen.PositionBounds |
