# Voxel chunk terrain: a Dafny model

This project models the core of a voxel terrain generator. The world is a
grid of cubic chunks. Each chunk stores a block type per cell and a height
per column. `Populate` fills the chunk from a height function. `GenerateMesh`
scans every column from its stored height downward, culls hidden faces and
emits one quad per visible face into a geometry sink (`DynamicMesh`): four
positions, two triangles, and a normal and a colour for each corner. The
world layer, `WorldGen`, lays the chunks out on a grid, regenerates the grid
when its button is pressed, and draws every chunk whose mesh is ready.

The modules follow the source:

- `Geometry` holds integer vectors, the cross product and C++'s truncating
  `/` and `%`.
- `ChunkLayout` holds the pure part of `Chunk.h`: the index helpers
  `_GetLoc` and `_GetBlockLoc`, the neighbour classifier `_GetBlockState`
  and `_BlockExists`.
- `Mesh` holds the sink interface the chunk writes through. It is a class
  whose state is its four buffers and a flush counter.
- `Meshing` holds the specification functions of the mesher:
  - which faces a cell, a column, a row and the chunk emit (`LayerFaces`,
    `ColumnFaces`, `RowFaces`, `ChunkFaces`);
  - the quad of each face (`SideQuad`);
  - what emitting faces does to the sink (`Emit`, `EmitAll`).
- `Chunks` holds class `Chunk`. Its fields are the ones `Chunk.cpp` updates.
  `GenerateMesh`'s nested loops are methods with loop invariants. Each is
  proved to append exactly `EmitAll(old sink, faces)` for the faces its
  part of the chunk has.
- `World` holds class `WorldGen` with `GenerateWorld`, `OnUpdate`, the
  background chunk task and `OnDraw`.

Several behaviours of the code are stated as lemmas, not hidden:

- `_GetBlockState` is called as `(x, z, l)`, so its edge test looks at the
  x border and at layers 0 and Size - 1. Its range test compares the column
  with the chunk height using a strict `>`.
  - The column scan therefore stops at layer 1 (`ScanExtent`).
  - A column of height 0 draws four lateral faces at layer -1, below the
    chunk's floor (`ZeroHeightColumnFaces`).
  - Columns on the x border draw nothing (`BorderColumnsEmitNothing`).
  - The front neighbour of the last row is read from column (x, 0) one layer
    up (`PastLastColumnReadsNextLayer`, `CullingRule`).
- Normals are the integer cross product of the corners, as `_CreateQuad`
  computes it. They are not unit vectors. The top face gets (0, -2B², 0),
  both x-facing sides get (-2B², 0, 0), and both z-facing sides get
  (0, 0, 2B²) (`FaceNormals`). So opposite sides share one normal.
- `GenerateWorld` gives chunk i the grid cell `(i % Y, (i / X) % Y)`. On a
  square grid this is a bijection (`SquareGridBijective`). On other grids two
  chunks can share a cell (`NonSquareGridRepeatsCells`).
- The recorded draw offset steps by `S * B - 8` in x, while `SetOffset` steps
  by `S * B - 2 * B`. The two agree only in the first grid column or when
  B = 4 (`OffsetMatchesPlacement`).
  - At `SetOffset`'s positions, neighbouring meshes abut in x and in z
    (`PlacementsAbut`).
  - `OnDraw` translates by the recorded offset instead. There, neighbouring
    meshes abut in x only when B = 4; otherwise they are 2B - 8 apart, a gap
    when B > 4 and an overlap when B < 4 (`DrawnOffsetsAbut`).
- `m_IsGenerating` is set and cleared within `GenerateWorld`'s own body. The
  chunk tasks it queues can still be running after it returns. So `OnUpdate` and
  `OnDraw` always find the flag clear: the update gate reduces to the button,
  and `OnDraw`'s early return never fires. The model keeps both checks. The
  constructor and `GenerateWorld` ensure the flag is clear, and `OnUpdate`
  keeps it clear.

## Model

| member | source | states |
|---|---|---|
| Geometry.CrossOrthogonal | src/prism/Voxels/Chunk.cpp:122 | the normal `_CreateQuad` computes with glm::cross is perpendicular to both difference vectors |
| Meshing.QuadNormalPerpendicular | src/prism/Voxels/Chunk.cpp:122 | the normal `_CreateQuad` computes is perpendicular to both diagonals of the quad |
| Geometry.CDiv | src/game/Voxel.cpp:53 | C++ int division; agrees with Euclidean division on a non-negative dividend and a positive divisor; non-negative when the operands have the same sign and non-positive otherwise |
| Geometry.CRem | src/game/Voxel.cpp:52-53 | C++ int remainder: `b * CDiv(a, b) + CRem(a, b) == a`, `abs(CRem) < abs(b)`, and the remainder takes the dividend's sign; agrees with Euclidean remainder on a non-negative dividend and a positive divisor |
| Geometry.TruncatedDivisionUnique | src/game/Voxel.cpp:52-53 | any q, r with `b * q + r == a`, `abs(r) < abs(b)` and r of a's sign are CDiv(a, b) and CRem(a, b): the pair is C++'s truncating division |
| ChunkLayout.GetLoc | src/prism/Voxels/Chunk.h:99-102 | an in-range column (x, z) has an index inside the height vector |
| ChunkLayout.ColumnLocBound | src/prism/Voxels/Chunk.h:99-102 | `X * y + x` lies in [0, X * Z) for in-range x and y |
| ChunkLayout.GetBlockLoc | src/prism/Voxels/Chunk.h:103-106 | an in-range cell has an index inside the block vector |
| ChunkLayout.CellLocBound | src/prism/Voxels/Chunk.h:103-106 | `X * (y + Z * z) + x` lies in [0, X * Z * Y) for in-range x, y and z |
| ChunkLayout.GetLocInjective | src/prism/Voxels/Chunk.h:99-102 | two columns with in-range x and the same index are the same column |
| ChunkLayout.GetBlockLocInjective | src/prism/Voxels/Chunk.h:103-106 | two cells with in-range x and y and the same index are the same cell |
| ChunkLayout.GetBlockLocOnto | src/prism/Voxels/Chunk.h:103-106 | every index of the block vector is the index of the in-range cell given by `%` and `/`, and of no other in-range cell |
| ChunkLayout.QueriedCellInStorage | src/prism/Voxels/Chunk.h:118-137 | a query that passes the edge test and the range test (including y == Size) reads inside the block vector |
| ChunkLayout.BlockState | src/prism/Voxels/Chunk.h:118-138 | EDGE exactly when x is on the x border or the third argument is 0 or Z - 1; otherwise NONEXIST out of range; otherwise the table entry of the stored type |
| ChunkLayout.Classify | src/prism/Voxels/Chunk.h:131-137 | the selection table: a stored cell is never EDGE, exists exactly when it is not NONE, and is TOP exactly when it is DIRT |
| ChunkLayout.BlockExists | src/prism/Voxels/Chunk.h:140-143 | computes whether a classified cell is solid: BODY and TOP are, EDGE and NONEXIST are not (see StoredBlockExists) |
| ChunkLayout.StoredBlockExists | src/prism/Voxels/Chunk.h:131-143 | a stored cell exists exactly when its type is not NONE, and the table never yields EDGE |
| ChunkLayout.PastLastColumnReadsNextLayer | src/prism/Voxels/Chunk.h:124-137 | with the strict `y > Y` test, column y == Size of layer l is read from column 0 of layer l + 1 |
| Mesh.DynamicMesh.constructor | src/prism/Voxels/Chunk.cpp:35-43 | a new sink has empty buffers and has not been flushed |
| Mesh.DynamicMesh.AddVertex | src/prism/Voxels/Chunk.cpp:117-120 | appends one position and returns its index, the old position count; nothing else changes |
| Mesh.DynamicMesh.ConnectVertices | src/prism/Voxels/Chunk.cpp:124-125 | appends one triangle by vertex index; nothing else changes |
| Mesh.DynamicMesh.AddAttribute | src/prism/Voxels/Chunk.cpp:133-136 | appends one value to the named attribute channel only |
| Mesh.DynamicMesh.Flush | src/prism/Voxels/Chunk.cpp:165 | counts one upload; the buffered data is kept |
| Meshing.FaceNormals | src/prism/Voxels/Chunk.cpp:122 | the normal of each side's quad is an axis vector of length 2B²: top (0, -2B², 0), left and right (-2B², 0, 0), front and back (0, 0, 2B²) |
| Meshing.CrossOfAxes | src/prism/Voxels/Chunk.cpp:122 | the three cross products those normals come from |
| Meshing.FacePlanes | src/prism/Voxels/Chunk.cpp:319-405 | the four corners of each quad lie on the plane of that side of the cell, and in the other two directions take both bounds of the cell |
| Meshing.SideQuad | src/prism/Voxels/Chunk.cpp:322-404 | computes the literal corners passed to `_CreateQuad` for each side of cell (x, z, l); their planes and normals are FacePlanes and FaceNormals |
| Meshing.QuadNormal | src/prism/Voxels/Chunk.cpp:122 | computes `glm::cross(p2 - p0, p3 - p1)`; its values per side are FaceNormals |
| Meshing.AppendQuad | src/prism/Voxels/Chunk.cpp:106-129 | computes what `_CreateQuad` does to the sink: four positions, triangles (v0, v1, v3) and (v3, v1, v2), the normal four times; its properties are QuadKeepsLockStep and QuadStoresQuad |
| Meshing.EmitAllAppend | src/prism/Voxels/Chunk.cpp:235-407 | emitting two lists of faces one after the other is emitting their concatenation |
| Meshing.EmitSides | src/prism/Voxels/Chunk.cpp:361-406 | emitting a layer's lateral faces is emitting left, right, front and back in turn |
| Meshing.EmitAllSnoc | src/prism/Voxels/Chunk.cpp:319-406 | emitting one more face after a list is one more Emit |
| Meshing.QuadKeepsLockStep | src/prism/Voxels/Chunk.cpp:106-137 | a quad and its four colours keep every channel the length of the positions, add 4 vertices and 2 triangles, and only reference existing vertices |
| Meshing.EmitKeepsLockStep | src/prism/Voxels/Chunk.cpp:319-406 | the same for one emitted face |
| Meshing.EmitAllKeepsLockStep | src/prism/Voxels/Chunk.cpp:186-412 | any list of faces adds exactly 4 vertices and 2 triangles per face, keeps the channels in lock-step, and leaves the earlier contents of every buffer untouched |
| Meshing.QuadStoresQuad | src/prism/Voxels/Chunk.cpp:106-137 | a quad lands at the old vertex and triangle counts: its four corners, triangles (v0, v1, v3) and (v3, v1, v2), and its normal and colour on all four corners |
| Meshing.EmitStoresFace | src/prism/Voxels/Chunk.cpp:319-406 | the same for one emitted face |
| Meshing.QuadStoredExtends | src/prism/Voxels/Chunk.cpp:106-137 | a stored quad stays stored when the sink only grows |
| Meshing.EmitAllFace | src/prism/Voxels/Chunk.cpp:186-412 | the k-th face emitted sits at vertices n + 4k .. n + 4k + 3 and triangles t + 2k, t + 2k + 1, with its quad, normal and colour |
| Meshing.FirstFaceStored | src/prism/Voxels/Chunk.cpp:186-412 | the first face emitted keeps its place whatever is emitted after it |
| Meshing.FacesOfSides | src/prism/Voxels/Chunk.cpp:319-406 | a cell emits at most one face per side tested |
| Meshing.LayerFaces | src/prism/Voxels/Chunk.cpp:319-406 | a visited layer emits at most five faces |
| Meshing.LayerFacesSplit | src/prism/Voxels/Chunk.cpp:319-406 | a layer's faces are its top face followed by its left, right, front and back faces |
| Meshing.SideFaces | src/prism/Voxels/Chunk.cpp:356-406 | a layer emits at most four lateral faces |
| Meshing.LayerFacesMembers | src/prism/Voxels/Chunk.cpp:319-406 | a face is among a layer's faces exactly when it belongs to that cell and is visible: the top face when the cell is TOP, a lateral face when its neighbour is not BODY or TOP |
| Meshing.DescendingMembers | src/prism/Voxels/Chunk.cpp:253 | the descending run hi .. lo holds exactly the layers between lo and hi |
| Meshing.BorderColumnScansNothing | src/prism/Voxels/Chunk.cpp:253-260 | a column on the x border is EDGE at once, so its scan visits no layer |
| Meshing.ZeroHeightColumnFaces | src/prism/Voxels/Chunk.cpp:239-406 | an interior column of height 0 emits exactly its left, right, front and back faces at layer -1 |
| Meshing.ScanExtent | src/prism/Voxels/Chunk.cpp:239-260 | from stored height h the scan visits: nothing if h < 0; layer -1 if h == 0; h - 1 down to 1 if 0 < h < Size; nothing if h == Size; h - 1 down to Size if h > Size |
| Meshing.Scan | src/prism/Voxels/Chunk.cpp:253-260 | the layers `while (l-- >= 0)` visits form a run l - 1, l - 2, ... that never goes below -1 |
| Meshing.ScanLayers | src/prism/Voxels/Chunk.cpp:239-260 | for 0 <= h <= Size a layer is visited exactly when it is -1 and h == 0, or 0 < l < h < Size |
| Meshing.FacesOfLayersMembers | src/prism/Voxels/Chunk.cpp:253-406 | a face is emitted for a list of layers exactly when its layer is listed and it is among that layer's faces |
| Meshing.ColumnFacesMembers | src/prism/Voxels/Chunk.cpp:237-407 | a face is emitted for column (x, z) exactly when it belongs to the column, its layer is visited by the scan, and it is visible |
| Meshing.ColumnFacesAt | src/prism/Voxels/Chunk.cpp:237-407 | every face a column emits belongs to that column |
| Meshing.RowFacesMembers | src/prism/Voxels/Chunk.cpp:237-408 | a face is emitted by columns z .. Z - 1 of row x exactly when its z lies there and its own column emits it |
| Meshing.RowFacesAt | src/prism/Voxels/Chunk.cpp:237-408 | every face a row emits belongs to that row |
| Meshing.GridFacesMembers | src/prism/Voxels/Chunk.cpp:235-409 | a face is emitted by rows x .. X - 1 exactly when its x lies there and its own row emits it |
| Meshing.ChunkFacesMembers | src/prism/Voxels/Chunk.cpp:235-409 | a face is emitted by the chunk exactly when its column is in the chunk, its column's scan visits its layer, and it is visible |
| Meshing.BorderColumnsEmitNothing | src/prism/Voxels/Chunk.cpp:235-260 | every emitted face belongs to a column strictly inside the x border |
| Meshing.GridStep | src/prism/Voxels/Chunk.cpp:235 | the faces of rows x .. X - 1 are row x's faces followed by those of rows x + 1 .. X - 1 |
| Meshing.RowStep | src/prism/Voxels/Chunk.cpp:237 | the faces of columns z .. Z - 1 are column z's faces followed by the rest |
| Meshing.ColumnStart | src/prism/Voxels/Chunk.cpp:239-240 | a column's faces are those of the scan starting at its stored height |
| Meshing.ScanStep | src/prism/Voxels/Chunk.cpp:253-406 | a pass that does not stop emits the decremented layer's faces, then the rest of the scan |
| Meshing.ScanStopsAtEdge | src/prism/Voxels/Chunk.cpp:256-260 | an EDGE layer ends the scan with nothing more emitted |
| Meshing.ScanStopsBelowZero | src/prism/Voxels/Chunk.cpp:253 | a negative tested value ends the scan with nothing more emitted |
| Chunks.Clamp | src/prism/Voxels/Chunk.cpp:90 | glm::clamp: the result is in [lo, hi], is v when v is in range, and is the violated bound otherwise |
| Chunks.Resize | src/prism/Voxels/Chunk.cpp:69-70 | std::vector::resize: length n, the old entries kept, the rest padded |
| Chunks.ColumnHeight | src/prism/Voxels/Chunk.cpp:89-90 | a column's height lies in [0, Size] |
| Chunks.PopulatedCell | src/prism/Voxels/Chunk.cpp:91-100 | below height h a cell is solid, and DIRT exactly on layer h - 1; from h up it keeps its old type |
| Chunks.FillStep | src/prism/Voxels/Chunk.cpp:94-99 | writing one cell's populated value advances Populate's block invariant by one cell |
| Chunks.ColumnDone | src/prism/Voxels/Chunk.cpp:91-100 | a column whose layers below its height are written is done |
| Chunks.RowDone | src/prism/Voxels/Chunk.cpp:87 | a row whose columns are all done is done |
| Chunks.HeightStep | src/prism/Voxels/Chunk.cpp:101 | recording a column's height advances the height invariant by one column and changes no other column |
| Chunks.PopulateDone | src/prism/Voxels/Chunk.cpp:85-103 | once every column is visited, every cell holds its populated value and every column its height; over all-NONE storage that is terrain |
| Chunks.CullingRule | src/prism/Voxels/Chunk.cpp:319-406 | on terrain: a top face is drawn exactly on the column's top layer; a lateral face toward an interior column is drawn exactly when that column is no taller than the layer; toward a border column or off the chunk in -z it is always drawn; the last row's front face compares with column (x, 0) one layer up |
| Chunks.PlacementsAbut | src/prism/Voxels/Chunk.cpp:150-154 | at SetOffset's positions (not the offsets OnDraw uses), adjacent chunks meet without gap or overlap: in x the next chunk's first drawn column starts where this one's last drawn column ends, in z the next chunk starts where this one ends |
| Chunks.Placement | src/prism/Voxels/Chunk.cpp:150-154 | computes SetOffset's position `(x * (B * X - 2 * B), 0, y * B * Z)`; how neighbours meet is PlacementsAbut |
| Chunks.Chunk.constructor | src/prism/Voxels/Chunk.cpp:28-57 | all three edge lengths are Size; nothing allocated, ready or sent; a fresh empty sink |
| Chunks.Chunk.MeshReady | src/prism/Voxels/Chunk.h:80-83 | reads the ready flag GenerateMesh sets and Allocate and PrepareForClearing clear |
| Chunks.Chunk.GetOffset | src/prism/Voxels/Chunk.h:54-57 | reads the grid cell SetOffset stored |
| Chunks.Chunk.Size | src/prism/Voxels/Chunk.h:71-78 | computes the chunk's extent in world units; QuadsInsideChunk bounds the quads by it |
| Chunks.Chunk.QuadsInsideChunk | src/prism/Voxels/Chunk.h:71-78 | every corner of every quad of an in-range cell lies between the origin and Size() |
| Chunks.Chunk.Allocate | src/prism/Voxels/Chunk.cpp:61-79 | the first call sizes the storage to X * Z * Y NONE cells and X * Z zero heights and clears the ready flag; later calls change nothing |
| Chunks.Chunk.Populate | src/prism/Voxels/Chunk.cpp:81-104 | every cell holds PopulatedCell of its old type and its column's clamped height, every column records that height, and the chunk is not ready; over fresh storage the result is terrain |
| Chunks.Chunk.FillColumn | src/prism/Voxels/Chunk.cpp:88-101 | one column is filled and its height recorded; the invariants of Populate advance to the next column |
| Chunks.Chunk.SetOffset | src/prism/Voxels/Chunk.cpp:146-157 | records the grid cell and sets the position to (x * (B * X - 2B), 0, y * B * Z) |
| Chunks.Chunk.SendToGpu | src/prism/Voxels/Chunk.cpp:159-168 | the sink is flushed exactly once over any number of calls, and the data is marked as sent |
| Chunks.Chunk.Clear | src/prism/Voxels/Chunk.cpp:170-174 | both storage vectors are emptied and nothing else changes |
| Chunks.Chunk.PrepareForClearing | src/prism/Voxels/Chunk.cpp:176-179 | the ready flag is cleared |
| Chunks.Chunk.PassVertParam | src/prism/Voxels/Chunk.cpp:131-137 | four copies of the value on one channel |
| Chunks.Chunk.CreateQuad | src/prism/Voxels/Chunk.cpp:106-129 | the sink receives the quad's four corners, the triangles (v0, v1, v3) and (v3, v1, v2), and its cross-product normal four times |
| Chunks.Chunk.EmitFace | src/prism/Voxels/Chunk.cpp:321-328 | one face counted, its quad created and the layer's colour passed four times |
| Chunks.Chunk.MeshSide | src/prism/Voxels/Chunk.cpp:361-371 | a lateral quad is emitted and counted exactly when the neighbour on that side is not BODY or TOP |
| Chunks.Chunk.MeshLayer | src/prism/Voxels/Chunk.cpp:262-406 | a visited layer appends exactly its LayerFaces and leaves createdFaces at their number |
| Chunks.Chunk.MeshSides | src/prism/Voxels/Chunk.cpp:356-406 | the four lateral quads, each where its neighbour is not a block, in the order left, right, front, back |
| Chunks.Chunk.MeshColumn | src/prism/Voxels/Chunk.cpp:239-407 | the `while (l-- >= 0)` scan appends exactly the column's faces |
| Chunks.Chunk.MeshRow | src/prism/Voxels/Chunk.cpp:237-408 | the z loop appends exactly the faces of the row's columns in increasing z |
| Chunks.Chunk.GenerateMesh | src/prism/Voxels/Chunk.cpp:186-412 | the sink receives exactly ChunkFaces, x outermost and z inner, stays in lock-step, and the mesh is ready |
| World.SquareGridBijective | src/game/Voxel.cpp:50-53 | on a side-n grid the chunk indices [0, n * n) and the cells [0, n)² correspond one to one |
| World.GridCell | src/game/Voxel.cpp:52-53 | the cell `(i % Y, (i / X) % Y)`: both coordinates are remainders by Y, below Y in magnitude, and in [0, Y) for a non-negative index on a positive grid |
| World.SquareCellsDistinct | src/game/Voxel.cpp:52-53 | two chunk indices of a square grid that get the same cell are equal |
| World.SquareCellReached | src/game/Voxel.cpp:52-53 | every cell of a square grid is the cell of chunk `n * y + x` |
| World.SquareCellOf | src/game/Voxel.cpp:52-53 | on a square grid chunk i gets cell (i % n, i / n) |
| World.NonSquareGridRepeatsCells | src/game/Voxel.cpp:52-53 | on a 3 by 2 grid chunks 0 and 2 both get cell (0, 0) |
| World.DrawnOffsetsAbut | src/game/Voxel.cpp:58-60 | at the recorded draw offsets, the next chunk's first interior column starts where this one's last ends exactly when the block size is 4; in z the next chunk starts where this one ends |
| World.DataOffset | src/game/Voxel.cpp:58-60 | computes the recorded offset `(S * B - 8, 0, S * B) * (bx, bz)`; how it meets SetOffset's position and its neighbours is OffsetMatchesPlacement and DrawnOffsetsAbut |
| World.OffsetMatchesPlacement | src/game/Voxel.cpp:58-61 | the recorded draw offset equals SetOffset's position exactly in the first grid column or when the block size is 4 |
| World.FloorSqrt | src/game/Voxel.cpp:169 | `(int) sqrt(n)` is the largest r with r * r <= n |
| World.DrawListMembers | src/game/Voxel.cpp:181-196 | a chunk is drawn exactly when its mesh is ready, at its recorded offset, each once and in increasing index order |
| World.WorldGen.constructor | src/game/Voxel.h:43-55 | the field defaults: block size 4, chunk size 32, 25 chunks, not generating, button not pressed, no chunks |
| World.WorldGen.AddChunk | src/game/Voxel.cpp:52-61 | appends one fresh chunk, placed in its cell by SetOffset, and the offset `(S * B - 8, S * B, S * B) * (bx, 0, bz)`; the earlier chunks stay |
| World.WorldGen.GenerateWorld | src/game/Voxel.cpp:39-79 | discards the old chunks and lays out max(0, X * Y) fresh ones, chunk i in GridCell(X, Y, i) with its recorded offset; not generating afterwards |
| World.WorldGen.OnUpdate | src/game/Voxel.cpp:166-171 | when the button was pressed and no generation runs, the button is cleared and a floor(sqrt(count)) square grid of fresh, empty chunks is laid out, each placed in its cell with its recorded offset; otherwise the world is unchanged |
| World.WorldGen.BuildChunk | src/game/Voxel.cpp:66-75 | the queued task leaves the chunk ready, with every column at its clamped height, terrain when its storage was fresh, and exactly its faces in its sink |
| World.WorldGen.SendChunk | src/game/Voxel.cpp:188 | only chunk i changes, to its sent state |
| World.WorldGen.DrawStep | src/game/Voxel.cpp:183-196 | one pass of the draw loop: a chunk that is not ready is skipped; a ready one is sent and drawn at its offset |
| World.WorldGen.OnDraw | src/game/Voxel.cpp:174-198 | nothing is drawn while generating; otherwise each ready chunk is sent once and drawn at its recorded offset, in index order, and the other chunks are untouched |
| World.WorldGen.DrawChunks | src/game/Voxel.cpp:181-197 | the loop over the chunk vector issues DrawList of the starting state and leaves each chunk in its Drawn state |

## Left out

- Floating point: positions, normals and colours are integers or tokens. Every value the core stores is a small integer, and with 32-bit `int` overflow left out, the integer values are exact.
- Chunks.ColumnHeight: the noise and `ceil(popFunc(..) * (Size - 1))` are a height-function parameter that already returns an int. Only the clamp to [0, Size] is modelled.
- Colours: the palette (Chunk.cpp:49-56) and its smooth interpolation (Chunk.cpp:234-317) are the token `Shade(layer)`. So the model does not show that `colorOffset` is 0, and `%` divides by zero, when Size < 8. It also does not show the reads past the palette's end for large layers.
- Threads: `QueueTask` on the background worker and the atomic ready flag are left out. The queued task is `WorldGen.BuildChunk`, run on one chunk at a time. Data races between it and `OnDraw` are not modelled.
- The renderer: shader binding, the transform matrices, `Render` and `DrawIndexed` are left out. `OnDraw` returns the list of draws it would issue as (index, offset) pairs. The camera, the GUI, key events and `OnAttach` are outside the modelled core.
- GenerateMesh's unused locals `Sides`, `ValidSides` and `VertexOffsets`, and its commented-out loop, are left out. So are `_PassBlockParam`, whose loop body is empty, and `_GetMeshOffset`, which is never called.
- `RebuildMesh` and `UpdateGpu` are declared but have no body in the source, so there is nothing to model. The `std::hash<Vec2>` specialisation is not used by the core.
- Chunks.Chunk.constructor: the source leaves `m_Position` unset until `SetOffset`; the model starts it at the origin. The GPU attribute buffers the constructor creates are the two channels of the sink.
- Chunks.Chunk.Allocate: requires `xSize >= 0`. A negative size would make `size_t total` wrap around, and that is not modelled.
- World.WorldGen.OnUpdate: requires `chunkCount >= 0`, because `sqrt` of a negative count is NaN in the source.
- World.WorldGen.BuildChunk: requires chunk i's storage to be sized whenever it is already allocated. A chunk that was `Clear`ed after allocation would make the source index an empty vector.
- Chunks.Chunk.Populate and Chunks.Chunk.GenerateMesh: require storage of the allocated size, as they index it directly. Calling them before `Allocate` is undefined in the source.
- The loop bodies of Populate, GenerateMesh, GenerateWorld and OnDraw are separate methods: FillColumn, MeshRow, MeshColumn, MeshLayer, MeshSides, MeshSide, EmitFace, AddChunk, DrawStep and SendChunk. OnDraw's loop is DrawChunks. They run the same statements in the same order.
- Meshing.LayerFaces: the layer body's five tests are written as a fold over the sides in the body's order: top, left, right, front, back.
- `Size()` and `GetOffset()` return references to temporaries in the source (Chunk.h:54-57, 71-78), and `GenerateWorld` reads `Size()` through one (Voxel.cpp:58). The model returns the values.
- Regeneration while tasks are queued: `GenerateWorld` clears the chunk vector while earlier tasks may still hold references to its chunks. Aliasing across tasks is not modelled; each `BuildChunk` runs on a chunk of the current vector.
- Chunks.Chunk.SetOffset: `m_Transform`, the translation matrix of the position, is left out.
