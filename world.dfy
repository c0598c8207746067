/** The world layer (WorldGen in Voxel.cpp): it lays chunks out on a grid,
    regenerates the grid when the button was pressed, and draws the chunks
    whose mesh is ready. */
module World {
  import opened Geometry
  import opened ChunkLayout
  import opened Mesh
  import opened Meshing
  import opened Chunks

  /** Per-chunk render data kept beside the chunk vector. */
  datatype ChunkData = ChunkData(offset: Vec3)

  /** One chunk drawn by OnDraw: its index and the translation it is drawn
      with. */
  datatype Draw = Draw(index: int, offset: Vec3)

  // ---------------------------------------------------------------------
  // Grid layout
  // ---------------------------------------------------------------------

  /** The grid cell GenerateWorld gives chunk i of an X by Y grid:
      bx = i % Y and bz = (i / X) % Y, with C++ int division. Both
      coordinates are remainders by Y, so both stay below Y in magnitude. */
  function GridCell(xCount: int, yCount: int, i: int): (c: Vec2)
    requires xCount != 0 && yCount != 0
    ensures Abs(c.x) < Abs(yCount) && Abs(c.y) < Abs(yCount)
    ensures i >= 0 && xCount > 0 && yCount > 0 ==> 0 <= c.x < yCount && 0 <= c.y < yCount
  {
    Vec2(CRem(i, yCount), CRem(CDiv(i, xCount), yCount))
  }

  /** The offset GenerateWorld records for a chunk of `size` blocks of
      `blockSize`: the chunk's world extent, shortened by 8 in x, times
      (bx, 0, bz). */
  function DataOffset(blockSize: int, size: int, cell: Vec2): Vec3 {
    Vec3((size * blockSize - 8) * cell.x, size * blockSize * 0, size * blockSize * cell.y)
  }

  /** The index of cell (x, y) on a grid of side n, row y after row y - 1. */
  function CellIndex(n: int, x: int, y: int): int {
    n * y + x
  }

  /** On a square grid of side n every chunk index of [0, n * n) lands in
      a cell of [0, n) x [0, n), no two of them in the same cell, and every
      cell receives one. */
  lemma {:induction false} SquareGridBijective(n: int)
    requires n > 0
    ensures forall i :: 0 <= i < n * n ==>
              0 <= GridCell(n, n, i).x < n && 0 <= GridCell(n, n, i).y < n
    ensures forall i, j :: 0 <= i < n * n && 0 <= j < n * n && GridCell(n, n, i) == GridCell(n, n, j) ==> i == j
    ensures forall x, y :: 0 <= x < n && 0 <= y < n ==>
              0 <= CellIndex(n, x, y) < n * n && GridCell(n, n, CellIndex(n, x, y)) == Vec2(x, y)
  {
    forall i | 0 <= i < n * n
      ensures 0 <= GridCell(n, n, i).x < n && 0 <= GridCell(n, n, i).y < n
    {
      SquareCellOf(n, i);
    }
    forall i, j | 0 <= i < n * n && 0 <= j < n * n && GridCell(n, n, i) == GridCell(n, n, j)
      ensures i == j
    {
      SquareCellsDistinct(n, i, j);
    }
    forall x, y | 0 <= x < n && 0 <= y < n
      ensures 0 <= CellIndex(n, x, y) < n * n && GridCell(n, n, CellIndex(n, x, y)) == Vec2(x, y)
    {
      SquareCellReached(n, x, y);
    }
  }

  lemma SquareCellsDistinct(n: int, i: int, j: int)
    requires n > 0 && 0 <= i < n * n && 0 <= j < n * n && GridCell(n, n, i) == GridCell(n, n, j)
    ensures i == j
  {
    SquareCellOf(n, i);
    SquareCellOf(n, j);
    MixedRadixUnique(n, i / n, i % n, j / n, j % n);
  }

  lemma SquareCellReached(n: int, x: int, y: int)
    requires n > 0 && 0 <= x < n && 0 <= y < n
    ensures 0 <= CellIndex(n, x, y) < n * n && GridCell(n, n, CellIndex(n, x, y)) == Vec2(x, y)
  {
    var i := CellIndex(n, x, y);
    MulLeft(n, y, n - 1);
    MulLeft(n, 0, y);
    assert n * (n - 1) + n == n * n;
    SquareCellOf(n, i);
    MixedRadixUnique(n, i / n, i % n, y, x);
  }

  lemma SquareCellOf(n: int, i: int)
    requires n > 0 && 0 <= i < n * n
    ensures GridCell(n, n, i) == Vec2(i % n, i / n) && 0 <= i / n < n
    ensures i == n * (i / n) + i % n
  {
    var q, r := i / n, i % n;
    assert i == n * q + r && 0 <= r < n;
    assert q >= 0 by {
      if q < 0 {
        MulLeft(n, q, -1);
      }
    }
    assert q < n by {
      if q >= n {
        MulLeft(n, n, q);
      }
    }
    assert CDiv(i, n) == q;
    SmallRem(q, n);
  }

  lemma SmallRem(a: int, n: int)
    requires 0 <= a < n
    ensures CRem(a, n) == a
  {
  }

  /** Off the square, the layout repeats cells: on a 3 by 2 grid chunks 0
      and 2 both land in cell (0, 0). */
  lemma NonSquareGridRepeatsCells()
    ensures GridCell(3, 2, 0) == GridCell(3, 2, 2) == Vec2(0, 0)
  {
  }

  /** The recorded offset is the position SetOffset gives the chunk exactly
      in the first grid column or when the block size is 4: the recorded x
      step is S * B - 8, the chunk's own is S * B - 2 * B. */
  lemma {:induction false} OffsetMatchesPlacement(blockSize: int, size: int, cell: Vec2)
    ensures DataOffset(blockSize, size, cell) == Placement(blockSize, Extent(size, size, size), cell.x, cell.y)
            <==> cell.x == 0 || blockSize == 4
  {
    var b, s, x := blockSize, size, cell.x;
    assert (s * b - 8) * x - x * (b * s - 2 * b) == x * (2 * b - 8);
    assert s * b * cell.y == cell.y * b * s;
    if x * (2 * b - 8) == 0 {
      assert x == 0 || 2 * b - 8 == 0;
    }
  }

  /** OnDraw translates each chunk by its recorded offset. At those offsets
      neighbouring chunks' meshes abut in x, first interior column against
      last interior column, exactly when the block size is 4: otherwise a
      gap of 2B - 8 remains (an overlap when B < 4). In z they always abut. */
  lemma {:induction false} DrawnOffsetsAbut(blockSize: int, size: int, x: int, y: int)
    ensures DataOffset(blockSize, size, Vec2(x + 1, y)).x + blockSize ==
              DataOffset(blockSize, size, Vec2(x, y)).x + (size - 1) * blockSize
            <==> blockSize == 4
    ensures DataOffset(blockSize, size, Vec2(x, y + 1)).z ==
              DataOffset(blockSize, size, Vec2(x, y)).z + size * blockSize
  {
    var w := size * blockSize - 8;
    assert w * (x + 1) == w * x + w;
    assert (size - 1) * blockSize == size * blockSize - blockSize;
    assert size * blockSize * (y + 1) == size * blockSize * y + size * blockSize;
  }

  // ---------------------------------------------------------------------
  // Regeneration
  // ---------------------------------------------------------------------

  /** `(int) sqrt(n)`: the largest r with r * r <= n. */
  function FloorSqrt(n: nat): (r: nat)
    ensures r * r <= n < (r + 1) * (r + 1)
  {
    if n == 0 then 0
    else
      var r := FloorSqrt(n - 1);
      if (r + 1) * (r + 1) <= n then r + 1 else r
  }

  // ---------------------------------------------------------------------
  // Drawing
  // ---------------------------------------------------------------------

  /** The draws OnDraw issues for indices [0, k), in increasing index order:
      one for each ready chunk, at its recorded offset. */
  function DrawList(chunks: seq<ChunkView>, data: seq<ChunkData>, k: int): seq<Draw>
    requires 0 <= k <= |chunks| && |data| == |chunks|
  {
    if k == 0 then []
    else DrawList(chunks, data, k - 1) + (if chunks[k - 1].meshReady then [Draw(k - 1, data[k - 1].offset)] else [])
  }

  /** A chunk is drawn by OnDraw exactly when its mesh is ready, and then at
      its recorded offset; the draws come in increasing index order. */
  lemma {:induction false} DrawListMembers(chunks: seq<ChunkView>, data: seq<ChunkData>, k: int)
    requires 0 <= k <= |chunks| && |data| == |chunks|
    ensures forall d :: d in DrawList(chunks, data, k) <==>
              0 <= d.index < k && chunks[d.index].meshReady && d.offset == data[d.index].offset
    ensures forall p, q :: 0 <= p < q < |DrawList(chunks, data, k)| ==>
              DrawList(chunks, data, k)[p].index < DrawList(chunks, data, k)[q].index
  {
    if k > 0 {
      DrawListMembers(chunks, data, k - 1);
    }
  }

  // ---------------------------------------------------------------------
  // The layer
  // ---------------------------------------------------------------------

  /** Everything about a chunk that drawing could touch. */
  datatype ChunkView = ChunkView(blocks: seq<BlockType>, heights: seq<int>, meshReady: bool,
                                 position: Vec3, createdFaces: int, isAllocated: bool,
                                 dataSentToGpu: bool, xOffset: int, yOffset: int,
                                 meshData: MeshData, flushes: nat)

  function View(c: Chunk): ChunkView
    reads c, c.mesh
  {
    ChunkView(c.blocks, c.heights, c.meshReady, c.position, c.createdFaces, c.isAllocated,
              c.dataSentToGpu, c.xOffset, c.yOffset, c.mesh.Data(), c.mesh.flushes)
  }

  function Views(cs: seq<Chunk>): (r: seq<ChunkView>)
    reads set c | c in cs, set c | c in cs :: c.mesh
    ensures |r| == |cs| && forall i :: 0 <= i < |cs| ==> r[i] == View(cs[i])
  {
    if cs == [] then [] else Views(cs[..|cs| - 1]) + [View(cs[|cs| - 1])]
  }

  /** A chunk after SendToGpu: its data is marked as sent and its sink has
      been flushed once; nothing else differs. */
  function Sent(v: ChunkView): ChunkView {
    v.(dataSentToGpu := true, flushes := 1)
  }

  /** A chunk after OnDraw has visited it: sent when its mesh was ready,
      untouched otherwise. */
  function Drawn(v: ChunkView): ChunkView {
    if v.meshReady then Sent(v) else v
  }

  /** A chunk as GenerateWorld leaves it: built with (cSize, bSize),
      nothing allocated, ready or sent, an empty sink, and placed in `cell`. */
  ghost predicate LaidOut(c: Chunk, bSize: int, cSize: int, cell: Vec2)
    reads c, c.mesh
  {
    c.xSize == cSize && c.ySize == cSize && c.zSize == cSize && c.blockSize == bSize &&
    c.blocks == [] && c.heights == [] && !c.isAllocated && !c.MeshReady() && !c.dataSentToGpu &&
    c.mesh.Data() == EmptyMesh &&
    c.GetOffset() == cell && c.position == Placement(bSize, c.Ext(), cell.x, cell.y)
  }

  class WorldGen {
    /** The chunk vector and the render data beside it, index for index. */
    var chunks: seq<Chunk>
    var chunkData: seq<ChunkData>
    /** True only while GenerateWorld's own body runs. The constructor,
        GenerateWorld and OnUpdate all leave it false, so OnUpdate and OnDraw
        always find it false: their checks of it never fire. */
    var isGenerating: bool
    var generateWorldBtn: bool
    var blockSize: int
    var chunkSize: int
    var chunkCount: int

    function Meshes(): set<DynamicMesh>
      reads this
    {
      set i | 0 <= i < |chunks| :: chunks[i].mesh
    }

    /** Both vectors have one entry per chunk; no chunk and no sink is
        shared between two entries; every chunk keeps its own invariant. */
    ghost predicate Valid()
      reads this, chunks, Meshes()
    {
      |chunkData| == |chunks| &&
      (forall i, j :: 0 <= i < |chunks| && 0 <= j < |chunks| && i != j ==>
         chunks[i] != chunks[j] && chunks[i].mesh != chunks[j].mesh) &&
      (forall i :: 0 <= i < |chunks| ==> chunks[i].Valid())
    }

    /** The field defaults: block size 4, chunk size 32, 25 chunks, no
        generation running and the button not pressed; the chunk vector is
        empty. */
    constructor ()
      ensures Valid() && chunks == [] && chunkData == []
      ensures !isGenerating && !generateWorldBtn
      ensures blockSize == 4 && chunkSize == 32 && chunkCount == 25
    {
      chunks, chunkData := [], [];
      isGenerating, generateWorldBtn := false, false;
      blockSize, chunkSize, chunkCount := 4, 32, 25;
    }

    /** One pass of GenerateWorld's loop: constructs a chunk, records the
        offset computed from its Size(), places it in `cell` and appends it. */
    method AddChunk(bSize: int, cSize: int, cell: Vec2)
      requires Valid()
      modifies this`chunks, this`chunkData
      ensures Valid()
      ensures |chunks| == |old(chunks)| + 1 && chunks[..|old(chunks)|] == old(chunks)
      ensures fresh(chunks[|chunks| - 1]) && fresh(chunks[|chunks| - 1].mesh)
      ensures LaidOut(chunks[|chunks| - 1], bSize, cSize, cell)
      ensures chunkData == old(chunkData) + [ChunkData(DataOffset(bSize, cSize, cell))]
    {
      var c := new Chunk(cSize, bSize);
      assert forall k :: 0 <= k < |chunks| ==> chunks[k] != c && chunks[k].mesh != c.mesh;
      var s := c.Size();
      chunkData := chunkData + [ChunkData(Vec3((s.x - 8) * cell.x, s.y * 0, s.z * cell.y))];
      c.SetOffset(cell.x, cell.y);
      chunks := chunks + [c];
    }

    /** Discards the previous chunks and lays out X * Y new ones (none when
        X * Y <= 0): chunk i is built with (chunkSize, blockSize), placed in
        GridCell(X, Y, i) by SetOffset, and its recorded offset is
        DataOffset of that cell. Generation is over when the method returns. */
    method GenerateWorld(bSize: int, cSize: int, xCount: int, yCount: int)
      requires Valid()
      modifies this
      ensures Valid() && !isGenerating
      ensures |chunks| == (if xCount * yCount > 0 then xCount * yCount else 0)
      ensures forall i :: 0 <= i < |chunks| ==>
                fresh(chunks[i]) && fresh(chunks[i].mesh) &&
                LaidOut(chunks[i], bSize, cSize, GridCell(xCount, yCount, i)) &&
                chunkData[i] == ChunkData(DataOffset(bSize, cSize, GridCell(xCount, yCount, i)))
      ensures generateWorldBtn == old(generateWorldBtn) && blockSize == old(blockSize) &&
              chunkSize == old(chunkSize) && chunkCount == old(chunkCount)
    {
      isGenerating := true;
      chunks := [];
      chunkData := [];
      var i := 0;
      while i < xCount * yCount
        invariant 0 <= i && |chunks| == i && |chunkData| == i
        invariant i > 0 ==> xCount * yCount > 0 && i <= xCount * yCount
        invariant Valid() && isGenerating
        invariant forall k :: 0 <= k < i ==>
                    fresh(chunks[k]) && fresh(chunks[k].mesh) &&
                    LaidOut(chunks[k], bSize, cSize, GridCell(xCount, yCount, k)) &&
                    chunkData[k] == ChunkData(DataOffset(bSize, cSize, GridCell(xCount, yCount, k)))
        invariant generateWorldBtn == old(generateWorldBtn) && blockSize == old(blockSize) &&
                  chunkSize == old(chunkSize) && chunkCount == old(chunkCount)
      {
        AddChunk(bSize, cSize, GridCell(xCount, yCount, i));
        i := i + 1;
      }
      isGenerating := false;
    }

    /** Regenerates the world when the button was pressed and no generation
        is running: the button is cleared first, then a side by side grid is
        generated with side = floor(sqrt(chunkCount)). Otherwise nothing
        changes. */
    method OnUpdate()
      requires Valid() && chunkCount >= 0
      modifies this
      ensures Valid()
      ensures blockSize == old(blockSize) && chunkSize == old(chunkSize) && chunkCount == old(chunkCount)
      ensures !(old(generateWorldBtn) && !old(isGenerating)) ==>
                chunks == old(chunks) && chunkData == old(chunkData) &&
                generateWorldBtn == old(generateWorldBtn) && isGenerating == old(isGenerating)
      ensures old(generateWorldBtn) && !old(isGenerating) ==>
                var side := FloorSqrt(chunkCount);
                !generateWorldBtn && !isGenerating && |chunks| == side * side &&
                forall i :: 0 <= i < |chunks| ==>
                  fresh(chunks[i]) && fresh(chunks[i].mesh) &&
                  LaidOut(chunks[i], blockSize, chunkSize, GridCell(side, side, i)) &&
                  chunkData[i] == ChunkData(DataOffset(blockSize, chunkSize, GridCell(side, side, i)))
    {
      if generateWorldBtn && !isGenerating {
        generateWorldBtn := false;
        var side := FloorSqrt(chunkCount);
        GenerateWorld(blockSize, chunkSize, side, side);
      }
    }

    /** The background task GenerateWorld queues for chunk i: Allocate,
        Populate from the height function, GenerateMesh. A chunk built from
        fresh storage holds terrain, its sink receives exactly the chunk's
        faces, and its mesh is ready. */
    method BuildChunk(i: int, heightAt: (int, int) -> int)
      requires Valid() && 0 <= i < |chunks|
      requires chunks[i].xSize >= 0
      requires chunks[i].isAllocated ==> Meshable(chunks[i].Ext(), chunks[i].blocks, chunks[i].heights)
      modifies chunks[i], chunks[i].mesh
      ensures Valid()
      ensures var c := chunks[i];
              c.MeshReady() && Meshable(c.Ext(), c.blocks, c.heights) &&
              (forall x, z :: 0 <= x < c.xSize && 0 <= z < c.zSize ==>
                 c.heights[GetLoc(c.Ext(), x, z)] == ColumnHeight(c.Ext(), heightAt, c.xOffset, c.yOffset, x, z)) &&
              (!old(c.isAllocated) ==> Terrain(c.Ext(), c.blocks, c.heights)) &&
              c.mesh.Data() == EmitAll(old(c.mesh.Data()), ChunkFaces(c.Ext(), c.blocks, c.heights), c.blockSize)
    {
      var c := chunks[i];
      c.Allocate();
      c.Populate(heightAt);
      c.GenerateMesh();
    }

    /** SendToGpu on chunk i, as OnDraw calls it: chunk i is marked as
        sent and every other chunk is left as it was. */
    method SendChunk(i: int)
      requires Valid() && 0 <= i < |chunks|
      modifies chunks[i], chunks[i].mesh
      ensures Valid()
      ensures View(chunks[i]) == Sent(old(View(chunks[i])))
      ensures forall k :: 0 <= k < |chunks| && k != i ==> View(chunks[k]) == old(View(chunks[k]))
    {
      chunks[i].SendToGpu();
    }

    /** One pass of OnDraw's loop: a chunk whose mesh is not ready is
        skipped; a ready one is sent to the GPU and drawn at its recorded
        offset. */
    method DrawStep(i: int, ghost views: seq<ChunkView>, draws: seq<Draw>) returns (draws': seq<Draw>)
      requires Valid() && 0 <= i < |chunks| && |views| == |chunks|
      requires draws == DrawList(views, chunkData, i)
      requires forall k :: 0 <= k < i ==> View(chunks[k]) == Drawn(views[k])
      requires forall k :: i <= k < |chunks| ==> View(chunks[k]) == views[k]
      modifies chunks[i], chunks[i].mesh
      ensures Valid()
      ensures draws' == DrawList(views, chunkData, i + 1)
      ensures forall k :: 0 <= k < i + 1 ==> View(chunks[k]) == Drawn(views[k])
      ensures forall k :: i + 1 <= k < |chunks| ==> View(chunks[k]) == views[k]
    {
      assert View(chunks[i]) == views[i];
      if !chunks[i].MeshReady() {
        return draws;
      }
      SendChunk(i);
      draws' := draws + [Draw(i, chunkData[i].offset)];
    }

    /** Draws nothing while generating. Otherwise every chunk whose mesh is
        ready is sent to the GPU (once) and drawn at its recorded offset, in
        index order; the other chunks are skipped and left as they were. */
    method OnDraw() returns (draws: seq<Draw>)
      requires Valid()
      modifies set i | 0 <= i < |chunks| :: chunks[i]
      modifies Meshes()
      ensures Valid()
      ensures isGenerating ==> draws == []
      ensures !isGenerating ==> draws == DrawList(old(Views(chunks)), chunkData, |chunks|)
      ensures forall i :: 0 <= i < |chunks| ==>
                View(chunks[i]) == if !isGenerating && old(Views(chunks))[i].meshReady
                                   then Sent(old(Views(chunks))[i]) else old(Views(chunks))[i]
    {
      draws := [];
      if isGenerating {
        return;
      }
      draws := DrawChunks(Views(chunks));
    }

    /** OnDraw's loop over the chunk vector; `views` is the state of the
        chunks when it starts. */
    method DrawChunks(ghost views: seq<ChunkView>) returns (draws: seq<Draw>)
      requires Valid() && |views| == |chunks|
      requires forall k :: 0 <= k < |chunks| ==> View(chunks[k]) == views[k]
      modifies (set c | c in chunks), Meshes()
      ensures Valid()
      ensures draws == DrawList(views, chunkData, |chunks|)
      ensures forall k :: 0 <= k < |chunks| ==> View(chunks[k]) == Drawn(views[k])
    {
      draws := [];
      var i := 0;
      while i < |chunks|
        invariant 0 <= i <= |chunks|
        invariant Valid()
        invariant draws == DrawList(views, chunkData, i)
        invariant forall k :: 0 <= k < i ==> View(chunks[k]) == Drawn(views[k])
        invariant forall k :: i <= k < |chunks| ==> View(chunks[k]) == views[k]
      {
        draws := DrawStep(i, views, draws);
        i := i + 1;
      }
    }
  }
}
