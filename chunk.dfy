/** The voxel chunk object (Chunk.cpp): its block and height storage, its
    flags and placement, and the operations that change them. GenerateMesh
    is proved to emit exactly the faces Meshing.ChunkFaces describes. */
module Chunks {
  import opened Geometry
  import opened ChunkLayout
  import opened Mesh
  import opened Meshing

  // ---------------------------------------------------------------------
  // Population
  // ---------------------------------------------------------------------

  /** glm::clamp(v, lo, hi), that is min(max(v, lo), hi). */
  function Clamp(v: int, lo: int, hi: int): (r: int)
    ensures lo <= hi ==> lo <= r <= hi
    ensures lo <= v <= hi ==> r == v
    ensures lo <= hi && v < lo ==> r == lo
    ensures v > hi ==> r == hi
  {
    var m := if v < lo then lo else v;
    if m > hi then hi else m
  }

  /** std::vector::resize(n, v): the first n entries are kept and the vector
      is padded with v. */
  function Resize<T>(s: seq<T>, n: nat, v: T): (r: seq<T>)
    ensures |r| == n
    ensures forall k :: 0 <= k < n ==> r[k] == if k < |s| then s[k] else v
  {
    if n <= |s| then s[..n] else s + seq(n - |s|, _ => v)
  }

  /** The height Populate gives column (x, z): the height function sampled
      at the column's world coordinates, clamped to [0, Y]. The height
      function stands for `ceil(popFunc(..) * (Y - 1))`. */
  function ColumnHeight(e: Extent, heightAt: (int, int) -> int, xOffset: int, yOffset: int, x: int, z: int): (h: int)
    ensures e.ySize >= 0 ==> 0 <= h <= e.ySize
  {
    Clamp(heightAt(x + e.xSize * xOffset, z + e.zSize * yOffset), 0, e.ySize)
  }

  /** Layer i of a column of height h after Populate: BLOCK below the top
      layer, DIRT on it, and whatever was there before from layer h up. */
  function PopulatedCell(prev: BlockType, h: int, i: int): (t: BlockType)
    ensures 0 <= i < h ==> t != None && (t == Dirt <==> i == h - 1)
    ensures i >= h ==> t == prev
  {
    if i < h - 1 then Block else if i == h - 1 then Dirt else prev
  }

  /** (x', z', i') is visited before (x, z, i) by Populate's three loops. */
  predicate Before(x': int, z': int, i': int, x: int, z: int, i: int) {
    x' < x || (x' == x && (z' < z || (z' == z && i' < i)))
  }

  /** Populate's block invariant: the cells visited so far hold their
      populated value, the others still hold their old one. */
  ghost predicate Filled(e: Extent, heightAt: (int, int) -> int, xOffset: int, yOffset: int,
                         ob: seq<BlockType>, b: seq<BlockType>, x: int, z: int, i: int)
  {
    |ob| == e.BlockCount() && |b| == |ob| &&
    forall x', z', i' :: 0 <= x' < e.xSize && 0 <= z' < e.zSize && 0 <= i' < e.ySize ==>
      b[GetBlockLoc(e, x', z', i')] ==
        if Before(x', z', i', x, z, i)
        then PopulatedCell(ob[GetBlockLoc(e, x', z', i')], ColumnHeight(e, heightAt, xOffset, yOffset, x', z'), i')
        else ob[GetBlockLoc(e, x', z', i')]
  }

  /** Populate's height invariant, one entry per visited column. */
  ghost predicate HeightsFilled(e: Extent, heightAt: (int, int) -> int, xOffset: int, yOffset: int,
                                oh: seq<int>, h: seq<int>, x: int, z: int)
  {
    |oh| == e.ColumnCount() && |h| == |oh| &&
    forall x', z' :: 0 <= x' < e.xSize && 0 <= z' < e.zSize ==>
      h[GetLoc(e, x', z')] ==
        if x' < x || (x' == x && z' < z)
        then ColumnHeight(e, heightAt, xOffset, yOffset, x', z')
        else oh[GetLoc(e, x', z')]
  }

  lemma FillStep(e: Extent, heightAt: (int, int) -> int, xOffset: int, yOffset: int,
                 ob: seq<BlockType>, b: seq<BlockType>, x: int, z: int, i: int, t: BlockType)
    requires Filled(e, heightAt, xOffset, yOffset, ob, b, x, z, i)
    requires 0 <= x < e.xSize && 0 <= z < e.zSize && 0 <= i < e.ySize
    requires t == PopulatedCell(ob[GetBlockLoc(e, x, z, i)], ColumnHeight(e, heightAt, xOffset, yOffset, x, z), i)
    ensures Filled(e, heightAt, xOffset, yOffset, ob, b[GetBlockLoc(e, x, z, i) := t], x, z, i + 1)
  {
    var b' := b[GetBlockLoc(e, x, z, i) := t];
    forall x', z', i' | 0 <= x' < e.xSize && 0 <= z' < e.zSize && 0 <= i' < e.ySize
      ensures b'[GetBlockLoc(e, x', z', i')] ==
        if Before(x', z', i', x, z, i + 1)
        then PopulatedCell(ob[GetBlockLoc(e, x', z', i')], ColumnHeight(e, heightAt, xOffset, yOffset, x', z'), i')
        else ob[GetBlockLoc(e, x', z', i')]
    {
      if GetBlockLoc(e, x', z', i') == GetBlockLoc(e, x, z, i) {
        GetBlockLocInjective(e, x', z', i', x, z, i);
      }
    }
  }

  lemma ColumnDone(e: Extent, heightAt: (int, int) -> int, xOffset: int, yOffset: int,
                   ob: seq<BlockType>, b: seq<BlockType>, x: int, z: int)
    requires Filled(e, heightAt, xOffset, yOffset, ob, b, x, z, ColumnHeight(e, heightAt, xOffset, yOffset, x, z))
    ensures Filled(e, heightAt, xOffset, yOffset, ob, b, x, z + 1, 0)
  {
  }

  lemma RowDone(e: Extent, heightAt: (int, int) -> int, xOffset: int, yOffset: int,
                ob: seq<BlockType>, b: seq<BlockType>, x: int)
    requires Filled(e, heightAt, xOffset, yOffset, ob, b, x, e.zSize, 0)
    ensures Filled(e, heightAt, xOffset, yOffset, ob, b, x + 1, 0, 0)
  {
  }

  lemma HeightStep(e: Extent, heightAt: (int, int) -> int, xOffset: int, yOffset: int,
                   oh: seq<int>, h: seq<int>, x: int, z: int)
    requires HeightsFilled(e, heightAt, xOffset, yOffset, oh, h, x, z)
    requires 0 <= x < e.xSize && 0 <= z < e.zSize
    ensures HeightsFilled(e, heightAt, xOffset, yOffset, oh,
                          h[GetLoc(e, x, z) := ColumnHeight(e, heightAt, xOffset, yOffset, x, z)], x, z + 1)
  {
    var h' := h[GetLoc(e, x, z) := ColumnHeight(e, heightAt, xOffset, yOffset, x, z)];
    forall x', z' | 0 <= x' < e.xSize && 0 <= z' < e.zSize
      ensures h'[GetLoc(e, x', z')] ==
        if x' < x || (x' == x && z' < z + 1)
        then ColumnHeight(e, heightAt, xOffset, yOffset, x', z')
        else oh[GetLoc(e, x', z')]
    {
      if GetLoc(e, x', z') == GetLoc(e, x, z) {
        GetLocInjective(e, x', z', x, z);
      }
    }
  }

  /** What Populate's loops leave once every column is visited. */
  lemma PopulateDone(e: Extent, heightAt: (int, int) -> int, xOffset: int, yOffset: int,
                     ob: seq<BlockType>, oh: seq<int>, b: seq<BlockType>, h: seq<int>)
    requires e.Cubic()
    requires Filled(e, heightAt, xOffset, yOffset, ob, b, e.xSize, 0, 0)
    requires HeightsFilled(e, heightAt, xOffset, yOffset, oh, h, e.xSize, 0)
    ensures |b| == |ob| == e.BlockCount() && |h| == |oh| == e.ColumnCount()
    ensures forall x, z, i :: 0 <= x < e.xSize && 0 <= z < e.zSize && 0 <= i < e.ySize ==>
              b[GetBlockLoc(e, x, z, i)] ==
                PopulatedCell(ob[GetBlockLoc(e, x, z, i)], ColumnHeight(e, heightAt, xOffset, yOffset, x, z), i)
    ensures forall x, z :: 0 <= x < e.xSize && 0 <= z < e.zSize ==>
              h[GetLoc(e, x, z)] == ColumnHeight(e, heightAt, xOffset, yOffset, x, z)
    ensures (forall k :: 0 <= k < |ob| ==> ob[k] == None) ==> Terrain(e, b, h)
  {
    if forall k :: 0 <= k < |ob| ==> ob[k] == None {
      forall x, z, i | 0 <= x < e.xSize && 0 <= z < e.zSize && 0 <= i < e.ySize
        ensures b[GetBlockLoc(e, x, z, i)] == PopulatedCell(None, h[GetLoc(e, x, z)], i)
      {
        assert ob[GetBlockLoc(e, x, z, i)] == None;
      }
    }
  }

  /** A chunk whose storage holds exactly what Populate writes over freshly
      allocated (all NONE) storage. */
  ghost predicate Terrain(e: Extent, blocks: seq<BlockType>, heights: seq<int>) {
    Meshable(e, blocks, heights) &&
    (forall x, z :: 0 <= x < e.xSize && 0 <= z < e.zSize ==> 0 <= heights[GetLoc(e, x, z)] <= e.ySize) &&
    forall x, z, i :: 0 <= x < e.xSize && 0 <= z < e.zSize && 0 <= i < e.ySize ==>
      blocks[GetBlockLoc(e, x, z, i)] == PopulatedCell(None, heights[GetLoc(e, x, z)], i)
  }

  /** On terrain, the culling rules read as rules about column heights. For
      a cell at layer l that is not an EDGE layer: its top face is drawn
      exactly on the column's top layer; a lateral face whose neighbour is
      an interior column is drawn exactly when that neighbour is no taller
      than l; a lateral face whose neighbour is a border column or lies off
      the chunk in z is always drawn; and the front face of the last row
      looks at column (x, 0) one layer up instead of a missing neighbour. */
  lemma {:induction false} CullingRule(e: Extent, blocks: seq<BlockType>, heights: seq<int>, f: Face)
    requires Terrain(e, blocks, heights)
    requires 0 < f.x < e.xSize - 1 && 0 <= f.z < e.zSize && 0 < f.layer < e.ySize - 1
    ensures f.side == TopSide ==>
              (FaceVisible(e, blocks, f) <==> f.layer == heights[GetLoc(e, f.x, f.z)] - 1)
    ensures var (nx, nz) := Neighbour(f.side, f.x, f.z);
            f.side != TopSide && 0 < nx < e.xSize - 1 && 0 <= nz < e.zSize ==>
              (FaceVisible(e, blocks, f) <==> heights[GetLoc(e, nx, nz)] <= f.layer)
    ensures var (nx, nz) := Neighbour(f.side, f.x, f.z);
            f.side != TopSide && (nx == 0 || nx == e.xSize - 1 || nz < 0) ==> FaceVisible(e, blocks, f)
    ensures f.side == FrontSide && f.z == e.zSize - 1 ==>
              (FaceVisible(e, blocks, f) <==> heights[GetLoc(e, f.x, 0)] <= f.layer + 1)
  {
    var l := f.layer;
    if f.side == TopSide {
      assert BlockState(e, blocks, f.x, f.z, l) == Classify(blocks[GetBlockLoc(e, f.x, f.z, l)]);
    } else {
      var (nx, nz) := Neighbour(f.side, f.x, f.z);
      if 0 < nx < e.xSize - 1 && 0 <= nz < e.zSize {
        assert BlockState(e, blocks, nx, nz, l) == Classify(blocks[GetBlockLoc(e, nx, nz, l)]);
      }
      if f.side == FrontSide && f.z == e.zSize - 1 {
        PastLastColumnReadsNextLayer(e, blocks, f.x, l);
        assert blocks[GetBlockLoc(e, f.x, 0, l + 1)] == PopulatedCell(None, heights[GetLoc(e, f.x, 0)], l + 1);
      }
    }
  }

  // ---------------------------------------------------------------------
  // Placement
  // ---------------------------------------------------------------------

  /** The world position SetOffset gives the chunk in grid cell (x, y):
      (x * (B * X - 2 * B), 0, y * B * Z). */
  function Placement(blockSize: int, e: Extent, x: int, y: int): Vec3 {
    Vec3(x * (blockSize * e.xSize - 2 * blockSize), 0, y * blockSize * e.zSize)
  }

  /** At the positions SetOffset gives them, neighbouring chunks' meshes
      meet without gap or overlap. In x, where the border columns emit
      nothing, the first interior column of the next chunk starts where the
      last interior column of this one ends; in z, where every column emits,
      the next chunk starts where this one ends. The renderer translates by
      the recorded offset instead (World.DrawnOffsetsAbut). */
  lemma {:induction false} PlacementsAbut(blockSize: int, e: Extent, x: int, y: int)
    ensures Placement(blockSize, e, x + 1, y).x + 1 * blockSize ==
            Placement(blockSize, e, x, y).x + (e.xSize - 1) * blockSize
    ensures Placement(blockSize, e, x, y + 1).z == Placement(blockSize, e, x, y).z + e.zSize * blockSize
  {
    var w := blockSize * e.xSize - 2 * blockSize;
    assert (x + 1) * w == x * w + w;
    assert (e.xSize - 1) * blockSize == blockSize * e.xSize - blockSize;
    assert (y + 1) * blockSize * e.zSize == y * blockSize * e.zSize + blockSize * e.zSize;
  }

  // ---------------------------------------------------------------------
  // The chunk
  // ---------------------------------------------------------------------

  class Chunk {
    const xSize: int
    const ySize: int
    const zSize: int
    const blockSize: int
    /** The sink the mesh is built in; one per chunk. */
    const mesh: DynamicMesh

    /** One entry per cell, at GetBlockLoc(x, z, layer). */
    var blocks: seq<BlockType>
    /** One entry per column, at GetLoc(x, z). */
    var heights: seq<int>
    /** The ready flag the renderer polls (an atomic in the source). */
    var meshReady: bool
    var position: Vec3
    /** Faces emitted for the layer being meshed. */
    var createdFaces: int
    var isAllocated: bool
    var dataSentToGpu: bool
    var xOffset: int
    var yOffset: int

    function Ext(): Extent {
      Extent(xSize, ySize, zSize)
    }

    /** The state every operation keeps: a cubic chunk whose storage is
        either empty (never allocated, or cleared) or sized for the chunk;
        the sink was flushed once exactly when the data was sent; and the
        mesh is made of whole quads. */
    ghost predicate Valid()
      reads this, mesh
    {
      xSize == ySize == zSize &&
      (Meshable(Ext(), blocks, heights) || (blocks == [] && heights == [])) &&
      (!isAllocated ==> blocks == [] && heights == []) &&
      0 <= createdFaces <= 5 &&
      mesh.flushes == (if dataSentToGpu then 1 else 0) &&
      LockStep(mesh.Data())
    }

    /** Chunk(Size, blockSize): all three edge lengths are Size; nothing is
        allocated, ready or sent; the mesh sink is new and empty. The source
        leaves the position unset until SetOffset; here it starts at the
        origin. */
    constructor (size: int, blockSize: int)
      ensures xSize == size && ySize == size && zSize == size && this.blockSize == blockSize
      ensures blocks == [] && heights == [] && !meshReady && !isAllocated && !dataSentToGpu
      ensures createdFaces == 0 && xOffset == 0 && yOffset == 0 && position == Vec3(0, 0, 0)
      ensures fresh(mesh) && mesh.Data() == EmptyMesh && mesh.flushes == 0
      ensures Valid()
    {
      xSize, ySize, zSize := size, size, size;
      this.blockSize := blockSize;
      mesh := new DynamicMesh();
      blocks, heights := [], [];
      meshReady, isAllocated, dataSentToGpu := false, false, false;
      createdFaces := 0;
      xOffset, yOffset := 0, 0;
      position := Vec3(0, 0, 0);
    }

    function MeshReady(): bool
      reads this
    {
      meshReady
    }

    function GetOffset(): Vec2
      reads this
    {
      Vec2(xOffset, yOffset)
    }

    /** The chunk's extent in world units. */
    function Size(): Vec3 {
      Vec3(xSize * blockSize, ySize * blockSize, zSize * blockSize)
    }

    /** Every quad of a cell of the chunk lies in the box from the origin to
        Size(), in chunk-local coordinates. Only cells at layers 0 .. Size - 1
        are covered: the layer -1 faces of a height-0 column
        (Meshing.ZeroHeightColumnFaces) lie below the origin, outside it. */
    lemma {:induction false} QuadsInsideChunk(s: Side, x: int, z: int, l: int)
      requires blockSize >= 0
      requires 0 <= x < xSize && 0 <= z < zSize && 0 <= l < ySize
      ensures var q := SideQuad(s, x, z, l, blockSize);
              forall c :: c in [q.p0, q.p1, q.p2, q.p3] ==>
                0 <= c.x <= Size().x && 0 <= c.y <= Size().y && 0 <= c.z <= Size().z
    {
      var b := blockSize;
      MulLeft(b, 0, x);
      MulLeft(b, x + 1, xSize);
      MulLeft(b, 0, z);
      MulLeft(b, z + 1, zSize);
      MulLeft(b, 0, l);
      MulLeft(b, l + 1, ySize);
      assert b * (x + 1) == x * b + b && b * xSize == xSize * b;
      assert b * (z + 1) == z * b + b && b * zSize == zSize * b;
      assert b * (l + 1) == l * b + b && b * ySize == ySize * b;
    }

    /** Sizes the storage on the first call: X * Z * Y cells of NONE and
        X * Z heights of 0, and clears the ready flag. Later calls change
        nothing at all. */
    method Allocate()
      requires Valid() && xSize >= 0
      modifies this
      ensures Valid() && isAllocated
      ensures old(isAllocated) ==>
                blocks == old(blocks) && heights == old(heights) && meshReady == old(meshReady)
      ensures !old(isAllocated) ==>
                |blocks| == Ext().BlockCount() && (forall k :: 0 <= k < |blocks| ==> blocks[k] == None) &&
                |heights| == Ext().ColumnCount() && (forall k :: 0 <= k < |heights| ==> heights[k] == 0) &&
                !meshReady
      ensures dataSentToGpu == old(dataSentToGpu) && position == old(position) &&
              createdFaces == old(createdFaces) && xOffset == old(xOffset) && yOffset == old(yOffset)
    {
      if isAllocated {
        return;
      }
      MulLeft(xSize, 0, zSize);
      MulLeft(xSize * zSize, 0, ySize);
      var total := xSize * zSize * ySize;
      blocks := Resize(blocks, total, None);
      heights := Resize(heights, xSize * zSize, 0);
      isAllocated := true;
      meshReady := false;
    }

    /** Fills each column (x, z) from the height function: layers below the
        clamped height become BLOCK, the top one DIRT, the rest keep their
        old value; the column's height is recorded; the ready flag is
        cleared. Over freshly allocated storage the result is terrain. */
    method Populate(heightAt: (int, int) -> int)
      requires Valid() && Meshable(Ext(), blocks, heights)
      modifies this`blocks, this`heights, this`meshReady
      ensures Valid() && !meshReady
      ensures |blocks| == |old(blocks)| && |heights| == |old(heights)|
      ensures forall x, z, i :: 0 <= x < xSize && 0 <= z < zSize && 0 <= i < ySize ==>
                blocks[GetBlockLoc(Ext(), x, z, i)] ==
                  PopulatedCell(old(blocks)[GetBlockLoc(Ext(), x, z, i)],
                                ColumnHeight(Ext(), heightAt, xOffset, yOffset, x, z), i)
      ensures forall x, z :: 0 <= x < xSize && 0 <= z < zSize ==>
                heights[GetLoc(Ext(), x, z)] == ColumnHeight(Ext(), heightAt, xOffset, yOffset, x, z)
      ensures (forall k :: 0 <= k < |old(blocks)| ==> old(blocks)[k] == None) ==> Terrain(Ext(), blocks, heights)
    {
      meshReady := false;
      var e := Ext();
      ghost var ob, oh := blocks, heights;
      var x := 0;
      while x < xSize
        invariant 0 <= x <= xSize
        invariant Filled(e, heightAt, xOffset, yOffset, ob, blocks, x, 0, 0)
        invariant HeightsFilled(e, heightAt, xOffset, yOffset, oh, heights, x, 0)
        invariant !meshReady
      {
        var z := 0;
        while z < zSize
          invariant 0 <= z <= zSize
          invariant Filled(e, heightAt, xOffset, yOffset, ob, blocks, x, z, 0)
          invariant HeightsFilled(e, heightAt, xOffset, yOffset, oh, heights, x, z)
          invariant !meshReady
        {
          FillColumn(heightAt, x, z, ob, oh);
          z := z + 1;
        }
        RowDone(e, heightAt, xOffset, yOffset, ob, blocks, x);
        x := x + 1;
      }
      PopulateDone(e, heightAt, xOffset, yOffset, ob, oh, blocks, heights);
      assert !isAllocated ==> ob == [] && oh == [];
    }

    /** The body of Populate's z loop: column (x, z) gets BLOCK up to its
        clamped height and DIRT on top, and its height is recorded. */
    method FillColumn(heightAt: (int, int) -> int, x: int, z: int, ghost ob: seq<BlockType>, ghost oh: seq<int>)
      requires Ext().Cubic() && 0 <= x < xSize && 0 <= z < zSize
      requires Filled(Ext(), heightAt, xOffset, yOffset, ob, blocks, x, z, 0)
      requires HeightsFilled(Ext(), heightAt, xOffset, yOffset, oh, heights, x, z)
      modifies this`blocks, this`heights
      ensures Filled(Ext(), heightAt, xOffset, yOffset, ob, blocks, x, z + 1, 0)
      ensures HeightsFilled(Ext(), heightAt, xOffset, yOffset, oh, heights, x, z + 1)
    {
      var e := Ext();
      var height := Clamp(heightAt(x + xSize * xOffset, z + zSize * yOffset), 0, ySize);
      assert height == ColumnHeight(e, heightAt, xOffset, yOffset, x, z);
      var i := 0;
      while i < height
        invariant 0 <= i <= height
        invariant Filled(e, heightAt, xOffset, yOffset, ob, blocks, x, z, i)
        invariant heights == old(heights)
      {
        if i == height - 1 {
          FillStep(e, heightAt, xOffset, yOffset, ob, blocks, x, z, i, Dirt);
          blocks := blocks[GetBlockLoc(e, x, z, i) := Dirt];
          break;
        }
        FillStep(e, heightAt, xOffset, yOffset, ob, blocks, x, z, i, Block);
        blocks := blocks[GetBlockLoc(e, x, z, i) := Block];
        i := i + 1;
      }
      ColumnDone(e, heightAt, xOffset, yOffset, ob, blocks, x, z);
      HeightStep(e, heightAt, xOffset, yOffset, oh, heights, x, z);
      heights := heights[GetLoc(e, x, z) := height];
    }
  
    /** Records the grid cell and moves the chunk to its Placement. */
    method SetOffset(x: int, y: int)
      requires Valid()
      modifies this`xOffset, this`yOffset, this`position
      ensures Valid()
      ensures GetOffset() == Vec2(x, y)
      ensures position == Placement(blockSize, Ext(), x, y)
    {
      xOffset := x;
      yOffset := y;
      position := Vec3(x * (blockSize * xSize - 2 * blockSize), 0, y * blockSize * zSize);
    }

    /** Flushes the mesh on the first call only; the sink keeps its data. */
    method SendToGpu()
      requires Valid()
      modifies this`dataSentToGpu, mesh
      ensures Valid() && dataSentToGpu && mesh.flushes == 1
      ensures mesh.Data() == old(mesh.Data())
      ensures old(dataSentToGpu) ==> mesh.flushes == old(mesh.flushes)
    {
      if dataSentToGpu {
        return;
      }
      mesh.Flush();
      dataSentToGpu := true;
    }

    /** Empties both storage vectors and nothing else: the chunk stays
        allocated, so a later Allocate does not size them again. */
    method Clear()
      requires Valid()
      modifies this`blocks, this`heights
      ensures Valid() && blocks == [] && heights == []
    {
      blocks := [];
      heights := [];
    }

    method PrepareForClearing()
      requires Valid()
      modifies this`meshReady
      ensures Valid() && !MeshReady()
    {
      meshReady := false;
    }

    /** Four values on one attribute channel, one per vertex of a quad. */
    method PassVertParam(ch: Channel, p: Param)
      modifies mesh
      ensures mesh.Data() == PassParam(old(mesh.Data()), ch, p)
      ensures mesh.flushes == old(mesh.flushes)
    {
      mesh.AddAttribute(ch, p);
      mesh.AddAttribute(ch, p);
      mesh.AddAttribute(ch, p);
      mesh.AddAttribute(ch, p);
    }

    /** Appends the quad's corners, connects them as the triangles
        (v0, v1, v3) and (v3, v1, v2) and passes its normal
        cross(p2 - p0, p3 - p1) for each corner. */
    method CreateQuad(q: Quad)
      modifies mesh
      ensures mesh.Data() == AppendQuad(old(mesh.Data()), q)
      ensures mesh.flushes == old(mesh.flushes)
    {
      var v0p := mesh.AddVertex(q.p0);
      var v1p := mesh.AddVertex(q.p1);
      var v2p := mesh.AddVertex(q.p2);
      var v3p := mesh.AddVertex(q.p3);
      var normal := Cross(Sub(q.p2, q.p0), Sub(q.p3, q.p1));
      mesh.ConnectVertices(v0p, v1p, v3p);
      mesh.ConnectVertices(v3p, v1p, v2p);
      PassVertParam(NormalChannel, Vector(normal));
    }

    /** One drawn face, as every call site in GenerateMesh writes it: count
        it, create its quad, then pass the layer's colour for each of the
        quad's four vertices. */
    method EmitFace(f: Face, q: Quad)
      requires q == FaceQuad(f, blockSize)
      modifies this`createdFaces, mesh
      ensures mesh.Data() == Emit(old(mesh.Data()), f, blockSize)
      ensures createdFaces == old(createdFaces) + 1 && mesh.flushes == old(mesh.flushes)
    {
      createdFaces := createdFaces + 1;
      CreateQuad(q);
      PassVertParam(ColourChannel, Tint(Shade(f.layer)));
    }

    /** One lateral side of the layer body: given the state of the
        neighbour on that side, the quad is emitted exactly when the
        neighbour is not a block. */
    method MeshSide(s: Side, x: int, z: int, l: int, neighbour: ChunkBlockPosition, q: Quad)
      requires Meshable(Ext(), blocks, heights) && s != TopSide
      requires neighbour == BlockState(Ext(), blocks, Neighbour(s, x, z).0, Neighbour(s, x, z).1, l)
      requires q == SideQuad(s, x, z, l, blockSize)
      modifies this`createdFaces, mesh
      ensures mesh.Data() == EmitAll(old(mesh.Data()), LateralFace(Ext(), blocks, s, x, z, l), blockSize)
      ensures createdFaces == old(createdFaces) + |LateralFace(Ext(), blocks, s, x, z, l)|
      ensures mesh.flushes == old(mesh.flushes)
    {
      if !BlockExists(neighbour) {
        EmitFace(Face(s, x, z, l), q);
        EmitAllSnoc(old(mesh.Data()), [], Face(s, x, z, l), blockSize);
        assert [] + [Face(s, x, z, l)] == LateralFace(Ext(), blocks, s, x, z, l);
      }
    }

    /** The body of GenerateMesh's layer loop once the cell (x, z, l) is
        known not to be an EDGE: the top quad if the cell is TOP, then the
        lateral quads. createdFaces ends at the layer's face count. */
    method MeshLayer(x: int, z: int, l: int, current: ChunkBlockPosition)
      requires Meshable(Ext(), blocks, heights)
      requires current == BlockState(Ext(), blocks, x, z, l)
      requires createdFaces == 0
      modifies this`createdFaces, mesh
      ensures mesh.Data() == EmitAll(old(mesh.Data()), LayerFaces(Ext(), blocks, x, z, l), blockSize)
      ensures createdFaces == |LayerFaces(Ext(), blocks, x, z, l)|
      ensures mesh.flushes == old(mesh.flushes)
    {
      var e := Ext();
      var xStart := x * blockSize;
      var xEnd := xStart + blockSize;
      var zStart := z * blockSize;
      var zEnd := zStart + blockSize;
      var yEnd := l * blockSize + blockSize;
      ghost var m0 := mesh.Data();
      ghost var t := TopFace(e, blocks, x, z, l);

      if current == Top {
        EmitFace(Face(TopSide, x, z, l),
                 Quad(Vec3(xStart, yEnd, zEnd), Vec3(xStart, yEnd, zStart), Vec3(xEnd, yEnd, zStart), Vec3(xEnd, yEnd, zEnd)));
        EmitAllSnoc(m0, [], Face(TopSide, x, z, l), blockSize);
        assert [] + [Face(TopSide, x, z, l)] == t;
      }
      ghost var m1 := mesh.Data();
      assert m1 == EmitAll(m0, t, blockSize) && createdFaces == |t|;
      MeshSides(x, z, l);
      EmitAllAppend(m0, t, SideFaces(e, blocks, x, z, l), blockSize);
      LayerFacesSplit(e, blocks, x, z, l);
    }

    /** The four lateral sides of a layer, left (x + 1), right (x - 1),
        front (z + 1) and back (z - 1): each quad is emitted where the
        neighbour on that side is not a block. */
    method MeshSides(x: int, z: int, l: int)
      requires Meshable(Ext(), blocks, heights)
      modifies this`createdFaces, mesh
      ensures mesh.Data() == EmitAll(old(mesh.Data()), SideFaces(Ext(), blocks, x, z, l), blockSize)
      ensures createdFaces == old(createdFaces) + |SideFaces(Ext(), blocks, x, z, l)|
      ensures mesh.flushes == old(mesh.flushes)
    {
      var e := Ext();
      var xStart := x * blockSize;
      var xEnd := xStart + blockSize;
      var zStart := z * blockSize;
      var zEnd := zStart + blockSize;
      var yStart := l * blockSize;
      var yEnd := yStart + blockSize;
      ghost var m0 := mesh.Data();
      var left := BlockState(e, blocks, x + 1, z, l);
      var right := BlockState(e, blocks, x - 1, z, l);
      var front := BlockState(e, blocks, x, z + 1, l);
      var back := BlockState(e, blocks, x, z - 1, l);

      MeshSide(LeftSide, x, z, l, left,
               Quad(Vec3(xEnd, yEnd, zStart), Vec3(xEnd, yStart, zStart), Vec3(xEnd, yStart, zEnd), Vec3(xEnd, yEnd, zEnd)));
      MeshSide(RightSide, x, z, l, right,
               Quad(Vec3(xStart, yEnd, zStart), Vec3(xStart, yStart, zStart), Vec3(xStart, yStart, zEnd), Vec3(xStart, yEnd, zEnd)));
      MeshSide(FrontSide, x, z, l, front,
               Quad(Vec3(xStart, yEnd, zEnd), Vec3(xStart, yStart, zEnd), Vec3(xEnd, yStart, zEnd), Vec3(xEnd, yEnd, zEnd)));
      MeshSide(BackSide, x, z, l, back,
               Quad(Vec3(xStart, yEnd, zStart), Vec3(xStart, yStart, zStart), Vec3(xEnd, yStart, zStart), Vec3(xEnd, yEnd, zStart)));
      EmitSides(m0, e, blocks, x, z, l, blockSize);
    }

    /** The body of GenerateMesh's z loop: scans column (x, z) from its
        stored height downward. `while (l-- >= 0)` tests l before
        decrementing it, the body sees the decremented value, and an EDGE
        cell ends the scan. Exactly the column's faces are emitted. */
    method MeshColumn(x: int, z: int)
      requires Meshable(Ext(), blocks, heights) && 0 <= x < xSize && 0 <= z < zSize
      requires 0 <= createdFaces <= 5
      modifies this`createdFaces, mesh
      ensures mesh.Data() == EmitAll(old(mesh.Data()), ColumnFaces(Ext(), blocks, heights, x, z), blockSize)
      ensures 0 <= createdFaces <= 5 && mesh.flushes == old(mesh.flushes)
    {
      var e := Ext();
      var height := heights[GetLoc(e, x, z)];
      var l := height;
      ghost var final := EmitAll(mesh.Data(), ColumnFaces(e, blocks, heights, x, z), blockSize);
      ColumnStart(mesh.Data(), e, blocks, heights, x, z, blockSize);
      while l >= 0
        invariant EmitAll(mesh.Data(), FacesOfLayers(e, blocks, x, z, Scan(e, blocks, x, z, l)), blockSize) == final
        invariant 0 <= createdFaces <= 5 && mesh.flushes == old(mesh.flushes)
        decreases l + 1
      {
        ghost var above := l;
        l := l - 1;
        createdFaces := 0;
        var current := BlockState(e, blocks, x, z, l);
        if current == Edge {
          ScanStopsAtEdge(mesh.Data(), e, blocks, x, z, l, above, blockSize);
          break;
        }
        ScanStep(mesh.Data(), e, blocks, x, z, l, above, blockSize);
        MeshLayer(x, z, l, current);
      }
      if l < 0 {
        ScanStopsBelowZero(mesh.Data(), e, blocks, x, z, l, blockSize);
      }
    }

    /** One pass of GenerateMesh's x loop: meshes the columns of row x in
        increasing z. */
    method MeshRow(x: int)
      requires Meshable(Ext(), blocks, heights) && 0 <= x < xSize
      requires 0 <= createdFaces <= 5
      modifies this`createdFaces, mesh
      ensures mesh.Data() == EmitAll(old(mesh.Data()), RowFaces(Ext(), blocks, heights, x, 0), blockSize)
      ensures 0 <= createdFaces <= 5 && mesh.flushes == old(mesh.flushes)
    {
      var e := Ext();
      ghost var final := EmitAll(mesh.Data(), RowFaces(e, blocks, heights, x, 0), blockSize);
      var z := 0;
      while z < zSize
        invariant 0 <= z <= zSize
        invariant EmitAll(mesh.Data(), RowFaces(e, blocks, heights, x, z), blockSize) == final
        invariant 0 <= createdFaces <= 5 && mesh.flushes == old(mesh.flushes)
      {
        RowStep(mesh.Data(), e, blocks, heights, x, z, blockSize);
        MeshColumn(x, z);
        z := z + 1;
      }
    }

    /** Meshes every column, x outermost and z inner. The sink receives
        exactly the faces ChunkFaces lists, in that order, and the ready flag
        is set. */
    method GenerateMesh()
      requires Valid() && Meshable(Ext(), blocks, heights)
      modifies this`createdFaces, this`meshReady, mesh
      ensures Valid() && MeshReady()
      ensures mesh.Data() == EmitAll(old(mesh.Data()), ChunkFaces(Ext(), blocks, heights), blockSize)
      ensures mesh.flushes == old(mesh.flushes)
    {
      var e := Ext();
      ghost var m0 := mesh.Data();
      ghost var final := EmitAll(m0, ChunkFaces(e, blocks, heights), blockSize);
      var x := 0;
      while x < xSize
        invariant 0 <= x <= xSize
        invariant EmitAll(mesh.Data(), GridFaces(e, blocks, heights, x), blockSize) == final
        invariant 0 <= createdFaces <= 5 && mesh.flushes == old(mesh.flushes)
      {
        GridStep(mesh.Data(), e, blocks, heights, x, blockSize);
        MeshRow(x);
        x := x + 1;
      }
      meshReady := true;
      EmitAllKeepsLockStep(m0, ChunkFaces(e, blocks, heights), blockSize);
    }
  }
}
