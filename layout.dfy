/** The pure part of a voxel chunk: block kinds, the neighbour classification,
    and the index arithmetic that flattens columns and cells into vectors.
    The chunk itself (its storage and the operations that change it) is in
    module Chunks. */
module ChunkLayout {

  /** What a cell holds. `None` is the value a freshly resized vector has. */
  datatype BlockType = None | Block | Dirt

  /** How the mesher sees a queried cell. */
  datatype ChunkBlockPosition = NonExist | Top | Edge | Body

  /** The three edge lengths of a chunk, in blocks. The chunk constructor makes
      them all equal to the chunk size. */
  datatype Extent = Extent(xSize: int, ySize: int, zSize: int) {
    predicate Cubic() {
      xSize == ySize == zSize >= 0
    }

    /** Number of entries of the block vector: X * Z * Y. */
    function BlockCount(): int {
      xSize * zSize * ySize
    }

    /** Number of entries of the column-height vector: X * Z. */
    function ColumnCount(): int {
      xSize * zSize
    }
  }

  // ---------------------------------------------------------------------
  // Arithmetic facts used by the index proofs
  // ---------------------------------------------------------------------

  lemma MulLeft(a: int, b: int, c: int)
    requires a >= 0 && b <= c
    ensures a * b <= a * c
  {
    assert a * c - a * b == a * (c - b);
  }

  /** Writing n = q * base + r with 0 <= r < base has only one solution. */
  lemma MixedRadixUnique(base: int, q: int, r: int, q': int, r': int)
    requires 0 <= r < base && 0 <= r' < base
    requires base * q + r == base * q' + r'
    ensures q == q' && r == r'
  {
    assert base * (q - q') == r' - r;
    if q > q' {
      MulLeft(base, 1, q - q');
    } else if q < q' {
      MulLeft(base, 1, q' - q);
    }
  }

  // ---------------------------------------------------------------------
  // Index helpers
  // ---------------------------------------------------------------------

  /** Flat index of column (x, y) in the height vector; the callers pass the
      column's z coordinate as `y`. */
  function GetLoc(e: Extent, x: int, y: int): (r: int)
    ensures 0 <= x < e.xSize && 0 <= y < e.zSize ==> 0 <= r < e.ColumnCount()
  {
    ColumnLocBound(e, x, y);
    e.xSize * y + x
  }

  lemma ColumnLocBound(e: Extent, x: int, y: int)
    ensures 0 <= x < e.xSize && 0 <= y < e.zSize ==> 0 <= e.xSize * y + x < e.ColumnCount()
  {
    if 0 <= x < e.xSize && 0 <= y < e.zSize {
      MulLeft(e.xSize, y, e.zSize - 1);
      MulLeft(e.xSize, 0, y);
      assert e.xSize * (e.zSize - 1) == e.ColumnCount() - e.xSize;
    }
  }

  /** Flat index of cell (x, y, z) in the block vector. The callers pass the
      column's z coordinate as `y` and the layer as `z`, so consecutive layers
      of a column lie X * Z entries apart. */
  function GetBlockLoc(e: Extent, x: int, y: int, z: int): (r: int)
    ensures 0 <= x < e.xSize && 0 <= y < e.zSize && 0 <= z < e.ySize ==>
              0 <= r < e.BlockCount()
  {
    CellLocBound(e, x, y, z);
    e.xSize * (y + e.zSize * z) + x
  }

  lemma CellLocBound(e: Extent, x: int, y: int, z: int)
    ensures 0 <= x < e.xSize && 0 <= y < e.zSize && 0 <= z < e.ySize ==>
              0 <= e.xSize * (y + e.zSize * z) + x < e.BlockCount()
  {
    if 0 <= x < e.xSize && 0 <= y < e.zSize && 0 <= z < e.ySize {
      MulLeft(e.zSize, z, e.ySize - 1);
      MulLeft(e.zSize, 0, z);
      assert e.zSize * (e.ySize - 1) == e.zSize * e.ySize - e.zSize;
      MulLeft(e.xSize, y + e.zSize * z, e.zSize * e.ySize - 1);
      assert e.xSize * (e.zSize * e.ySize - 1) == e.xSize * (e.zSize * e.ySize) - e.xSize;
      assert e.xSize * (e.zSize * e.ySize) == e.BlockCount();
      MulLeft(e.xSize, 0, y + e.zSize * z);
    }
  }

  lemma {:induction false} GetLocInjective(e: Extent, x: int, y: int, x': int, y': int)
    requires 0 <= x < e.xSize && 0 <= x' < e.xSize
    requires GetLoc(e, x, y) == GetLoc(e, x', y')
    ensures x == x' && y == y'
  {
    MixedRadixUnique(e.xSize, y, x, y', x');
  }

  lemma {:induction false} GetBlockLocInjective(e: Extent, x: int, y: int, z: int, x': int, y': int, z': int)
    requires 0 <= x < e.xSize && 0 <= x' < e.xSize
    requires 0 <= y < e.zSize && 0 <= y' < e.zSize
    requires GetBlockLoc(e, x, y, z) == GetBlockLoc(e, x', y', z')
    ensures x == x' && y == y' && z == z'
  {
    MixedRadixUnique(e.xSize, y + e.zSize * z, x, y' + e.zSize * z', x');
    MixedRadixUnique(e.zSize, z, y, z', y');
  }

  /** Every entry of the block vector is the cell of exactly one in-range
      triple: GetBlockLoc is onto [0, X * Z * Y), and the triple recovered by
      `%` and `/` is the only one with 0 <= x < X and 0 <= y < Z that
      reaches k. */
  lemma {:induction false} GetBlockLocOnto(e: Extent, k: int)
    requires e.xSize > 0 && e.zSize > 0 && 0 <= k < e.BlockCount()
    ensures var x, y, z := k % e.xSize, (k / e.xSize) % e.zSize, k / e.xSize / e.zSize;
            0 <= x < e.xSize && 0 <= y < e.zSize && 0 <= z < e.ySize &&
            GetBlockLoc(e, x, y, z) == k
    ensures forall x', y', z' :: 0 <= x' < e.xSize && 0 <= y' < e.zSize && GetBlockLoc(e, x', y', z') == k ==>
              x' == k % e.xSize && y' == (k / e.xSize) % e.zSize && z' == k / e.xSize / e.zSize
  {
    var X, Z := e.xSize, e.zSize;
    var w := k / X;
    assert k == X * w + k % X;
    assert w == Z * (w / Z) + w % Z;
    var z := w / Z;
    assert X * (w % Z + Z * z) + k % X == k;
    if z >= e.ySize {
      MulLeft(Z, e.ySize, z);
      MulLeft(X, Z * e.ySize, w);
      MulLeft(X, 0, k % X);
      assert false;
    }
    if z < 0 {
      MulLeft(Z, z, -1);
      MulLeft(X, w, -1);
      assert false;
    }
    forall x', y', z' | 0 <= x' < X && 0 <= y' < Z && GetBlockLoc(e, x', y', z') == k
      ensures x' == k % X && y' == w % Z && z' == z
    {
      GetBlockLocInjective(e, x', y', z', k % X, w % Z, z);
    }
  }

  // ---------------------------------------------------------------------
  // Neighbour classification
  // ---------------------------------------------------------------------

  /** The static selection table: NONE, BLOCK, DIRT map to NONEXIST, BODY, TOP.
      A stored cell is never an EDGE, exists exactly when it is not NONE, and
      is a top cell exactly when it is DIRT. */
  function Classify(t: BlockType): (r: ChunkBlockPosition)
    ensures r != Edge
    ensures BlockExists(r) <==> t != None
    ensures r == Top <==> t == Dirt
  {
    match t
    case None => NonExist
    case Block => Body
    case Dirt => Top
  }

  predicate IsEdgeQuery(e: Extent, x: int, z: int) {
    x == 0 || x == e.xSize - 1 || z == 0 || z == e.zSize - 1
  }

  predicate OutOfRangeQuery(e: Extent, x: int, y: int, z: int) {
    x < 0 || x >= e.xSize || z < 0 || z >= e.zSize || y < 0 || y > e.ySize
  }

  /** A query that passes both tests of the classifier lands inside the block
      vector, including the case y == Y that the strict `y > Y` test lets
      through. */
  lemma {:induction false} QueriedCellInStorage(e: Extent, x: int, y: int, z: int)
    requires e.Cubic()
    requires !IsEdgeQuery(e, x, z) && !OutOfRangeQuery(e, x, y, z)
    ensures 0 <= GetBlockLoc(e, x, y, z) < e.BlockCount()
  {
    var s := e.xSize;
    assert 1 <= x <= s - 2 && 1 <= z <= s - 2 && 0 <= y <= s;
    MulLeft(s, z, s - 2);
    MulLeft(s, y + s * z, s + s * (s - 2));
    assert s * (s + s * (s - 2)) == s * s * s - s * s by {
      assert s + s * (s - 2) == s * s - s;
      assert s * (s * s - s) == s * (s * s) - s * s;
    }
    MulLeft(s, 3, s);
    MulLeft(s, 0, y + s * z);
    assert e.BlockCount() == s * s * s;
  }

  /** _GetBlockState: sorts a cell into EDGE, NONEXIST, BODY or TOP. The edge
      test runs first and looks at x and at the third argument only; then the
      range test; only then is the block vector read. */
  function BlockState(e: Extent, blocks: seq<BlockType>, x: int, y: int, z: int): (r: ChunkBlockPosition)
    requires e.Cubic() && |blocks| == e.BlockCount()
    ensures r == Edge <==> IsEdgeQuery(e, x, z)
    ensures !IsEdgeQuery(e, x, z) && OutOfRangeQuery(e, x, y, z) ==> r == NonExist
    ensures !IsEdgeQuery(e, x, z) && !OutOfRangeQuery(e, x, y, z) ==>
              0 <= GetBlockLoc(e, x, y, z) < |blocks| &&
              r == Classify(blocks[GetBlockLoc(e, x, y, z)])
  {
    if IsEdgeQuery(e, x, z) then Edge
    else if OutOfRangeQuery(e, x, y, z) then NonExist
    else
      QueriedCellInStorage(e, x, y, z);
      Classify(blocks[GetBlockLoc(e, x, y, z)])
  }

  /** _BlockExists: only BODY and TOP are solid; EDGE counts as absent. */
  predicate BlockExists(b: ChunkBlockPosition) {
    b == Body || b == Top
  }

  /** A cell read from storage exists exactly when it is not NONE. */
  lemma StoredBlockExists(t: BlockType)
    ensures BlockExists(Classify(t)) <==> t != None
    ensures Classify(t) != Edge
  {
  }

  /** With the strict `y > Y` test, asking for the column just past the last
      one (y == Y) reads column 0 of the next layer up. */
  lemma {:induction false} PastLastColumnReadsNextLayer(e: Extent, blocks: seq<BlockType>, x: int, z: int)
    requires e.Cubic() && |blocks| == e.BlockCount()
    requires 0 < x < e.xSize - 1 && 0 < z < e.zSize - 1
    ensures GetBlockLoc(e, x, e.ySize, z) == GetBlockLoc(e, x, 0, z + 1)
    ensures BlockState(e, blocks, x, e.ySize, z) == Classify(blocks[GetBlockLoc(e, x, 0, z + 1)])
  {
    assert e.ySize + e.zSize * z == 0 + e.zSize * (z + 1);
  }
}
