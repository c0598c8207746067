/** What GenerateMesh emits, as functions of the chunk's block vector and
    column heights: which layers of each column it visits, which faces it
    emits at each layer, in which order, and what each face appends to the
    mesh sink. Module Chunks proves that its imperative GenerateMesh appends
    exactly EmitAll(old mesh, ChunkFaces(...)). */
module Meshing {
  import opened Geometry
  import opened ChunkLayout
  import opened Mesh

  /** The five kinds of face a cell can contribute. Left is the x + 1 side,
      Right the x - 1 side, Front the z + 1 side and Back the z - 1 side. */
  datatype Side = TopSide | LeftSide | RightSide | FrontSide | BackSide

  /** A face to emit: its kind and the cell (column x, z at layer `layer`). */
  datatype Face = Face(side: Side, x: int, z: int, layer: int)

  /** Four corners in emission order v0, v1, v2, v3. */
  datatype Quad = Quad(p0: Vec3, p1: Vec3, p2: Vec3, p3: Vec3)

  // ---------------------------------------------------------------------
  // The quads of a cell
  // ---------------------------------------------------------------------

  /** The corners GenerateMesh passes to _CreateQuad for a face of cell
      (x, z, l), with blocks `b` world units wide. */
  function SideQuad(s: Side, x: int, z: int, l: int, b: int): Quad {
    var xStart := x * b;
    var xEnd := xStart + b;
    var yStart := l * b;
    var yEnd := yStart + b;
    var zStart := z * b;
    var zEnd := zStart + b;
    match s
    case TopSide =>
      Quad(Vec3(xStart, yEnd, zEnd), Vec3(xStart, yEnd, zStart), Vec3(xEnd, yEnd, zStart), Vec3(xEnd, yEnd, zEnd))
    case LeftSide =>
      Quad(Vec3(xEnd, yEnd, zStart), Vec3(xEnd, yStart, zStart), Vec3(xEnd, yStart, zEnd), Vec3(xEnd, yEnd, zEnd))
    case RightSide =>
      Quad(Vec3(xStart, yEnd, zStart), Vec3(xStart, yStart, zStart), Vec3(xStart, yStart, zEnd), Vec3(xStart, yEnd, zEnd))
    case FrontSide =>
      Quad(Vec3(xStart, yEnd, zEnd), Vec3(xStart, yStart, zEnd), Vec3(xEnd, yStart, zEnd), Vec3(xEnd, yEnd, zEnd))
    case BackSide =>
      Quad(Vec3(xStart, yEnd, zStart), Vec3(xStart, yStart, zStart), Vec3(xEnd, yStart, zStart), Vec3(xEnd, yEnd, zStart))
  }

  function FaceQuad(f: Face, b: int): Quad {
    SideQuad(f.side, f.x, f.z, f.layer, b)
  }

  /** The normal _CreateQuad computes: cross(p2 - p0, p3 - p1). */
  function QuadNormal(q: Quad): Vec3 {
    Cross(Sub(q.p2, q.p0), Sub(q.p3, q.p1))
  }

  /** The normal of any quad is perpendicular to both of its diagonals. */
  lemma QuadNormalPerpendicular(q: Quad)
    ensures Dot(QuadNormal(q), Sub(q.p2, q.p0)) == 0 && Dot(QuadNormal(q), Sub(q.p3, q.p1)) == 0
  {
    CrossOrthogonal(Sub(q.p2, q.p0), Sub(q.p3, q.p1));
  }

  /** The normals come out of the integer corners as axis vectors of length
      2 * b * b: the top face gives (0, -2b², 0), both x-facing sides give
      (-2b², 0, 0) and both z-facing sides give (0, 0, 2b²). Opposite sides
      therefore share one normal. */
  lemma FaceNormals(x: int, z: int, l: int, b: int)
    ensures QuadNormal(SideQuad(TopSide, x, z, l, b)) == Vec3(0, -2 * b * b, 0)
    ensures QuadNormal(SideQuad(LeftSide, x, z, l, b)) == Vec3(-2 * b * b, 0, 0)
    ensures QuadNormal(SideQuad(RightSide, x, z, l, b)) == Vec3(-2 * b * b, 0, 0)
    ensures QuadNormal(SideQuad(FrontSide, x, z, l, b)) == Vec3(0, 0, 2 * b * b)
    ensures QuadNormal(SideQuad(BackSide, x, z, l, b)) == Vec3(0, 0, 2 * b * b)
  {
    var bb := b * b;
    assert (-b) * b == -bb && b * (-b) == -bb && (-b) * (-b) == bb;
    var top := SideQuad(TopSide, x, z, l, b);
    assert Sub(top.p2, top.p0) == Vec3(b, 0, -b) && Sub(top.p3, top.p1) == Vec3(b, 0, b);
    CrossOfAxes(b);
    var left := SideQuad(LeftSide, x, z, l, b);
    assert Sub(left.p2, left.p0) == Vec3(0, -b, b) && Sub(left.p3, left.p1) == Vec3(0, b, b);
    var right := SideQuad(RightSide, x, z, l, b);
    assert Sub(right.p2, right.p0) == Vec3(0, -b, b) && Sub(right.p3, right.p1) == Vec3(0, b, b);
    var front := SideQuad(FrontSide, x, z, l, b);
    assert Sub(front.p2, front.p0) == Vec3(b, -b, 0) && Sub(front.p3, front.p1) == Vec3(b, b, 0);
    var back := SideQuad(BackSide, x, z, l, b);
    assert Sub(back.p2, back.p0) == Vec3(b, -b, 0) && Sub(back.p3, back.p1) == Vec3(b, b, 0);
  }

  lemma CrossOfAxes(b: int)
    ensures Cross(Vec3(b, 0, -b), Vec3(b, 0, b)) == Vec3(0, -2 * b * b, 0)
    ensures Cross(Vec3(0, -b, b), Vec3(0, b, b)) == Vec3(-2 * b * b, 0, 0)
    ensures Cross(Vec3(b, -b, 0), Vec3(b, b, 0)) == Vec3(0, 0, 2 * b * b)
  {
    assert (-b) * b == -(b * b) && b * (-b) == -(b * b);
  }

  /** Each quad is flat: its four corners lie on the plane of its side of the
      cell. In each of the other two directions the corners take both bounds
      of the cell, so the quad spans the b-by-b square of that side. */
  lemma FacePlanes(x: int, z: int, l: int, b: int)
    ensures var q := SideQuad(TopSide, x, z, l, b);
            q.p0.y == q.p1.y == q.p2.y == q.p3.y == (l + 1) * b
    ensures var q := SideQuad(LeftSide, x, z, l, b);
            q.p0.x == q.p1.x == q.p2.x == q.p3.x == (x + 1) * b
    ensures var q := SideQuad(RightSide, x, z, l, b);
            q.p0.x == q.p1.x == q.p2.x == q.p3.x == x * b
    ensures var q := SideQuad(FrontSide, x, z, l, b);
            q.p0.z == q.p1.z == q.p2.z == q.p3.z == (z + 1) * b
    ensures var q := SideQuad(BackSide, x, z, l, b);
            q.p0.z == q.p1.z == q.p2.z == q.p3.z == z * b
    ensures var q := SideQuad(TopSide, x, z, l, b);
            {q.p0.x, q.p1.x, q.p2.x, q.p3.x} == {x * b, x * b + b} &&
            {q.p0.z, q.p1.z, q.p2.z, q.p3.z} == {z * b, z * b + b}
    ensures forall s :: s in {LeftSide, RightSide} ==>
              var q := SideQuad(s, x, z, l, b);
              {q.p0.y, q.p1.y, q.p2.y, q.p3.y} == {l * b, l * b + b} &&
              {q.p0.z, q.p1.z, q.p2.z, q.p3.z} == {z * b, z * b + b}
    ensures forall s :: s in {FrontSide, BackSide} ==>
              var q := SideQuad(s, x, z, l, b);
              {q.p0.x, q.p1.x, q.p2.x, q.p3.x} == {x * b, x * b + b} &&
              {q.p0.y, q.p1.y, q.p2.y, q.p3.y} == {l * b, l * b + b}
  {
  }

  // ---------------------------------------------------------------------
  // What one face appends to the sink
  // ---------------------------------------------------------------------

  function Four<T>(v: T): seq<T> {
    [v, v, v, v]
  }

  /** What _CreateQuad does to the sink: four positions, whose indices
      v0..v3 the sink hands back, the triangles (v0, v1, v3) and
      (v3, v1, v2), and the quad's normal four times on the normal channel. */
  function AppendQuad(m: MeshData, q: Quad): MeshData {
    var n := |m.positions|;
    var withCorners := m.(positions := m.positions + [q.p0, q.p1, q.p2, q.p3],
                          triangles := m.triangles + [Triangle(n, n + 1, n + 3), Triangle(n + 3, n + 1, n + 2)]);
    PassParam(withCorners, NormalChannel, Vector(QuadNormal(q)))
  }

  /** One face: _CreateQuad followed by the call site's four colour values. */
  function Emit(m: MeshData, f: Face, b: int): MeshData {
    PassParam(AppendQuad(m, FaceQuad(f, b)), ColourChannel, Tint(Shade(f.layer)))
  }

  /** Emits the faces in order. */
  function EmitAll(m: MeshData, fs: seq<Face>, b: int): MeshData
    decreases |fs|
  {
    if fs == [] then m else EmitAll(Emit(m, fs[0], b), fs[1..], b)
  }

  lemma {:induction false} EmitAllAppend(m: MeshData, fs: seq<Face>, gs: seq<Face>, b: int)
    ensures EmitAll(m, fs + gs, b) == EmitAll(EmitAll(m, fs, b), gs, b)
    decreases |fs|
  {
    if fs == [] {
      assert fs + gs == gs;
    } else {
      assert (fs + gs)[0] == fs[0];
      assert (fs + gs)[1..] == fs[1..] + gs;
      EmitAllAppend(Emit(m, fs[0], b), fs[1..], gs, b);
    }
  }

  /** Emitting a layer's lateral faces is emitting each side in turn. */
  lemma EmitSides(m: MeshData, e: Extent, blocks: seq<BlockType>, x: int, z: int, l: int, b: int)
    requires e.Cubic() && |blocks| == e.BlockCount()
    ensures EmitAll(m, SideFaces(e, blocks, x, z, l), b) ==
            EmitAll(EmitAll(EmitAll(EmitAll(m,
              LateralFace(e, blocks, LeftSide, x, z, l), b),
              LateralFace(e, blocks, RightSide, x, z, l), b),
              LateralFace(e, blocks, FrontSide, x, z, l), b),
              LateralFace(e, blocks, BackSide, x, z, l), b)
    ensures |SideFaces(e, blocks, x, z, l)| ==
            |LateralFace(e, blocks, LeftSide, x, z, l)| + |LateralFace(e, blocks, RightSide, x, z, l)| +
            |LateralFace(e, blocks, FrontSide, x, z, l)| + |LateralFace(e, blocks, BackSide, x, z, l)|
  {
    var lf := LateralFace(e, blocks, LeftSide, x, z, l);
    var rf := LateralFace(e, blocks, RightSide, x, z, l);
    var ff := LateralFace(e, blocks, FrontSide, x, z, l);
    var bf := LateralFace(e, blocks, BackSide, x, z, l);
    EmitAllAppend(m, lf + rf + ff, bf, b);
    EmitAllAppend(m, lf + rf, ff, b);
    EmitAllAppend(m, lf, rf, b);
  }

  /** Emitting one more face after a list of them. */
  lemma EmitAllSnoc(m: MeshData, fs: seq<Face>, f: Face, b: int)
    ensures EmitAll(m, fs + [f], b) == Emit(EmitAll(m, fs, b), f, b)
  {
    EmitAllAppend(m, fs, [f], b);
    assert [f][1..] == [];
  }

  /** A quad and four colour values keep the sink in lock-step and add 4
      vertices and 2 triangles, whatever the quad. */
  lemma QuadKeepsLockStep(m: MeshData, q: Quad, p: Param)
    requires LockStep(m)
    ensures var r := PassParam(AppendQuad(m, q), ColourChannel, p);
            LockStep(r) &&
            |r.positions| == |m.positions| + 4 && |r.triangles| == |m.triangles| + 2
  {
    var r := PassParam(AppendQuad(m, q), ColourChannel, p);
    var n := |m.positions|;
    assert r.positions == m.positions + [q.p0, q.p1, q.p2, q.p3];
    assert r.triangles == m.triangles + [Triangle(n, n + 1, n + 3), Triangle(n + 3, n + 1, n + 2)];
    assert |r.normals| == |m.normals| + 4 && |r.colours| == |m.colours| + 4;
    forall k | 0 <= k < |r.triangles|
      ensures TriangleInRange(r.triangles[k], |r.positions|)
    {
      if k < |m.triangles| {
        assert r.triangles[k] == m.triangles[k];
      }
    }
  }

  /** One face keeps the sink in lock-step and adds 4 vertices and 2 triangles. */
  lemma EmitKeepsLockStep(m: MeshData, f: Face, b: int)
    requires LockStep(m)
    ensures var r := Emit(m, f, b);
            LockStep(r) &&
            |r.positions| == |m.positions| + 4 && |r.triangles| == |m.triangles| + 2
  {
    QuadKeepsLockStep(m, FaceQuad(f, b), Tint(Shade(f.layer)));
  }

  /** Emitting any list of faces keeps the position, normal and colour
      channels the same length, adds exactly 4 vertices and 2 triangles per
      face, leaves what was there untouched, and only ever connects vertices
      that exist. */
  lemma {:induction false} EmitAllKeepsLockStep(m: MeshData, fs: seq<Face>, b: int)
    requires LockStep(m)
    ensures var r := EmitAll(m, fs, b);
            LockStep(r) &&
            |r.positions| == |m.positions| + 4 * |fs| &&
            |r.triangles| == |m.triangles| + 2 * |fs| &&
            r.positions[..|m.positions|] == m.positions &&
            r.triangles[..|m.triangles|] == m.triangles &&
            r.normals[..|m.normals|] == m.normals &&
            r.colours[..|m.colours|] == m.colours
    decreases |fs|
  {
    if fs != [] {
      var m' := Emit(m, fs[0], b);
      EmitKeepsLockStep(m, fs[0], b);
      EmitAllKeepsLockStep(m', fs[1..], b);
      var r := EmitAll(m', fs[1..], b);
      assert r.positions[..|m.positions|] == r.positions[..|m'.positions|][..|m.positions|];
      assert r.triangles[..|m.triangles|] == r.triangles[..|m'.triangles|][..|m.triangles|];
      assert r.normals[..|m.normals|] == r.normals[..|m'.normals|][..|m.normals|];
      assert r.colours[..|m.colours|] == r.colours[..|m'.colours|][..|m.colours|];
    }
  }

  /** Face f sits in mesh r at vertices v .. v + 3 and triangles t, t + 1:
      its four corners, the triangles (v0, v1, v3) and (v3, v1, v2) over
      those vertices, and its normal and colour on all four. */
  ghost predicate QuadStored(r: MeshData, q: Quad, layer: int, v: int, t: int) {
    0 <= v && v + 3 < |r.positions| && v + 3 < |r.normals| && v + 3 < |r.colours| &&
    0 <= t && t + 1 < |r.triangles| &&
    r.positions[v..v + 4] == [q.p0, q.p1, q.p2, q.p3] &&
    r.triangles[t] == Triangle(v, v + 1, v + 3) &&
    r.triangles[t + 1] == Triangle(v + 3, v + 1, v + 2) &&
    r.normals[v..v + 4] == Four(Vector(QuadNormal(q))) &&
    r.colours[v..v + 4] == Four(Tint(Shade(layer)))
  }

  ghost predicate FaceStored(r: MeshData, f: Face, b: int, v: int, t: int) {
    QuadStored(r, FaceQuad(f, b), f.layer, v, t)
  }

  /** r' extends r on every channel. */
  ghost predicate Extends(r': MeshData, r: MeshData) {
    |r.positions| <= |r'.positions| && r'.positions[..|r.positions|] == r.positions &&
    |r.triangles| <= |r'.triangles| && r'.triangles[..|r.triangles|] == r.triangles &&
    |r.normals| <= |r'.normals| && r'.normals[..|r.normals|] == r.normals &&
    |r.colours| <= |r'.colours| && r'.colours[..|r.colours|] == r.colours
  }

  /** A quad and four colour values, appended to a sink whose channels
      have equal lengths, are stored at the old vertex and triangle counts. */
  lemma QuadStoresQuad(m: MeshData, q: Quad, layer: int)
    requires |m.normals| == |m.positions| && |m.colours| == |m.positions|
    ensures QuadStored(PassParam(AppendQuad(m, q), ColourChannel, Tint(Shade(layer))), q, layer,
                       |m.positions|, |m.triangles|)
  {
    var n := |m.positions|;
    var r := PassParam(AppendQuad(m, q), ColourChannel, Tint(Shade(layer)));
    var corners := [q.p0, q.p1, q.p2, q.p3];
    var normal := Four(Vector(QuadNormal(q)));
    var tint := Four(Tint(Shade(layer)));
    assert r.positions == m.positions + corners;
    assert r.normals == m.normals + normal;
    assert r.colours == m.colours + tint;
    SliceOfAppend(m.positions, corners);
    SliceOfAppend(m.normals, normal);
    SliceOfAppend(m.colours, tint);
    assert r.triangles == m.triangles + [Triangle(n, n + 1, n + 3), Triangle(n + 3, n + 1, n + 2)];
  }

  lemma EmitStoresFace(m: MeshData, f: Face, b: int)
    requires |m.normals| == |m.positions| && |m.colours| == |m.positions|
    ensures FaceStored(Emit(m, f, b), f, b, |m.positions|, |m.triangles|)
  {
    QuadStoresQuad(m, FaceQuad(f, b), f.layer);
  }

  lemma SliceOfAppend<T>(s: seq<T>, t: seq<T>)
    ensures (s + t)[|s|..|s| + |t|] == t
  {
  }

  lemma SliceOfPrefix<T>(s: seq<T>, n: int, a: int, c: int)
    requires 0 <= a <= c <= n <= |s|
    ensures s[..n][a..c] == s[a..c]
  {
  }

  lemma QuadStoredExtends(r: MeshData, r': MeshData, q: Quad, layer: int, v: int, t: int)
    requires QuadStored(r, q, layer, v, t) && Extends(r', r)
    ensures QuadStored(r', q, layer, v, t)
  {
    SliceOfPrefix(r'.positions, |r.positions|, v, v + 4);
    SliceOfPrefix(r'.normals, |r.normals|, v, v + 4);
    SliceOfPrefix(r'.colours, |r.colours|, v, v + 4);
    assert r'.triangles[t] == r'.triangles[..|r.triangles|][t];
    assert r'.triangles[t + 1] == r'.triangles[..|r.triangles|][t + 1];
  }

  /** The k-th emitted face occupies vertices v .. v + 3, where v = n + 4k
      and n is the vertex count before, and triangles t and t + 1, where t
      is the old triangle count plus 2k. */
  lemma {:induction false} EmitAllFace(m: MeshData, fs: seq<Face>, b: int, k: int, v: int, t: int)
    requires LockStep(m) && 0 <= k < |fs|
    requires v == |m.positions| + 4 * k && t == |m.triangles| + 2 * k
    ensures FaceStored(EmitAll(m, fs, b), fs[k], b, v, t)
    decreases |fs|
  {
    if k == 0 {
      FirstFaceStored(m, fs, b);
    } else {
      assert fs[1..][k - 1] == fs[k];
      var m' := Emit(m, fs[0], b);
      assert EmitAll(m, fs, b) == EmitAll(m', fs[1..], b);
      EmitKeepsLockStep(m, fs[0], b);
      EmitAllFace(m', fs[1..], b, k - 1, v, t);
    }
  }


  /** The first face emitted stays where it was stored, whatever follows. */
  lemma FirstFaceStored(m: MeshData, fs: seq<Face>, b: int)
    requires LockStep(m) && fs != []
    ensures FaceStored(EmitAll(m, fs, b), fs[0], b, |m.positions|, |m.triangles|)
  {
    var m' := Emit(m, fs[0], b);
    EmitKeepsLockStep(m, fs[0], b);
    EmitAllKeepsLockStep(m', fs[1..], b);
    EmitStoresFace(m, fs[0], b);
    QuadStoredExtends(m', EmitAll(m', fs[1..], b), FaceQuad(fs[0], b), fs[0].layer, |m.positions|, |m.triangles|);
  }



  // ---------------------------------------------------------------------
  // Which faces GenerateMesh emits
  // ---------------------------------------------------------------------

  /** The storage a chunk must have for GenerateMesh to run: a cubic extent
      and both vectors at their allocated sizes. */
  predicate Meshable(e: Extent, blocks: seq<BlockType>, heights: seq<int>) {
    e.Cubic() && |blocks| == e.BlockCount() && |heights| == e.ColumnCount()
  }

  /** The cell next to (x, z) on a lateral side; the top side has none. */
  function Neighbour(s: Side, x: int, z: int): (int, int) {
    match s
    case LeftSide => (x + 1, z)
    case RightSide => (x - 1, z)
    case FrontSide => (x, z + 1)
    case BackSide => (x, z - 1)
    case TopSide => (x, z)
  }

  /** A lateral face is emitted when _BlockExists is false for the neighbour;
      the classifier is called as _GetBlockState(x, z, l). */
  function LateralFace(e: Extent, blocks: seq<BlockType>, s: Side, x: int, z: int, l: int): seq<Face>
    requires e.Cubic() && |blocks| == e.BlockCount()
  {
    var (nx, nz) := Neighbour(s, x, z);
    if BlockExists(BlockState(e, blocks, nx, nz, l)) then [] else [Face(s, x, z, l)]
  }

  /** The top face is emitted when the cell itself is TOP. */
  function TopFace(e: Extent, blocks: seq<BlockType>, x: int, z: int, l: int): seq<Face>
    requires e.Cubic() && |blocks| == e.BlockCount()
  {
    if BlockState(e, blocks, x, z, l) == Top then [Face(TopSide, x, z, l)] else []
  }

  /** The rule deciding whether face f of its cell is drawn: the top face
      when the cell itself is TOP, a lateral face when the neighbour on that
      side does not exist. */
  predicate FaceVisible(e: Extent, blocks: seq<BlockType>, f: Face)
    requires e.Cubic() && |blocks| == e.BlockCount()
  {
    if f.side == TopSide then BlockState(e, blocks, f.x, f.z, f.layer) == Top
    else
      var (nx, nz) := Neighbour(f.side, f.x, f.z);
      !BlockExists(BlockState(e, blocks, nx, nz, f.layer))
  }

  /** The order in which the layer body tests the sides of a cell. */
  const SideOrder: seq<Side> := [TopSide, LeftSide, RightSide, FrontSide, BackSide]

  /** The face of side s of cell (x, z, l), when that face is drawn. */
  function SideFace(e: Extent, blocks: seq<BlockType>, s: Side, x: int, z: int, l: int): seq<Face>
    requires e.Cubic() && |blocks| == e.BlockCount()
  {
    if s == TopSide then TopFace(e, blocks, x, z, l) else LateralFace(e, blocks, s, x, z, l)
  }

  /** The drawn faces of cell (x, z, l) among the sides ss, in that order. */
  function FacesOfSides(e: Extent, blocks: seq<BlockType>, x: int, z: int, l: int, ss: seq<Side>): (r: seq<Face>)
    requires e.Cubic() && |blocks| == e.BlockCount()
    ensures |r| <= |ss|
  {
    if ss == [] then [] else SideFace(e, blocks, ss[0], x, z, l) + FacesOfSides(e, blocks, x, z, l, ss[1..])
  }

  /** The faces of one visited layer, in emission order: top (when the cell
      itself is TOP), then left, right, front and back. Each visible face of
      the cell appears (see LayerFacesMembers). */
  function LayerFaces(e: Extent, blocks: seq<BlockType>, x: int, z: int, l: int): (r: seq<Face>)
    requires e.Cubic() && |blocks| == e.BlockCount()
    ensures |r| <= 5
  {
    FacesOfSides(e, blocks, x, z, l, SideOrder)
  }

  /** A layer's faces are its top face followed by its lateral faces. */
  lemma LayerFacesSplit(e: Extent, blocks: seq<BlockType>, x: int, z: int, l: int)
    requires e.Cubic() && |blocks| == e.BlockCount()
    ensures LayerFaces(e, blocks, x, z, l) == TopFace(e, blocks, x, z, l) + SideFaces(e, blocks, x, z, l)
  {
    var lf := LateralFace(e, blocks, LeftSide, x, z, l);
    var rf := LateralFace(e, blocks, RightSide, x, z, l);
    var ff := LateralFace(e, blocks, FrontSide, x, z, l);
    var bf := LateralFace(e, blocks, BackSide, x, z, l);
    assert SideOrder[1..] == [LeftSide, RightSide, FrontSide, BackSide];
    assert [LeftSide, RightSide, FrontSide, BackSide][1..] == [RightSide, FrontSide, BackSide];
    assert [RightSide, FrontSide, BackSide][1..] == [FrontSide, BackSide];
    assert [FrontSide, BackSide][1..] == [BackSide];
    assert [BackSide][1..] == [];
    assert FacesOfSides(e, blocks, x, z, l, [BackSide]) == bf;
    assert FacesOfSides(e, blocks, x, z, l, [FrontSide, BackSide]) == ff + bf;
    assert FacesOfSides(e, blocks, x, z, l, [RightSide, FrontSide, BackSide]) == rf + (ff + bf);
    assert FacesOfSides(e, blocks, x, z, l, [LeftSide, RightSide, FrontSide, BackSide]) == lf + (rf + (ff + bf));
    assert lf + (rf + (ff + bf)) == lf + rf + ff + bf;
  }

  /** The lateral faces of a layer: left, right, front, back. */
  function SideFaces(e: Extent, blocks: seq<BlockType>, x: int, z: int, l: int): (r: seq<Face>)
    requires e.Cubic() && |blocks| == e.BlockCount()
    ensures |r| <= 4
  {
    LateralFace(e, blocks, LeftSide, x, z, l) +
    LateralFace(e, blocks, RightSide, x, z, l) +
    LateralFace(e, blocks, FrontSide, x, z, l) +
    LateralFace(e, blocks, BackSide, x, z, l)
  }

  /** The faces of a layer are exactly the cell's visible faces. */
  lemma LayerFacesMembers(e: Extent, blocks: seq<BlockType>, x: int, z: int, l: int)
    requires e.Cubic() && |blocks| == e.BlockCount()
    ensures forall f :: f in LayerFaces(e, blocks, x, z, l) <==>
              f.x == x && f.z == z && f.layer == l && FaceVisible(e, blocks, f)
  {
    var t := TopFace(e, blocks, x, z, l);
    var lf := LateralFace(e, blocks, LeftSide, x, z, l);
    var rf := LateralFace(e, blocks, RightSide, x, z, l);
    var ff := LateralFace(e, blocks, FrontSide, x, z, l);
    var bf := LateralFace(e, blocks, BackSide, x, z, l);
    var r := LayerFaces(e, blocks, x, z, l);
    LayerFacesSplit(e, blocks, x, z, l);
    assert r == t + lf + rf + ff + bf;
    forall f
      ensures f in r <==> f.x == x && f.z == z && f.layer == l && FaceVisible(e, blocks, f)
    {
      assert f in r <==> f in t || f in lf || f in rf || f in ff || f in bf;
    }
  }

  /** The layers `while (l-- >= 0)` visits when `l` holds `l` before the test:
      the test compares the old value, the body sees the decremented one, and
      an EDGE cell ends the scan. */
  function Scan(e: Extent, blocks: seq<BlockType>, x: int, z: int, l: int): (r: seq<int>)
    requires e.Cubic() && |blocks| == e.BlockCount()
    ensures forall k :: 0 <= k < |r| ==> r[k] == l - 1 - k && r[k] >= -1
    decreases l + 1
  {
    if l < 0 then []
    else if BlockState(e, blocks, x, z, l - 1) == Edge then []
    else [l - 1] + Scan(e, blocks, x, z, l - 1)
  }

  function FacesOfLayers(e: Extent, blocks: seq<BlockType>, x: int, z: int, ls: seq<int>): seq<Face>
    requires e.Cubic() && |blocks| == e.BlockCount()
  {
    if ls == [] then [] else LayerFaces(e, blocks, x, z, ls[0]) + FacesOfLayers(e, blocks, x, z, ls[1..])
  }

  /** The faces of column (x, z), scanned from its stored height downward. */
  function ColumnFaces(e: Extent, blocks: seq<BlockType>, heights: seq<int>, x: int, z: int): seq<Face>
    requires Meshable(e, blocks, heights) && 0 <= x < e.xSize && 0 <= z < e.zSize
  {
    FacesOfLayers(e, blocks, x, z, Scan(e, blocks, x, z, heights[GetLoc(e, x, z)]))
  }

  /** The faces of columns (x, z), (x, z + 1), ..., (x, Z - 1). */
  function RowFaces(e: Extent, blocks: seq<BlockType>, heights: seq<int>, x: int, z: int): seq<Face>
    requires Meshable(e, blocks, heights) && 0 <= x < e.xSize && 0 <= z <= e.zSize
    decreases e.zSize - z
  {
    if z == e.zSize then []
    else ColumnFaces(e, blocks, heights, x, z) + RowFaces(e, blocks, heights, x, z + 1)
  }

  /** The faces of rows x, x + 1, ..., X - 1. */
  function GridFaces(e: Extent, blocks: seq<BlockType>, heights: seq<int>, x: int): seq<Face>
    requires Meshable(e, blocks, heights) && 0 <= x <= e.xSize
    decreases e.xSize - x
  {
    if x == e.xSize then []
    else RowFaces(e, blocks, heights, x, 0) + GridFaces(e, blocks, heights, x + 1)
  }

  /** Everything GenerateMesh emits, x outermost and z inner. */
  function ChunkFaces(e: Extent, blocks: seq<BlockType>, heights: seq<int>): seq<Face>
    requires Meshable(e, blocks, heights)
  {
    GridFaces(e, blocks, heights, 0)
  }

  // ---------------------------------------------------------------------
  // What the scan visits
  // ---------------------------------------------------------------------

  /** hi, hi - 1, ..., lo. */
  function Descending(hi: int, lo: int): seq<int>
    decreases hi - lo + 1
  {
    if hi < lo then [] else [hi] + Descending(hi - 1, lo)
  }

  lemma {:induction false} DescendingMembers(hi: int, lo: int, l: int)
    ensures l in Descending(hi, lo) <==> lo <= l <= hi
    decreases hi - lo + 1
  {
    if hi >= lo {
      DescendingMembers(hi - 1, lo, l);
    }
  }

  /** A column on the x border is an EDGE at every layer, so its scan ends
      before it visits anything. */
  lemma BorderColumnScansNothing(e: Extent, blocks: seq<BlockType>, x: int, z: int, h: int)
    requires e.Cubic() && |blocks| == e.BlockCount()
    ensures (x == 0 || x == e.xSize - 1) ==> Scan(e, blocks, x, z, h) == []
  {
  }

  /** For any other column, the scan starting from stored height h visits:
      nothing when h < 0; layer -1 alone when h == 0; layers h - 1 down to
      1 when 0 < h < Size (layer 0 is an EDGE and stops it); nothing when
      h == Size (the first layer it tries, Size - 1, is an EDGE); and layers
      h - 1 down to Size when h > Size. */
  lemma {:induction false} ScanExtent(e: Extent, blocks: seq<BlockType>, x: int, z: int, h: int)
    requires e.Cubic() && |blocks| == e.BlockCount()
    requires 0 < x < e.xSize - 1
    ensures h < 0 ==> Scan(e, blocks, x, z, h) == []
    ensures h == 0 ==> Scan(e, blocks, x, z, h) == [-1]
    ensures 0 < h < e.ySize ==> Scan(e, blocks, x, z, h) == Descending(h - 1, 1)
    ensures h == e.ySize ==> Scan(e, blocks, x, z, h) == []
    ensures h > e.ySize ==> Scan(e, blocks, x, z, h) == Descending(h - 1, e.ySize)
    decreases h + 1
  {
    if h == 0 {
      assert Scan(e, blocks, x, z, -1) == [];
    } else if 1 < h < e.ySize || h > e.ySize {
      ScanExtent(e, blocks, x, z, h - 1);
    }
  }

  /** The scan of a column filled to height h (0 <= h <= Size) visits exactly
      the layers 1 .. h - 1, plus layer -1 when h == 0. */
  lemma ScanLayers(e: Extent, blocks: seq<BlockType>, x: int, z: int, h: int, l: int)
    requires e.Cubic() && |blocks| == e.BlockCount()
    requires 0 < x < e.xSize - 1 && 0 <= h <= e.ySize
    ensures l in Scan(e, blocks, x, z, h) <==> (h == 0 && l == -1) || (0 < l < h && h < e.ySize)
  {
    ScanExtent(e, blocks, x, z, h);
    DescendingMembers(h - 1, 1, l);
  }

  /** A height-0 interior column is scanned at layer -1 alone. The cell's
      own query there is out of range, and not an EDGE since -1 is never a
      border layer, so it is NONEXIST and has no top face. Each neighbour is
      NONEXIST or EDGE, neither of which exists, so the column emits all four
      lateral faces, one layer below the chunk's floor. */
  lemma ZeroHeightColumnFaces(e: Extent, blocks: seq<BlockType>, heights: seq<int>, x: int, z: int)
    requires Meshable(e, blocks, heights) && 0 < x < e.xSize - 1 && 0 <= z < e.zSize
    requires heights[GetLoc(e, x, z)] == 0
    ensures ColumnFaces(e, blocks, heights, x, z) ==
              [Face(LeftSide, x, z, -1), Face(RightSide, x, z, -1),
               Face(FrontSide, x, z, -1), Face(BackSide, x, z, -1)]
  {
    ScanExtent(e, blocks, x, z, 0);
    assert FacesOfLayers(e, blocks, x, z, [-1]) == LayerFaces(e, blocks, x, z, -1) + FacesOfLayers(e, blocks, x, z, []);
    LayerFacesSplit(e, blocks, x, z, -1);
    assert TopFace(e, blocks, x, z, -1) == [];
  }

  // ---------------------------------------------------------------------
  // Which faces the whole chunk emits
  // ---------------------------------------------------------------------

  lemma {:induction false} FacesOfLayersMembers(e: Extent, blocks: seq<BlockType>, x: int, z: int, ls: seq<int>, f: Face)
    requires e.Cubic() && |blocks| == e.BlockCount()
    ensures f in FacesOfLayers(e, blocks, x, z, ls) <==> f.layer in ls && f in LayerFaces(e, blocks, x, z, f.layer)
    decreases |ls|
  {
    if ls != [] {
      var first := LayerFaces(e, blocks, x, z, ls[0]);
      var rest := FacesOfLayers(e, blocks, x, z, ls[1..]);
      assert FacesOfLayers(e, blocks, x, z, ls) == first + rest;
      FacesOfLayersMembers(e, blocks, x, z, ls[1..], f);
      assert ls == [ls[0]] + ls[1..];
      if f in first {
        LayerFacesMembers(e, blocks, x, z, ls[0]);
      } else if f.layer == ls[0] {
        assert f !in LayerFaces(e, blocks, x, z, f.layer);
      }
    }
  }

  /** A face belongs to column (x, z)'s output exactly when the column's scan
      visits its layer and the face is visible there. */
  lemma ColumnFacesMembers(e: Extent, blocks: seq<BlockType>, heights: seq<int>, x: int, z: int, f: Face)
    requires Meshable(e, blocks, heights) && 0 <= x < e.xSize && 0 <= z < e.zSize
    ensures f in ColumnFaces(e, blocks, heights, x, z) <==>
              f.x == x && f.z == z && f.layer in Scan(e, blocks, x, z, heights[GetLoc(e, x, z)]) &&
              FaceVisible(e, blocks, f)
  {
    FacesOfLayersMembers(e, blocks, x, z, Scan(e, blocks, x, z, heights[GetLoc(e, x, z)]), f);
    LayerFacesMembers(e, blocks, x, z, f.layer);
  }

  /** A face in column (x, z)'s output belongs to that column. */
  lemma ColumnFacesAt(e: Extent, blocks: seq<BlockType>, heights: seq<int>, x: int, z: int, f: Face)
    requires Meshable(e, blocks, heights) && 0 <= x < e.xSize && 0 <= z < e.zSize
    requires f in ColumnFaces(e, blocks, heights, x, z)
    ensures f.x == x && f.z == z
  {
    ColumnFacesMembers(e, blocks, heights, x, z, f);
  }

  lemma {:induction false} RowFacesMembers(e: Extent, blocks: seq<BlockType>, heights: seq<int>, x: int, z: int, f: Face)
    requires Meshable(e, blocks, heights) && 0 <= x < e.xSize && 0 <= z <= e.zSize
    ensures f in RowFaces(e, blocks, heights, x, z) <==>
              z <= f.z < e.zSize && f in ColumnFaces(e, blocks, heights, x, f.z)
    decreases e.zSize - z
  {
    if z < e.zSize {
      var c := ColumnFaces(e, blocks, heights, x, z);
      var rest := RowFaces(e, blocks, heights, x, z + 1);
      assert RowFaces(e, blocks, heights, x, z) == c + rest;
      RowFacesMembers(e, blocks, heights, x, z + 1, f);
      if f in c {
        ColumnFacesAt(e, blocks, heights, x, z, f);
      } else if f.z == z {
        assert f !in rest;
      }
    }
  }

  /** A face in row x's output belongs to that row. */
  lemma RowFacesAt(e: Extent, blocks: seq<BlockType>, heights: seq<int>, x: int, f: Face)
    requires Meshable(e, blocks, heights) && 0 <= x < e.xSize
    requires f in RowFaces(e, blocks, heights, x, 0)
    ensures f.x == x
  {
    RowFacesMembers(e, blocks, heights, x, 0, f);
    ColumnFacesAt(e, blocks, heights, x, f.z, f);
  }

  lemma {:induction false} GridFacesMembers(e: Extent, blocks: seq<BlockType>, heights: seq<int>, x: int, f: Face)
    requires Meshable(e, blocks, heights) && 0 <= x <= e.xSize
    ensures f in GridFaces(e, blocks, heights, x) <==>
              x <= f.x < e.xSize && f in RowFaces(e, blocks, heights, f.x, 0)
    decreases e.xSize - x
  {
    if x < e.xSize {
      var row := RowFaces(e, blocks, heights, x, 0);
      var rest := GridFaces(e, blocks, heights, x + 1);
      assert GridFaces(e, blocks, heights, x) == row + rest;
      GridFacesMembers(e, blocks, heights, x + 1, f);
      if f in row {
        RowFacesAt(e, blocks, heights, x, f);
      } else if f.x == x {
        assert f !in rest;
      }
    }
  }

  /** The faces GenerateMesh emits are exactly the visible faces of the cells
      its column scans visit. */
  lemma ChunkFacesMembers(e: Extent, blocks: seq<BlockType>, heights: seq<int>, f: Face)
    requires Meshable(e, blocks, heights)
    ensures f in ChunkFaces(e, blocks, heights) <==>
              0 <= f.x < e.xSize && 0 <= f.z < e.zSize &&
              f.layer in Scan(e, blocks, f.x, f.z, heights[GetLoc(e, f.x, f.z)]) &&
              FaceVisible(e, blocks, f)
  {
    GridFacesMembers(e, blocks, heights, 0, f);
    if 0 <= f.x < e.xSize {
      RowFacesMembers(e, blocks, heights, f.x, 0, f);
      if 0 <= f.z < e.zSize {
        ColumnFacesMembers(e, blocks, heights, f.x, f.z, f);
      }
    }
  }

  /** Columns on the x border contribute no face. */
  lemma BorderColumnsEmitNothing(e: Extent, blocks: seq<BlockType>, heights: seq<int>, f: Face)
    requires Meshable(e, blocks, heights)
    requires f in ChunkFaces(e, blocks, heights)
    ensures 0 < f.x < e.xSize - 1
  {
    ChunkFacesMembers(e, blocks, heights, f);
    BorderColumnScansNothing(e, blocks, f.x, f.z, heights[GetLoc(e, f.x, f.z)]);
  }

  // ---------------------------------------------------------------------
  // One step of each of GenerateMesh's loops
  // ---------------------------------------------------------------------

  /** One pass of the x loop: row x, then the rows after it. */
  lemma GridStep(m: MeshData, e: Extent, blocks: seq<BlockType>, heights: seq<int>, x: int, b: int)
    requires Meshable(e, blocks, heights) && 0 <= x < e.xSize
    ensures EmitAll(m, GridFaces(e, blocks, heights, x), b) ==
            EmitAll(EmitAll(m, RowFaces(e, blocks, heights, x, 0), b), GridFaces(e, blocks, heights, x + 1), b)
  {
    EmitAllAppend(m, RowFaces(e, blocks, heights, x, 0), GridFaces(e, blocks, heights, x + 1), b);
  }

  /** One pass of the z loop: column (x, z), then the columns after it. */
  lemma RowStep(m: MeshData, e: Extent, blocks: seq<BlockType>, heights: seq<int>, x: int, z: int, b: int)
    requires Meshable(e, blocks, heights) && 0 <= x < e.xSize && 0 <= z < e.zSize
    ensures EmitAll(m, RowFaces(e, blocks, heights, x, z), b) ==
            EmitAll(EmitAll(m, ColumnFaces(e, blocks, heights, x, z), b), RowFaces(e, blocks, heights, x, z + 1), b)
  {
    EmitAllAppend(m, ColumnFaces(e, blocks, heights, x, z), RowFaces(e, blocks, heights, x, z + 1), b);
  }

  /** The column's output is what its scan from the stored height emits. */
  lemma ColumnStart(m: MeshData, e: Extent, blocks: seq<BlockType>, heights: seq<int>, x: int, z: int, b: int)
    requires Meshable(e, blocks, heights) && 0 <= x < e.xSize && 0 <= z < e.zSize
    ensures EmitAll(m, ColumnFaces(e, blocks, heights, x, z), b) ==
            EmitAll(m, FacesOfLayers(e, blocks, x, z, Scan(e, blocks, x, z, heights[GetLoc(e, x, z)])), b)
  {
  }

  /** One pass of `while (l-- >= 0)` that does not stop: `above` is the
      value tested and l the decremented one; the layer l's faces come
      first, then the rest of the scan. */
  lemma ScanStep(m: MeshData, e: Extent, blocks: seq<BlockType>, x: int, z: int, l: int, above: int, b: int)
    requires e.Cubic() && |blocks| == e.BlockCount()
    requires above == l + 1 && above >= 0 && BlockState(e, blocks, x, z, l) != Edge
    ensures EmitAll(m, FacesOfLayers(e, blocks, x, z, Scan(e, blocks, x, z, above)), b) ==
            EmitAll(EmitAll(m, LayerFaces(e, blocks, x, z, l), b),
                    FacesOfLayers(e, blocks, x, z, Scan(e, blocks, x, z, l)), b)
  {
    var s := Scan(e, blocks, x, z, above);
    assert s == [l] + Scan(e, blocks, x, z, l);
    assert s[1..] == Scan(e, blocks, x, z, l);
    EmitAllAppend(m, LayerFaces(e, blocks, x, z, l), FacesOfLayers(e, blocks, x, z, Scan(e, blocks, x, z, l)), b);
  }

  /** The scan ends, with nothing left to emit, when the decremented layer
      l is an EDGE. */
  lemma ScanStopsAtEdge(m: MeshData, e: Extent, blocks: seq<BlockType>, x: int, z: int, l: int, above: int, b: int)
    requires e.Cubic() && |blocks| == e.BlockCount()
    requires above == l + 1 && BlockState(e, blocks, x, z, l) == Edge
    ensures EmitAll(m, FacesOfLayers(e, blocks, x, z, Scan(e, blocks, x, z, above)), b) == m
  {
  }

  /** The scan ends, with nothing left to emit, once the tested value is
      negative. */
  lemma ScanStopsBelowZero(m: MeshData, e: Extent, blocks: seq<BlockType>, x: int, z: int, l: int, b: int)
    requires e.Cubic() && |blocks| == e.BlockCount()
    requires l < 0
    ensures EmitAll(m, FacesOfLayers(e, blocks, x, z, Scan(e, blocks, x, z, l)), b) == m
  {
  }
}
