/** The geometry sink a chunk writes its mesh into (the engine's DynamicMesh).
    Its implementation is not part of this model; what the chunk relies on is
    the interface: appending a position returns that vertex's index, triangles
    are recorded by vertex index, and two extra attribute channels (normal and
    colour) receive one value per vertex. */
module Mesh {
  import opened Geometry

  /** The two attribute buffers the chunk creates for its mesh. */
  datatype Channel = NormalChannel | ColourChannel

  /** A per-face colour. The source interpolates a float palette by layer;
      here the colour is a token that records the layer it was computed for. */
  datatype Colour = Shade(layer: int)

  /** A value appended to an attribute channel: a normal or a colour. */
  datatype Param = Vector(v: Vec3) | Tint(c: Colour)

  /** One triangle, by vertex index. */
  datatype Triangle = Triangle(a: int, b: int, c: int)

  /** Everything the sink has been given so far. */
  datatype MeshData = MeshData(positions: seq<Vec3>, triangles: seq<Triangle>,
                               normals: seq<Param>, colours: seq<Param>)

  const EmptyMesh := MeshData([], [], [], [])

  predicate TriangleInRange(t: Triangle, n: int) {
    0 <= t.a < n && 0 <= t.b < n && 0 <= t.c < n
  }

  /** The shape a mesh built only of quads has: both attribute channels run in
      lock-step with the positions, there are two triangles per four vertices,
      and every triangle names vertices that exist. */
  ghost predicate LockStep(m: MeshData) {
    |m.normals| == |m.positions| && |m.colours| == |m.positions| &&
    |m.positions| == 2 * |m.triangles| && |m.positions| % 4 == 0 &&
    forall k :: 0 <= k < |m.triangles| ==> TriangleInRange(m.triangles[k], |m.positions|)
  }

  function AddChannelValue(m: MeshData, ch: Channel, p: Param): MeshData {
    match ch
    case NormalChannel => m.(normals := m.normals + [p])
    case ColourChannel => m.(colours := m.colours + [p])
  }

  /** Four copies of `p` on one channel: what _PassVertParam appends. */
  function PassParam(m: MeshData, ch: Channel, p: Param): MeshData {
    AddChannelValue(AddChannelValue(AddChannelValue(AddChannelValue(m, ch, p), ch, p), ch, p), ch, p)
  }

  class DynamicMesh {
    var positions: seq<Vec3>
    var triangles: seq<Triangle>
    var normals: seq<Param>
    var colours: seq<Param>
    /** How many times the buffered geometry was uploaded. */
    var flushes: nat

    function Data(): MeshData
      reads this
    {
      MeshData(positions, triangles, normals, colours)
    }

    constructor ()
      ensures Data() == EmptyMesh && flushes == 0
    {
      positions, triangles, normals, colours := [], [], [], [];
      flushes := 0;
    }

    /** Appends a vertex position and returns the index it was stored at. */
    method AddVertex(p: Vec3) returns (index: int)
      modifies this
      ensures index == |old(positions)|
      ensures Data() == old(Data()).(positions := old(positions) + [p])
      ensures flushes == old(flushes)
    {
      index := |positions|;
      positions := positions + [p];
    }

    /** Records the triangle (a, b, c). */
    method ConnectVertices(a: int, b: int, c: int)
      modifies this
      ensures Data() == old(Data()).(triangles := old(triangles) + [Triangle(a, b, c)])
      ensures flushes == old(flushes)
    {
      triangles := triangles + [Triangle(a, b, c)];
    }

    /** Appends one value to an attribute channel. */
    method AddAttribute(ch: Channel, p: Param)
      modifies this
      ensures Data() == AddChannelValue(old(Data()), ch, p)
      ensures flushes == old(flushes)
    {
      match ch
      case NormalChannel => normals := normals + [p];
      case ColourChannel => colours := colours + [p];
    }

    /** Uploads the buffered geometry; the buffers themselves are kept. */
    method Flush()
      modifies this
      ensures Data() == old(Data()) && flushes == old(flushes) + 1
    {
      flushes := flushes + 1;
    }
  }
}
