/**
 The undistortion mesh `createUndistortedMesh` appends to a geometry: a grid
 of 20 by 20 cells over the video image, each vertex moved by the camera's
 distortion correction, drawn as one quad strip per row of cells.
 */
module Mesh {
  import opened Distortion
  import opened SeqLemmas

  datatype Vec3 = Vec3(x: real, y: real, z: real)
  datatype Vec2 = Vec2(u: real, v: real)

  datatype PrimitiveMode = QuadStrip

  /** A `DrawArrays` primitive set: `count` consecutive vertices from index `first`. */
  datatype DrawArrays = DrawArrays(mode: PrimitiveMode, first: int, count: int)

  /** The geometry the mesh is added to: its vertex array, its first texture-coordinate array and its primitive sets. */
  class Geometry {
    var coords: seq<Vec3>
    var tcoords: seq<Vec2>
    var primitives: seq<DrawArrays>
  }

  const Rows: nat := 20
  const Cols: nat := 20

  /** Vertices in one strip: a lower and an upper vertex for each of the Cols + 1 grid columns. */
  const StripLength: nat := 2 * (Cols + 1)

  /** Vertices appended in all. */
  const VertexCount: nat := Rows * StripLength

  /** The image point of grid column `c` and grid row `r` for an image of `width` by `height` pixels. */
  function GridPoint(width: int, height: int, c: nat, r: nat): (real, real)
  {
    (c as real * (width as real / Cols as real), r as real * (height as real / Rows as real))
  }

  /** The mesh vertex of grid point (c, r): the ideal point of the observed grid point, in the plane z = 0. */
  function MeshVertex(d: DistFactor, width: int, height: int, ops: FloatOps, c: nat, r: nat): Vec3
  {
    var (x, y) := GridPoint(width, height, c, r);
    var (px, py) := Ideal(d, x, y, ops);
    Vec3(px, py, 0.0)
  }

  /** The texture coordinate of grid point (c, r): u grows with the column, v falls with the row. */
  function MeshTexCoord(maxU: real, maxV: real, c: nat, r: nat): Vec2
  {
    Vec2((c as real / Cols as real) * maxU, (1.0 - r as real / Rows as real) * maxV)
  }

  /** The vertices of strip `r`: vertex 2c is grid point (c, r), vertex 2c + 1 grid point (c, r + 1). */
  function StripVertices(d: DistFactor, width: int, height: int, ops: FloatOps, r: nat): (vs: seq<Vec3>)
    ensures |vs| == StripLength
  {
    seq(StripLength, j requires 0 <= j < StripLength => MeshVertex(d, width, height, ops, j / 2, r + j % 2))
  }

  /** The texture coordinates of strip `r`, in the same order as its vertices. */
  function StripTexCoords(maxU: real, maxV: real, r: nat): (ts: seq<Vec2>)
    ensures |ts| == StripLength
  {
    seq(StripLength, j requires 0 <= j < StripLength => MeshTexCoord(maxU, maxV, j / 2, r + j % 2))
  }

  /** The vertices of the first `n` strips, strip after strip. */
  function VerticesUpTo(d: DistFactor, width: int, height: int, ops: FloatOps, n: nat): (vs: seq<Vec3>)
    ensures |vs| == n * StripLength
  {
    if n == 0 then [] else VerticesUpTo(d, width, height, ops, n - 1) + StripVertices(d, width, height, ops, n - 1)
  }

  /** The texture coordinates of the first `n` strips, strip after strip. */
  function TexCoordsUpTo(maxU: real, maxV: real, n: nat): (ts: seq<Vec2>)
    ensures |ts| == n * StripLength
  {
    if n == 0 then [] else TexCoordsUpTo(maxU, maxV, n - 1) + StripTexCoords(maxU, maxV, n - 1)
  }

  /** All vertices of the mesh, in the order they are appended. */
  function Vertices(d: DistFactor, width: int, height: int, ops: FloatOps): (vs: seq<Vec3>)
    ensures |vs| == VertexCount
  {
    VerticesUpTo(d, width, height, ops, Rows)
  }

  /** All texture coordinates of the mesh, one per vertex. */
  function TexCoords(maxU: real, maxV: real): (ts: seq<Vec2>)
    ensures |ts| == VertexCount
  {
    TexCoordsUpTo(maxU, maxV, Rows)
  }

  /** The primitive sets of the mesh: one quad strip per row of cells. */
  function Strips(): (ps: seq<DrawArrays>)
    ensures |ps| == Rows
  {
    seq(Rows, r requires 0 <= r < Rows => DrawArrays(QuadStrip, r * StripLength, StripLength))
  }

  /** A strip's vertex pair of column `c`: the grid points (c, r) and (c, r + 1), with their texture coordinates. */
  lemma StripPair(d: DistFactor, width: int, height: int, ops: FloatOps, maxU: real, maxV: real, r: nat, c: nat)
    requires c <= Cols
    ensures StripVertices(d, width, height, ops, r)[2 * c] == MeshVertex(d, width, height, ops, c, r)
    ensures StripVertices(d, width, height, ops, r)[2 * c + 1] == MeshVertex(d, width, height, ops, c, r + 1)
    ensures StripTexCoords(maxU, maxV, r)[2 * c] == MeshTexCoord(maxU, maxV, c, r)
    ensures StripTexCoords(maxU, maxV, r)[2 * c + 1] == MeshTexCoord(maxU, maxV, c, r + 1)
  {
    assert (2 * c) / 2 == c && (2 * c) % 2 == 0 && (2 * c + 1) / 2 == c && (2 * c + 1) % 2 == 1;
  }

  /** The first `m` strips are a prefix of the first `n`. */
  lemma {:induction false} UpToPrefix(d: DistFactor, width: int, height: int, ops: FloatOps, maxU: real, maxV: real, m: nat, n: nat)
    requires m <= n
    ensures VerticesUpTo(d, width, height, ops, n)[..m * StripLength] == VerticesUpTo(d, width, height, ops, m)
    ensures TexCoordsUpTo(maxU, maxV, n)[..m * StripLength] == TexCoordsUpTo(maxU, maxV, m)
    decreases n
  {
    if m < n {
      UpToPrefix(d, width, height, ops, maxU, maxV, m, n - 1);
      var vs, ts := VerticesUpTo(d, width, height, ops, n - 1), TexCoordsUpTo(maxU, maxV, n - 1);
      assert m * StripLength <= |vs|;
      assert (vs + StripVertices(d, width, height, ops, n - 1))[..m * StripLength] == vs[..m * StripLength];
      assert (ts + StripTexCoords(maxU, maxV, n - 1))[..m * StripLength] == ts[..m * StripLength];
    }
  }

  /**
   The strips tile the appended vertices: strip 0 starts at 0, each strip
   starts where the one before it ends, the last ends at VertexCount, and
   every strip is a quad strip of 2 * (Cols + 1) vertices.
   */
  lemma StripsTile()
    ensures forall r :: 0 <= r < Rows ==> Strips()[r].mode == QuadStrip && Strips()[r].count == StripLength
    ensures Strips()[0].first == 0
    ensures forall r :: 0 < r < Rows ==> Strips()[r].first == Strips()[r - 1].first + Strips()[r - 1].count
    ensures Strips()[Rows - 1].first + Strips()[Rows - 1].count == VertexCount
    ensures StripLength == 42 && VertexCount == 840
  {
  }

  /**
   Strip `r` draws exactly strip `r`'s vertices: the slice of the mesh it
   covers zigzags along the band between grid rows r and r + 1, its vertex
   2c at grid point (c, r) and its vertex 2c + 1 at grid point (c, r + 1),
   for every column c from 0 to Cols, and the same holds for the texture
   coordinates.
   */
  lemma {:induction false} StripCoversBand(d: DistFactor, width: int, height: int, ops: FloatOps, maxU: real, maxV: real, r: nat, c: nat)
    requires r < Rows && c <= Cols
    ensures var s := Strips()[r];
      && s.first + s.count <= VertexCount
      && Vertices(d, width, height, ops)[s.first..s.first + s.count] == StripVertices(d, width, height, ops, r)
      && TexCoords(maxU, maxV)[s.first..s.first + s.count] == StripTexCoords(maxU, maxV, r)
      && Vertices(d, width, height, ops)[s.first + 2 * c] == MeshVertex(d, width, height, ops, c, r)
      && Vertices(d, width, height, ops)[s.first + 2 * c + 1] == MeshVertex(d, width, height, ops, c, r + 1)
      && TexCoords(maxU, maxV)[s.first + 2 * c] == MeshTexCoord(maxU, maxV, c, r)
      && TexCoords(maxU, maxV)[s.first + 2 * c + 1] == MeshTexCoord(maxU, maxV, c, r + 1)
  {
    UpToPrefix(d, width, height, ops, maxU, maxV, r + 1, Rows);
    assert Strips()[r].first == r * StripLength;
    Window(Vertices(d, width, height, ops), VerticesUpTo(d, width, height, ops, r), StripVertices(d, width, height, ops, r),
           r * StripLength, (r + 1) * StripLength);
    Window(TexCoords(maxU, maxV), TexCoordsUpTo(maxU, maxV, r), StripTexCoords(maxU, maxV, r),
           r * StripLength, (r + 1) * StripLength);
    StripPair(d, width, height, ops, maxU, maxV, r, c);
  }
}
