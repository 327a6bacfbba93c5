/**
 * The chunk mesh builder: one quad (4 vertices, 6 indices) for every face of
 * a solid voxel whose neighbour across that face is not solid, with texture
 * coordinates taken from a 16 x 16 tile atlas by block type and face.
 */
module ChunkMeshing {
  import opened ChunkStore

  /** Block codes. */
  const Air: int := 0
  const Grass: int := 1
  const Dirt: int := 2
  const Trunk: int := 3
  const Leaves: int := 4

  /** The atlas is a grid of 16 x 16 tiles. */
  const AtlasSize: int := 16

  /**
   * Face directions, in the order generateMesh tests them:
   * 0 right (+X), 1 left (-X), 2 top (+Y), 3 bottom (-Y), 4 front (+Z), 5 back (-Z).
   */
  type FaceIndex = d: int | 0 <= d < 6

  /**
   * A texture coordinate (u / 16, v / 16), kept as its numerators over 16; the
   * program's float values are exact because 1/16 is a power of two.
   */
  datatype TexCoord = TexCoord(u: int, v: int)

  /** A vertex of the mesh; positions and normals are integer-valued. */
  datatype Vertex = Vertex(position: Vec3, normal: Vec3, texCoord: TexCoord)

  /** An atlas tile: its column and row in the atlas grid. */
  datatype Tile = Tile(column: int, row: int)

  /** The arguments of one `addFace` call: a voxel, a face direction and the voxel's block code. */
  datatype Face = Face(x: int, y: int, z: int, dir: FaceIndex, blockType: int)

  function Add(a: Vec3, b: Vec3): Vec3
  {
    Vec3(a.x + b.x, a.y + b.y, a.z + b.z)
  }

  function Dot(a: Vec3, b: Vec3): int
  {
    a.x * b.x + a.y * b.y + a.z * b.z
  }

  /** One step along one axis: exactly one component is nonzero, and it is 1 or -1. */
  predicate UnitStep(v: Vec3)
  {
    || ((v.x == 1 || v.x == -1) && v.y == 0 && v.z == 0)
    || (v.x == 0 && (v.y == 1 || v.y == -1) && v.z == 0)
    || (v.x == 0 && v.y == 0 && (v.z == 1 || v.z == -1))
  }

  /** The component of v along the axis of face direction d: x for 0 and 1, y for 2 and 3, z for 4 and 5. */
  function Along(v: Vec3, d: FaceIndex): int
  {
    if d < 2 then v.x else if d < 4 then v.y else v.z
  }

  /** The `positions` table: corner i of the unit-cube face in direction d. */
  function Corner(d: FaceIndex, i: int): (c: Vec3)
    requires 0 <= i < 4
    ensures 0 <= c.x <= 1 && 0 <= c.y <= 1 && 0 <= c.z <= 1
  {
    match d
    case 0 => if i == 0 then Vec3(1, 0, 0) else if i == 1 then Vec3(1, 0, 1) else if i == 2 then Vec3(1, 1, 1) else Vec3(1, 1, 0)
    case 1 => if i == 0 then Vec3(0, 0, 1) else if i == 1 then Vec3(0, 0, 0) else if i == 2 then Vec3(0, 1, 0) else Vec3(0, 1, 1)
    case 2 => if i == 0 then Vec3(0, 1, 0) else if i == 1 then Vec3(0, 1, 1) else if i == 2 then Vec3(1, 1, 1) else Vec3(1, 1, 0)
    case 3 => if i == 0 then Vec3(0, 0, 1) else if i == 1 then Vec3(0, 0, 0) else if i == 2 then Vec3(1, 0, 0) else Vec3(1, 0, 1)
    case 4 => if i == 0 then Vec3(0, 0, 1) else if i == 1 then Vec3(1, 0, 1) else if i == 2 then Vec3(1, 1, 1) else Vec3(0, 1, 1)
    case 5 => if i == 0 then Vec3(1, 0, 0) else if i == 1 then Vec3(0, 0, 0) else if i == 2 then Vec3(0, 1, 0) else Vec3(1, 1, 0)
  }

  /** The `normals` table: the outward unit normal of the face in direction d, along +axis for even d. */
  function Normal(d: FaceIndex): (n: Vec3)
    ensures UnitStep(n) && Along(n, d) == if d % 2 == 0 then 1 else -1
  {
    match d
    case 0 => Vec3(1, 0, 0)
    case 1 => Vec3(-1, 0, 0)
    case 2 => Vec3(0, 1, 0)
    case 3 => Vec3(0, -1, 0)
    case 4 => Vec3(0, 0, 1)
    case 5 => Vec3(0, 0, -1)
  }

  /** The neighbour generateMesh tests before emitting the face in direction d: one step along one axis. */
  function NeighborOffset(d: FaceIndex): (o: Vec3)
    ensures UnitStep(o)
  {
    match d
    case 0 => Vec3(1, 0, 0)
    case 1 => Vec3(-1, 0, 0)
    case 2 => Vec3(0, 1, 0)
    case 3 => Vec3(0, -1, 0)
    case 4 => Vec3(0, 0, 1)
    case 5 => Vec3(0, 0, -1)
  }

  /** The `texCoords` table: corner i of the unit square, in tile units. */
  function TexCorner(i: int): (t: TexCoord)
    requires 0 <= i < 4
    ensures 0 <= t.u <= 1 && 0 <= t.v <= 1
  {
    [TexCoord(0, 0), TexCoord(1, 0), TexCoord(1, 1), TexCoord(0, 1)][i]
  }

  /**
   * `getColumnRowForBlockType`: the atlas tile for a block code and face.
   * Grass has its own top, bottom and side tiles; a trunk shares one tile
   * between top and bottom; dirt and leaves use one tile for every face;
   * other codes, `Air` among them, fall back to tile (0, 0). Every tile lies inside the atlas.
   */
  function AtlasTile(blockType: int, face: int): (t: Tile)
    ensures 0 <= t.column < AtlasSize && 0 <= t.row < AtlasSize
  {
    if blockType == Grass then
      if face == 2 then Tile(8, 13) else if face == 3 then Tile(2, 15) else Tile(3, 15)
    else if blockType == Dirt then Tile(2, 15)
    else if blockType == Trunk then
      if face == 2 || face == 3 then Tile(5, 14) else Tile(4, 14)
    else if blockType == Leaves then Tile(4, 7)
    else Tile(0, 0)
  }

  /** The four side faces of a block always show the same tile. */
  lemma SidesShareTile(blockType: int, f: int, g: int)
    requires f != 2 && f != 3 && g != 2 && g != 3
    ensures AtlasTile(blockType, f) == AtlasTile(blockType, g)
  {
  }

  /**
   * Vertex i of the quad an `addFace` call emits: it lies on the plane of the
   * voxel's face in the face's direction, and its texture coordinate lies in the atlas.
   */
  function FaceVertex(f: Face, i: int): (v: Vertex)
    requires 0 <= i < 4
    ensures Along(v.position, f.dir) == Along(Vec3(f.x, f.y, f.z), f.dir) + (if f.dir % 2 == 0 then 1 else 0)
    ensures 0 <= v.texCoord.u <= AtlasSize && 0 <= v.texCoord.v <= AtlasSize
  {
    CornerAlong(f.dir, i);
    var tile := AtlasTile(f.blockType, f.dir);
    var corner := TexCorner(i);
    Vertex(Add(Vec3(f.x, f.y, f.z), Corner(f.dir, i)), Normal(f.dir), TexCoord(corner.u + tile.column, corner.v + tile.row))
  }

  /** The four vertices of one `addFace` call, in corner order. */
  function QuadVertices(f: Face): (vs: seq<Vertex>)
    ensures |vs| == 4
  {
    [FaceVertex(f, 0), FaceVertex(f, 1), FaceVertex(f, 2), FaceVertex(f, 3)]
  }

  /**
   * Vertex i of a face sits at the voxel position plus corner i of the face,
   * carries the face's normal, and has a texture coordinate inside the unit
   * square that depends only on the block code, the face and the corner.
   */
  lemma QuadVertexAt(f: Face, i: int)
    requires 0 <= i < 4
    ensures QuadVertices(f)[i].position == Add(Vec3(f.x, f.y, f.z), Corner(f.dir, i))
    ensures QuadVertices(f)[i].normal == Normal(f.dir)
    ensures 0 <= QuadVertices(f)[i].texCoord.u <= AtlasSize && 0 <= QuadVertices(f)[i].texCoord.v <= AtlasSize
    ensures QuadVertices(f)[i].texCoord == QuadVertices(Face(0, 0, 0, f.dir, f.blockType))[i].texCoord
  {
    var g := Face(0, 0, 0, f.dir, f.blockType);
    QuadVertexIs(f, i);
    QuadVertexIs(g, i);
    SameTexCoord(f, g, i);
  }

  /** The texture coordinate of a vertex ignores where the voxel is. */
  lemma SameTexCoord(f: Face, g: Face, i: int)
    requires 0 <= i < 4 && f.dir == g.dir && f.blockType == g.blockType
    ensures FaceVertex(f, i).texCoord == FaceVertex(g, i).texCoord
  {
  }

  lemma QuadVertexIs(f: Face, i: int)
    requires 0 <= i < 4
    ensures QuadVertices(f)[i] == FaceVertex(f, i)
  {
  }

  /**
   * The six indices of one face whose first vertex is at `base`: two
   * triangles that split the quad along the diagonal from its corner 0 to its
   * corner 2; the right and left faces list each triangle in the reverse
   * order. Every index names one of the face's own four vertices.
   */
  function QuadIndices(base: int, d: FaceIndex): (ix: seq<int>)
    ensures |ix| == 6
    ensures forall k :: 0 <= k < 6 ==> base <= ix[k] <= base + 3
  {
    if d == 0 || d == 1 then [base, base + 2, base + 1, base, base + 3, base + 2]
    else [base, base + 1, base + 2, base, base + 2, base + 3]
  }

  /**
   * Each index triangle of a face has three different corners, and the two
   * triangles share the diagonal from corner 0 to corner 2, so together they
   * cover the quad's four corners.
   */
  lemma QuadTrianglesCoverQuad(base: int, d: FaceIndex)
    ensures var ix := QuadIndices(base, d);
      && ix[0] != ix[1] && ix[1] != ix[2] && ix[0] != ix[2]
      && ix[3] != ix[4] && ix[4] != ix[5] && ix[3] != ix[5]
      && base in ix[..3] && base + 2 in ix[..3] && base in ix[3..] && base + 2 in ix[3..]
      && multiset(ix) == multiset{base, base, base + 1, base + 2, base + 2, base + 3}
  {
  }

  /** A triangle listed the other way round: its second and third corners swapped. */
  function ReverseWinding(ix: seq<int>): (r: seq<int>)
    requires |ix| == 6
    ensures |r| == 6
  {
    [ix[0], ix[2], ix[1], ix[3], ix[5], ix[4]]
  }

  /**
   * The right and left faces list both triangles in the opposite order to the
   * other faces; reversing twice gives the original order back.
   */
  lemma SideFacesReverseWinding(base: int, d: FaceIndex, e: FaceIndex)
    requires d == 0 || d == 1
    requires e != 0 && e != 1
    ensures QuadIndices(base, d) == ReverseWinding(QuadIndices(base, e))
    ensures ReverseWinding(QuadIndices(base, d)) == QuadIndices(base, e)
  {
  }

  /**
   * The quad of every face lies in the plane of that face of the unit cube:
   * coordinate 1 along the normal for a +axis face, 0 for a -axis face; and
   * its four corners are distinct.
   */
  lemma CornersOnFacePlane(d: FaceIndex, i: int)
    requires 0 <= i < 4
    ensures Dot(Corner(d, i), Normal(d)) == (if d % 2 == 0 then 1 else 0)
  {
    match d
    case 0 =>
    case 1 =>
    case 2 =>
    case 3 =>
    case 4 =>
    case 5 =>
  }

  /** Corner i of face d sits at 1 along the face's axis for a +axis face, at 0 for a -axis face. */
  lemma CornerAlong(d: FaceIndex, i: int)
    requires 0 <= i < 4
    ensures Along(Corner(d, i), d) == if d % 2 == 0 then 1 else 0
  {
  }

  lemma CornersDistinct(d: FaceIndex, i: int, j: int)
    requires 0 <= i < j < 4
    ensures Corner(d, i) != Corner(d, j)
  {
  }

  /** Every face is emitted toward the neighbour it was tested against. */
  lemma NormalPointsAtTestedNeighbor(d: FaceIndex)
    ensures Normal(d) == NeighborOffset(d)
  {
  }

  /** The vertices of a sequence of `addFace` calls, in order. */
  function MeshVertices(fs: seq<Face>): (vs: seq<Vertex>)
    ensures |vs| == 4 * |fs|
  {
    if fs == [] then [] else MeshVertices(fs[..|fs| - 1]) + QuadVertices(fs[|fs| - 1])
  }

  /**
   * The indices of a sequence of `addFace` calls whose first vertex is at
   * `base`: six per face, each naming one of the vertices those calls add.
   */
  function MeshIndices(fs: seq<Face>, base: int): (ix: seq<int>)
    ensures |ix| == 6 * |fs|
  {
    if fs == [] then []
    else MeshIndices(fs[..|fs| - 1], base) + QuadIndices(base + 4 * (|fs| - 1), fs[|fs| - 1].dir)
  }

  /**
   * Every index of a run of faces whose first vertex is at `base` names one of
   * the vertices that run adds, so the index buffer never points outside the
   * vertex buffer.
   */
  lemma {:induction false} MeshIndicesInRange(fs: seq<Face>, base: int)
    ensures forall k :: 0 <= k < |MeshIndices(fs, base)| ==> base <= MeshIndices(fs, base)[k] < base + 4 * |fs|
  {
    if fs != [] {
      MeshIndicesInRange(fs[..|fs| - 1], base);
    }
  }

  /** The vertices of two runs of faces are the vertices of each, one after the other. */
  lemma {:induction false} MeshVerticesAppend(a: seq<Face>, b: seq<Face>)
    ensures MeshVertices(a + b) == MeshVertices(a) + MeshVertices(b)
    decreases |b|
  {
    if b != [] {
      var b' := b[..|b| - 1];
      var last := b[|b| - 1];
      assert (a + b)[..|a + b| - 1] == a + b';
      assert (a + b)[|a + b| - 1] == last;
      MeshVerticesAppend(a, b');
      calc {
        MeshVertices(a + b);
        MeshVertices(a + b') + QuadVertices(last);
        MeshVertices(a) + MeshVertices(b') + QuadVertices(last);
        MeshVertices(a) + MeshVertices(b);
      }
    } else {
      assert a + b == a;
    }
  }

  /** The indices of the second run of faces are offset by the vertices of the first. */
  lemma {:induction false} MeshIndicesAppend(a: seq<Face>, b: seq<Face>, base: int)
    ensures MeshIndices(a + b, base) == MeshIndices(a, base) + MeshIndices(b, base + 4 * |a|)
    decreases |b|
  {
    if b != [] {
      var b' := b[..|b| - 1];
      var last := b[|b| - 1];
      assert (a + b)[..|a + b| - 1] == a + b';
      assert (a + b)[|a + b| - 1] == last;
      MeshIndicesAppend(a, b', base);
      calc {
        MeshIndices(a + b, base);
        MeshIndices(a + b', base) + QuadIndices(base + 4 * (|a + b| - 1), last.dir);
        MeshIndices(a, base) + MeshIndices(b', base + 4 * |a|) + QuadIndices(base + 4 * |a| + 4 * (|b| - 1), last.dir);
        MeshIndices(a, base) + MeshIndices(b, base + 4 * |a|);
      }
    } else {
      assert a + b == a;
    }
  }

  lemma IndicesOfAppend(a: seq<Face>, b: seq<Face>, base: int)
    requires base == 4 * |a|
    ensures MeshIndices(a + b, 0) == MeshIndices(a, 0) + MeshIndices(b, base)
  {
    MeshIndicesAppend(a, b, 0);
  }

  /** Concatenation of sequences is associative. */
  lemma AppendAssoc<T>(a: seq<T>, b: seq<T>, c: seq<T>)
    ensures a + b + c == a + (b + c)
  {
  }

  /** The face in direction d of voxel (x, y, z), when its neighbour that way is not solid. */
  function ExposedFace(solid: iset<Vec3>, x: int, y: int, z: int, d: FaceIndex, blockType: int): seq<Face>
  {
    var n := Add(Vec3(x, y, z), NeighborOffset(d));
    if n in solid then [] else [Face(x, y, z, d, blockType)]
  }

  /** The faces of voxel (x, y, z) in directions 0 .. n - 1 whose neighbour is not solid. */
  function DirFaces(solid: iset<Vec3>, x: int, y: int, z: int, blockType: int, n: nat): seq<Face>
    requires n <= 6
    // `solid` never changes; naming it keeps Dafny from unrolling calls at the literal bounds 6, 16 and 256
    decreases solid, n
  {
    if n == 0 then [] else DirFaces(solid, x, y, z, blockType, n - 1) + ExposedFace(solid, x, y, z, n - 1, blockType)
  }

  /** The faces generateMesh emits for voxel (x, y, z), in the order it tests the six directions. */
  function CellFaces(solid: iset<Vec3>, blockOf: (int, int, int) -> int, x: int, y: int, z: int): seq<Face>
  {
    if Vec3(x, y, z) !in solid then [] else DirFaces(solid, x, y, z, blockOf(x, y, z), 6)
  }

  /** The faces of voxels (x, y, 0) .. (x, y, n - 1). */
  function RowFaces(solid: iset<Vec3>, blockOf: (int, int, int) -> int, x: int, y: int, n: nat): seq<Face>
    // `solid` never changes; naming it keeps Dafny from unrolling calls at the literal bounds 6, 16 and 256
    decreases solid, n
  {
    if n == 0 then [] else RowFaces(solid, blockOf, x, y, n - 1) + CellFaces(solid, blockOf, x, y, n - 1)
  }

  /** The faces of the rows y = 0 .. n - 1 of slice x. */
  function SliceFaces(solid: iset<Vec3>, blockOf: (int, int, int) -> int, x: int, n: nat): seq<Face>
    // `solid` never changes; naming it keeps Dafny from unrolling calls at the literal bounds 6, 16 and 256
    decreases solid, n
  {
    if n == 0 then [] else SliceFaces(solid, blockOf, x, n - 1) + RowFaces(solid, blockOf, x, n - 1, ChunkSize)
  }

  /** The faces of the slices x = 0 .. n - 1, each over the full height band. */
  function ChunkFaces(solid: iset<Vec3>, blockOf: (int, int, int) -> int, n: nat): seq<Face>
    // `solid` never changes; naming it keeps Dafny from unrolling calls at the literal bounds 6, 16 and 256
    decreases solid, n
  {
    if n == 0 then [] else ChunkFaces(solid, blockOf, n - 1) + SliceFaces(solid, blockOf, n - 1, ChunkHeight)
  }

  /** Every face `generateMesh` emits for a chunk, in emission order. */
  function MeshFaces(solid: iset<Vec3>, blockOf: (int, int, int) -> int): seq<Face>
  {
    ChunkFaces(solid, blockOf, ChunkSize)
  }

  /**
   * Face f is one that generateMesh emits for its voxel: the voxel is solid,
   * the neighbour f faces is not, and f carries the voxel's block code.
   */
  ghost predicate Exposed(solid: iset<Vec3>, blockOf: (int, int, int) -> int, f: Face)
  {
    && Vec3(f.x, f.y, f.z) in solid
    && Add(Vec3(f.x, f.y, f.z), NeighborOffset(f.dir)) !in solid
    && f.blockType == blockOf(f.x, f.y, f.z)
  }

  lemma {:induction false} InDirFaces(solid: iset<Vec3>, x: int, y: int, z: int, blockType: int, n: nat, f: Face)
    requires n <= 6
    ensures f in DirFaces(solid, x, y, z, blockType, n) <==>
      && f.x == x && f.y == y && f.z == z && f.dir < n && f.blockType == blockType
      && Add(Vec3(x, y, z), NeighborOffset(f.dir)) !in solid
  {
    if n > 0 {
      InDirFaces(solid, x, y, z, blockType, n - 1, f);
    }
  }

  lemma InCellFaces(solid: iset<Vec3>, blockOf: (int, int, int) -> int, x: int, y: int, z: int, f: Face)
    ensures f in CellFaces(solid, blockOf, x, y, z) <==> f.x == x && f.y == y && f.z == z && Exposed(solid, blockOf, f)
  {
    InDirFaces(solid, x, y, z, blockOf(x, y, z), 6, f);
  }

  /**
   * A sequence built by appending part(0), part(1), ... in turn, where every
   * element of part(i) carries the key i: after n steps an element is in it
   * exactly when its key is below n and it is in the part its key names.
   */
  lemma {:induction false} InRuns<T>(whole: nat -> seq<T>, part: nat -> seq<T>, key: T -> int, n: nat, t: T)
    requires whole(0) == []
    requires forall i: nat :: 0 < i ==> whole(i) == whole(i - 1) + part(i - 1)
    requires forall i: nat, u :: u in part(i) ==> key(u) == i
    ensures t in whole(n) <==> 0 <= key(t) < n && t in part(key(t))
  {
    if n > 0 {
      InRuns(whole, part, key, n - 1, t);
    }
  }

  lemma InRowFaces(solid: iset<Vec3>, blockOf: (int, int, int) -> int, x: int, y: int, n: nat, f: Face)
    ensures f in RowFaces(solid, blockOf, x, y, n) <==> 0 <= f.z < n && f in CellFaces(solid, blockOf, x, y, f.z)
  {
    var whole := (k: nat) => RowFaces(solid, blockOf, x, y, k);
    var part := (k: nat) => CellFaces(solid, blockOf, x, y, k);
    forall i: nat, u | u in part(i)
      ensures u.z == i
    {
      InCellFaces(solid, blockOf, x, y, i, u);
    }
    InRuns(whole, part, (u: Face) => u.z, n, f);
  }

  lemma InSliceFaces(solid: iset<Vec3>, blockOf: (int, int, int) -> int, x: int, n: nat, f: Face)
    ensures f in SliceFaces(solid, blockOf, x, n) <==> 0 <= f.y < n && f in RowFaces(solid, blockOf, x, f.y, ChunkSize)
  {
    var whole := (k: nat) => SliceFaces(solid, blockOf, x, k);
    var part := (k: nat) => RowFaces(solid, blockOf, x, k, ChunkSize);
    forall i: nat, u | u in part(i)
      ensures u.y == i
    {
      InRowFaces(solid, blockOf, x, i, ChunkSize, u);
      InCellFaces(solid, blockOf, x, i, u.z, u);
    }
    InRuns(whole, part, (u: Face) => u.y, n, f);
  }

  lemma InChunkFaces(solid: iset<Vec3>, blockOf: (int, int, int) -> int, n: nat, f: Face)
    ensures f in ChunkFaces(solid, blockOf, n) <==> 0 <= f.x < n && f in SliceFaces(solid, blockOf, f.x, ChunkHeight)
  {
    var whole := (k: nat) => ChunkFaces(solid, blockOf, k);
    var part := (k: nat) => SliceFaces(solid, blockOf, k, ChunkHeight);
    forall i: nat, u | u in part(i)
      ensures u.x == i
    {
      InSliceFaces(solid, blockOf, i, ChunkHeight, u);
      InRowFaces(solid, blockOf, i, u.y, ChunkSize, u);
      InCellFaces(solid, blockOf, i, u.y, u.z, u);
    }
    InRuns(whole, part, (u: Face) => u.x, n, f);
  }

  /** The faces of a whole chunk are exactly its exposed faces inside the chunk. */
  lemma InMeshFaces(solid: iset<Vec3>, blockOf: (int, int, int) -> int, f: Face)
    ensures f in MeshFaces(solid, blockOf) <==> InColumn(f.x, f.y, f.z) && Exposed(solid, blockOf, f)
  {
    assert MeshFaces(solid, blockOf) == ChunkFaces(solid, blockOf, ChunkSize);
    InChunkFaces(solid, blockOf, ChunkSize, f);
    if 0 <= f.x < ChunkSize {
      InSliceFaces(solid, blockOf, f.x, ChunkHeight, f);
      if 0 <= f.y < ChunkHeight {
        InRowFaces(solid, blockOf, f.x, f.y, ChunkSize, f);
        InCellFaces(solid, blockOf, f.x, f.y, f.z, f);
      }
    }
  }

  /**
   * The counting form of InRuns: after n steps an element occurs in the whole
   * as often as in the part its key names, and not at all when its key is n or above.
   */
  lemma {:induction false} CountRuns<T>(whole: nat -> seq<T>, part: nat -> seq<T>, key: T -> int, n: nat, t: T)
    requires whole(0) == []
    requires forall i: nat :: 0 < i ==> whole(i) == whole(i - 1) + part(i - 1)
    requires forall i: nat, u :: u in part(i) ==> key(u) == i
    ensures multiset(whole(n))[t] == if 0 <= key(t) < n then multiset(part(key(t)))[t] else 0
  {
    if n > 0 {
      CountRuns(whole, part, key, n - 1, t);
      assert whole(n) == whole(n - 1) + part(n - 1);
      if key(t) != n - 1 {
        assert t !in part(n - 1);
      }
    }
  }

  /** Each direction below n is tested once, so each face of the voxel occurs at most once. */
  lemma {:induction false} CountDirFaces(solid: iset<Vec3>, x: int, y: int, z: int, blockType: int, n: nat, f: Face)
    requires n <= 6
    ensures multiset(DirFaces(solid, x, y, z, blockType, n))[f] <= 1
  {
    if n > 0 {
      var prev := DirFaces(solid, x, y, z, blockType, n - 1);
      var last := ExposedFace(solid, x, y, z, n - 1, blockType);
      assert DirFaces(solid, x, y, z, blockType, n) == prev + last;
      CountDirFaces(solid, x, y, z, blockType, n - 1, f);
      if f in last {
        NewFaceIsNew(solid, x, y, z, blockType, n, f);
        assert last == [f];
      } else {
        assert multiset(last)[f] == 0;
      }
    }
  }

  /** The face tested in direction n - 1 is not among those of the earlier directions. */
  lemma NewFaceIsNew(solid: iset<Vec3>, x: int, y: int, z: int, blockType: int, n: nat, f: Face)
    requires 0 < n <= 6 && f.dir == n - 1
    ensures f !in DirFaces(solid, x, y, z, blockType, n - 1)
  {
    InDirFaces(solid, x, y, z, blockType, n - 1, f);
  }

  lemma CountCellFaces(solid: iset<Vec3>, blockOf: (int, int, int) -> int, x: int, y: int, z: int, f: Face)
    ensures multiset(CellFaces(solid, blockOf, x, y, z))[f] ==
      if f.x == x && f.y == y && f.z == z && Exposed(solid, blockOf, f) then 1 else 0
  {
    InCellFaces(solid, blockOf, x, y, z, f);
    if Vec3(x, y, z) in solid {
      CountDirFaces(solid, x, y, z, blockOf(x, y, z), 6, f);
    }
    assert f in CellFaces(solid, blockOf, x, y, z) <==> multiset(CellFaces(solid, blockOf, x, y, z))[f] > 0;
  }

  lemma CountRowFaces(solid: iset<Vec3>, blockOf: (int, int, int) -> int, x: int, y: int, n: nat, f: Face)
    ensures multiset(RowFaces(solid, blockOf, x, y, n))[f] ==
      if 0 <= f.z < n then multiset(CellFaces(solid, blockOf, x, y, f.z))[f] else 0
  {
    var whole := (k: nat) => RowFaces(solid, blockOf, x, y, k);
    var part := (k: nat) => CellFaces(solid, blockOf, x, y, k);
    forall i: nat, u | u in part(i)
      ensures u.z == i
    {
      InCellFaces(solid, blockOf, x, y, i, u);
    }
    CountRuns(whole, part, (u: Face) => u.z, n, f);
  }

  lemma CountSliceFaces(solid: iset<Vec3>, blockOf: (int, int, int) -> int, x: int, n: nat, f: Face)
    ensures multiset(SliceFaces(solid, blockOf, x, n))[f] ==
      if 0 <= f.y < n then multiset(RowFaces(solid, blockOf, x, f.y, ChunkSize))[f] else 0
  {
    var whole := (k: nat) => SliceFaces(solid, blockOf, x, k);
    var part := (k: nat) => RowFaces(solid, blockOf, x, k, ChunkSize);
    forall i: nat, u | u in part(i)
      ensures u.y == i
    {
      InRowFaces(solid, blockOf, x, i, ChunkSize, u);
      InCellFaces(solid, blockOf, x, i, u.z, u);
    }
    CountRuns(whole, part, (u: Face) => u.y, n, f);
  }

  lemma CountChunkFaces(solid: iset<Vec3>, blockOf: (int, int, int) -> int, n: nat, f: Face)
    ensures multiset(ChunkFaces(solid, blockOf, n))[f] ==
      if 0 <= f.x < n then multiset(SliceFaces(solid, blockOf, f.x, ChunkHeight))[f] else 0
  {
    var whole := (k: nat) => ChunkFaces(solid, blockOf, k);
    var part := (k: nat) => SliceFaces(solid, blockOf, k, ChunkHeight);
    forall i: nat, u | u in part(i)
      ensures u.x == i
    {
      InSliceFaces(solid, blockOf, i, ChunkHeight, u);
      InRowFaces(solid, blockOf, i, u.y, ChunkSize, u);
      InCellFaces(solid, blockOf, i, u.y, u.z, u);
    }
    CountRuns(whole, part, (u: Face) => u.x, n, f);
  }

  /**
   * Every exposed face of a voxel in the loop range is emitted exactly once,
   * and no other face is emitted at all.
   */
  lemma MeshFacesOnce(solid: iset<Vec3>, blockOf: (int, int, int) -> int, f: Face)
    ensures multiset(MeshFaces(solid, blockOf))[f] == if InColumn(f.x, f.y, f.z) && Exposed(solid, blockOf, f) then 1 else 0
  {
    assert MeshFaces(solid, blockOf) == ChunkFaces(solid, blockOf, ChunkSize);
    CountChunkFaces(solid, blockOf, ChunkSize, f);
    if 0 <= f.x < ChunkSize {
      CountSliceFaces(solid, blockOf, f.x, ChunkHeight, f);
      if 0 <= f.y < ChunkHeight {
        CountRowFaces(solid, blockOf, f.x, f.y, ChunkSize, f);
        CountCellFaces(solid, blockOf, f.x, f.y, f.z, f);
      }
    }
  }

  /** A voxel none of whose neighbours is solid shows a face in each of the directions below n. */
  lemma {:induction false} DirFacesAllExposed(solid: iset<Vec3>, x: int, y: int, z: int, blockType: int, n: nat)
    requires n <= 6
    requires forall d: FaceIndex :: Add(Vec3(x, y, z), NeighborOffset(d)) !in solid
    ensures |DirFaces(solid, x, y, z, blockType, n)| == n
  {
    if n > 0 {
      DirFacesAllExposed(solid, x, y, z, blockType, n - 1);
      assert |ExposedFace(solid, x, y, z, n - 1, blockType)| == 1;
    }
  }

  /** The mesh of the lone voxel v holds the same faces as v's own cell: its six faces. */
  lemma IsolatedVoxelFaces(v: Vec3, blockOf: (int, int, int) -> int)
    requires InColumn(v.x, v.y, v.z)
    ensures |MeshFaces(iset{v}, blockOf)| == 6
  {
    var cell := CellFaces(iset{v}, blockOf, v.x, v.y, v.z);
    forall f: Face
      ensures multiset(MeshFaces(iset{v}, blockOf))[f] == multiset(cell)[f]
    {
      IsolatedVoxelCount(v, blockOf, f);
    }
    assert multiset(MeshFaces(iset{v}, blockOf)) == multiset(cell);
    LoneCellFaces(v, blockOf);
    assert |MeshFaces(iset{v}, blockOf)| == |multiset(MeshFaces(iset{v}, blockOf))| == |multiset(cell)| == |cell|;
  }

  /** A voxel with no solid neighbour shows all six of its faces. */
  lemma LoneCellFaces(v: Vec3, blockOf: (int, int, int) -> int)
    ensures |CellFaces(iset{v}, blockOf, v.x, v.y, v.z)| == 6
  {
    forall d: FaceIndex
      ensures Add(v, NeighborOffset(d)) !in iset{v}
    {
    }
    DirFacesAllExposed(iset{v}, v.x, v.y, v.z, blockOf(v.x, v.y, v.z), 6);
  }

  lemma IsolatedVoxelCount(v: Vec3, blockOf: (int, int, int) -> int, f: Face)
    requires InColumn(v.x, v.y, v.z)
    ensures multiset(MeshFaces(iset{v}, blockOf))[f] == multiset(CellFaces(iset{v}, blockOf, v.x, v.y, v.z))[f]
  {
    MeshFacesOnce(iset{v}, blockOf, f);
    CountCellFaces(iset{v}, blockOf, v.x, v.y, v.z, f);
  }

  /**
   * A chunk whose only solid cell is (x, y, z) gives six faces: 24 vertices
   * and 36 indices.
   */
  lemma IsolatedVoxelMesh(c: ChunkData, blockOf: (int, int, int) -> int, x: int, y: int, z: int)
    requires c.Valid() && InCube(x, y, z)
    requires forall i, j, k :: InCube(i, j, k) ==> (c.voxels[i, j, k] <==> i == x && j == y && k == z)
    ensures |MeshFaces(c.SolidCells(), blockOf)| == 6
    ensures |MeshVertices(MeshFaces(c.SolidCells(), blockOf))| == 24
    ensures |MeshIndices(MeshFaces(c.SolidCells(), blockOf), 0)| == 36
  {
    var v := Vec3(x, y, z);
    assert forall p :: p in c.SolidCells() <==> p in iset{v};
    assert c.SolidCells() == iset{v};
    IsolatedVoxelFaces(v, blockOf);
  }

  /**
   * The mesh of chunk c has the face in direction f.dir of voxel (f.x, f.y, f.z)
   * exactly when the voxel is in the chunk, the chunk reports it solid and
   * reports its neighbour that way not solid, and the face carries the
   * voxel's block code.
   */
  lemma FaceEmittedIffExposed(c: ChunkData, blockOf: (int, int, int) -> int, f: Face)
    requires c.Valid()
    ensures var n := Add(Vec3(f.x, f.y, f.z), NeighborOffset(f.dir));
      f in MeshFaces(c.SolidCells(), blockOf) <==>
        && InColumn(f.x, f.y, f.z)
        && c.IsSolid(f.x, f.y, f.z) && !c.IsSolid(n.x, n.y, n.z)
        && f.blockType == blockOf(f.x, f.y, f.z)
  {
    InMeshFaces(c.SolidCells(), blockOf, f);
  }

  /** A chunk with no solid voxel gives an empty mesh: no vertices, no indices. */
  lemma EmptyChunkHasEmptyMesh(c: ChunkData, blockOf: (int, int, int) -> int)
    requires c.Valid()
    requires forall x, y, z :: InCube(x, y, z) ==> !c.voxels[x, y, z]
    ensures MeshFaces(c.SolidCells(), blockOf) == []
    ensures MeshVertices(MeshFaces(c.SolidCells(), blockOf)) == []
    ensures MeshIndices(MeshFaces(c.SolidCells(), blockOf), 0) == []
  {
    var fs := MeshFaces(c.SolidCells(), blockOf);
    if fs != [] {
      InMeshFaces(c.SolidCells(), blockOf, fs[0]);
      assert false;
    }
  }

  class ChunkMesh {
    /** The chunk the mesh is built from. */
    const chunkData: ChunkData
    var vertices: seq<Vertex>
    var indices: seq<int>
    /** The `addFace` calls made so far, in order. */
    ghost var faces: seq<Face>

    /** The buffers hold exactly the quads of the faces added so far. */
    ghost predicate Valid()
      reads this, chunkData
    {
      && chunkData.Valid()
      && vertices == MeshVertices(faces)
      && indices == MeshIndices(faces, 0)
    }

    /**
     * A mesh starts unbuilt, with empty buffers, holding its own copy of the
     * chunk: later edits to the caller's chunk do not reach the mesh.
     */
    constructor (chunkData: ChunkData)
      requires chunkData.Valid()
      ensures Valid() && faces == [] && vertices == [] && indices == []
      ensures fresh(this.chunkData) && fresh(this.chunkData.voxels)
      ensures this.chunkData.GetChunkCoords() == chunkData.GetChunkCoords()
      ensures this.chunkData.SolidCells() == chunkData.SolidCells()
    {
      this.chunkData := new ChunkData.Copy(chunkData);
      vertices, indices := [], [];
      faces := [];
      new;
      assert forall p :: p in this.chunkData.SolidCells() <==> p in chunkData.SolidCells();
    }

    /**
     * `addFace`: appends the face's 4 vertices and 6 indices; the indices refer
     * to the 4 new vertices, and nothing earlier in either buffer changes.
     */
    method AddFace(x: int, y: int, z: int, faceIndex: FaceIndex, blockType: int)
      requires Valid()
      modifies this
      ensures Valid()
      ensures faces == old(faces) + [Face(x, y, z, faceIndex, blockType)]
      ensures vertices == old(vertices) + QuadVertices(Face(x, y, z, faceIndex, blockType))
      ensures indices == old(indices) + QuadIndices(|old(vertices)|, faceIndex)
    {
      var f := Face(x, y, z, faceIndex, blockType);
      var baseIndex := |vertices|;
      for i := 0 to 4
        invariant vertices == old(vertices) + QuadVertices(f)[..i]
        invariant indices == old(indices) && faces == old(faces)
      {
        vertices := vertices + [FaceVertex(f, i)];
      }
      if faceIndex == 0 || faceIndex == 1 {
        indices := indices + [baseIndex, baseIndex + 2, baseIndex + 1];
        indices := indices + [baseIndex, baseIndex + 3, baseIndex + 2];
      } else {
        indices := indices + [baseIndex, baseIndex + 1, baseIndex + 2];
        indices := indices + [baseIndex, baseIndex + 2, baseIndex + 3];
      }
      assert vertices == old(vertices) + QuadVertices(f);
      assert indices == old(indices) + QuadIndices(baseIndex, faceIndex);
      faces := faces + [f];
      assert faces[..|faces| - 1] == old(faces) && faces[|faces| - 1] == f;
    }

    /**
     * One test of `generateMesh`'s innermost loop: adds the face of voxel
     * (x, y, z) in direction d when the neighbour that way is not solid.
     * `solid` is the chunk's set of solid cells.
     */
    method EmitFace(x: int, y: int, z: int, d: FaceIndex, blockType: int, ghost solid: iset<Vec3>)
      requires Valid() && solid == chunkData.SolidCells()
      modifies this
      ensures Valid() && solid == chunkData.SolidCells()
      ensures faces == old(faces) + ExposedFace(solid, x, y, z, d, blockType)
    {
      var n := Add(Vec3(x, y, z), NeighborOffset(d));
      if !chunkData.IsSolid(n.x, n.y, n.z) {
        AddFace(x, y, z, d, blockType);
      }
    }

    /**
     * The body of `generateMesh`'s innermost loop for voxel (x, y, z): when
     * the voxel is solid, adds its face in each direction, in the order
     * right, left, top, bottom, front, back, whose neighbour is not solid.
     */
    method EmitCell(x: int, y: int, z: int, blockOf: (int, int, int) -> int, ghost solid: iset<Vec3>)
      requires Valid() && solid == chunkData.SolidCells()
      modifies this
      ensures Valid() && solid == chunkData.SolidCells()
      ensures faces == old(faces) + CellFaces(solid, blockOf, x, y, z)
    {
      var blockType := blockOf(x, y, z);
      if chunkData.IsSolid(x, y, z) {
        assert Vec3(x, y, z) in solid;
        ghost var start := faces;
        EmitFace(x, y, z, 0, blockType, solid);
        AppendAssoc(start, DirFaces(solid, x, y, z, blockType, 0), ExposedFace(solid, x, y, z, 0, blockType));
        EmitFace(x, y, z, 1, blockType, solid);
        AppendAssoc(start, DirFaces(solid, x, y, z, blockType, 1), ExposedFace(solid, x, y, z, 1, blockType));
        EmitFace(x, y, z, 2, blockType, solid);
        AppendAssoc(start, DirFaces(solid, x, y, z, blockType, 2), ExposedFace(solid, x, y, z, 2, blockType));
        EmitFace(x, y, z, 3, blockType, solid);
        AppendAssoc(start, DirFaces(solid, x, y, z, blockType, 3), ExposedFace(solid, x, y, z, 3, blockType));
        EmitFace(x, y, z, 4, blockType, solid);
        AppendAssoc(start, DirFaces(solid, x, y, z, blockType, 4), ExposedFace(solid, x, y, z, 4, blockType));
        EmitFace(x, y, z, 5, blockType, solid);
        AppendAssoc(start, DirFaces(solid, x, y, z, blockType, 5), ExposedFace(solid, x, y, z, 5, blockType));
        assert faces == start + DirFaces(solid, x, y, z, blockType, 6);
      } else {
        assert faces + [] == faces;
      }
    }

    /** `generateMesh`'s innermost loop: the voxels (x, y, 0) .. (x, y, 15), in order. */
    method EmitRow(x: int, y: int, blockOf: (int, int, int) -> int, ghost solid: iset<Vec3>)
      requires Valid() && solid == chunkData.SolidCells()
      modifies this
      ensures Valid() && solid == chunkData.SolidCells()
      ensures faces == old(faces) + RowFaces(solid, blockOf, x, y, ChunkSize)
    {
      for z := 0 to ChunkSize
        invariant Valid() && solid == chunkData.SolidCells()
        invariant faces == old(faces) + RowFaces(solid, blockOf, x, y, z)
      {
        EmitCell(x, y, z, blockOf, solid);
        AppendAssoc(old(faces), RowFaces(solid, blockOf, x, y, z), CellFaces(solid, blockOf, x, y, z));
      }
    }

    /** `generateMesh`'s middle loop: the rows y = 0 .. 255 of slice x, in order. */
    method EmitSlice(x: int, blockOf: (int, int, int) -> int, ghost solid: iset<Vec3>)
      requires Valid() && solid == chunkData.SolidCells()
      modifies this
      ensures Valid() && solid == chunkData.SolidCells()
      ensures faces == old(faces) + SliceFaces(solid, blockOf, x, ChunkHeight)
    {
      for y := 0 to ChunkHeight
        invariant Valid() && solid == chunkData.SolidCells()
        invariant faces == old(faces) + SliceFaces(solid, blockOf, x, y)
      {
        EmitRow(x, y, blockOf, solid);
        AppendAssoc(old(faces), SliceFaces(solid, blockOf, x, y), RowFaces(solid, blockOf, x, y, ChunkSize));
      }
    }

    /**
     * `generateMesh` (its CPU part): visits every voxel of the chunk, x, then
     * y over the full height band, then z, and adds one face for each
     * direction in which a solid voxel's neighbour is not solid. `blockOf`
     * stands for the chunk's `getBlock`.
     */
    method GenerateMesh(blockOf: (int, int, int) -> int)
      requires Valid()
      modifies this
      ensures Valid()
      ensures faces == old(faces) + MeshFaces(chunkData.SolidCells(), blockOf)
      ensures vertices == old(vertices) + MeshVertices(MeshFaces(chunkData.SolidCells(), blockOf))
      ensures indices == old(indices) + MeshIndices(MeshFaces(chunkData.SolidCells(), blockOf), |old(vertices)|)
    {
      ghost var solid := chunkData.SolidCells();
      ghost var base := |vertices|;
      assert base == 4 * |faces|;
      for x := 0 to ChunkSize
        invariant Valid() && solid == chunkData.SolidCells()
        invariant faces == old(faces) + ChunkFaces(solid, blockOf, x)
      {
        EmitSlice(x, blockOf, solid);
        AppendAssoc(old(faces), ChunkFaces(solid, blockOf, x), SliceFaces(solid, blockOf, x, ChunkHeight));
      }
      ghost var mesh := MeshFaces(solid, blockOf);
      MeshVerticesAppend(old(faces), mesh);
      IndicesOfAppend(old(faces), mesh, base);
    }
  }

  /** Every index of a consistent mesh names a vertex in its vertex buffer. */
  lemma IndicesInBounds(m: ChunkMesh)
    requires m.Valid()
    ensures forall k :: 0 <= k < |m.indices| ==> 0 <= m.indices[k] < |m.vertices|
  {
    MeshIndicesInRange(m.faces, 0);
  }
}
