/**
 * Chunk storage. Two revisions of the chunk meet in this program:
 *  - `ChunkData`, the cubic chunk of ChunkData.cpp: a 16 x 16 x 16 grid of
 *    solid/empty cells filled from a terrain height at construction, with a
 *    bounds-checked solidity query;
 *  - `Column`, the chunk as World stores it (ChunkData.h): block codes in a
 *    16 x 256 x 16 grid, read and written at in-bounds local coordinates.
 */
module ChunkStore {

  /** Horizontal extent of a chunk, and every extent of the cubic chunk. */
  const ChunkSize: int := 16
  /** Vertical extent of a chunk column as World addresses it. */
  const ChunkHeight: int := 256

  /** An integer point or offset, as the integer-valued glm::vec3 values of the program. */
  datatype Vec3 = Vec3(x: int, y: int, z: int)

  /**
   * The terrain surface height of each global column (worldX, worldZ): the
   * program samples fractal noise there and converts it to an int.
   */
  type HeightMap = (int, int) -> int

  /** (x, y, z) is a cell of the cubic grid. */
  predicate InCube(x: int, y: int, z: int)
  {
    0 <= x < ChunkSize && 0 <= y < ChunkSize && 0 <= z < ChunkSize
  }

  /** The ground of the whole world: a global voxel is solid when it lies below its column's surface. */
  predicate Ground(height: HeightMap, gx: int, gy: int, gz: int)
  {
    gy < height(gx, gz)
  }

  /** The test generateTerrain makes for local cell (x, y, z) of chunk (cx, cy, cz). */
  predicate TerrainCell(height: HeightMap, cx: int, cy: int, cz: int, x: int, y: int, z: int)
  {
    var voxelY := cy * ChunkSize + y;
    voxelY < height(cx * ChunkSize + x, cz * ChunkSize + z)
  }

  /**
   * A chunk's terrain is a slice of the world's ground: the cell at local
   * (x, y, z) of chunk (cx, cy, cz) is solid exactly when the ground is solid
   * at its global position, so chunks stacked on each other, or side by side,
   * agree wherever they describe the same voxel.
   */
  lemma TerrainIsSliceOfGround(height: HeightMap, cx: int, cy: int, cz: int, x: int, y: int, z: int)
    ensures TerrainCell(height, cx, cy, cz, x, y, z)
        <==> Ground(height, cx * ChunkSize + x, cy * ChunkSize + y, cz * ChunkSize + z)
  {
  }

  /** Two chunks one above the other: the upper one's cell y continues the lower one's column at y + 16. */
  lemma StackedChunksAgree(height: HeightMap, cx: int, cy: int, cz: int, x: int, y: int, z: int)
    ensures TerrainCell(height, cx, cy + 1, cz, x, y, z) <==> TerrainCell(height, cx, cy, cz, x, y + ChunkSize, z)
  {
  }

  /** The cubic chunk of ChunkData.cpp. */
  class ChunkData {
    const chunkX: int
    const chunkY: int
    const chunkZ: int
    /** `voxels[x][y][z]`; the grid is allocated once, its cells change. */
    const voxels: array3<bool>

    ghost predicate Valid()
      reads this
    {
      voxels.Length0 == ChunkSize && voxels.Length1 == ChunkSize && voxels.Length2 == ChunkSize
    }

    /** Every cell holds exactly what generateTerrain computes for it from `height`. */
    ghost predicate HoldsTerrain(height: HeightMap)
      reads this, voxels
      requires Valid()
    {
      forall x, y, z :: InCube(x, y, z) ==> voxels[x, y, z] == TerrainCell(height, chunkX, chunkY, chunkZ, x, y, z)
    }

    /** Allocates an all-empty 16 x 16 x 16 grid and generates the terrain into it. */
    constructor (x: int, y: int, z: int, height: HeightMap)
      ensures chunkX == x && chunkY == y && chunkZ == z
      ensures Valid() && fresh(voxels)
      ensures HoldsTerrain(height)
    {
      chunkX, chunkY, chunkZ := x, y, z;
      voxels := new bool[ChunkSize, ChunkSize, ChunkSize]((_, _, _) => false);
      new;
      GenerateTerrain(height);
    }

    /**
     * The copy a by-value member or argument makes: the same coordinates and a
     * fresh grid holding the same cells.
     */
    constructor Copy(other: ChunkData)
      requires other.Valid()
      ensures chunkX == other.chunkX && chunkY == other.chunkY && chunkZ == other.chunkZ
      ensures Valid() && fresh(voxels)
      ensures forall x, y, z :: InCube(x, y, z) ==> voxels[x, y, z] == other.voxels[x, y, z]
    {
      chunkX, chunkY, chunkZ := other.chunkX, other.chunkY, other.chunkZ;
      var grid := other.voxels;
      voxels := new bool[ChunkSize, ChunkSize, ChunkSize](
        (x: int, y: int, z: int) requires InCube(x, y, z) reads grid => grid[x, y, z]);
    }

    /**
     * For every column (x, z), sets each cell whose global height lies below
     * the column's surface. Cells are only ever set, never cleared.
     */
    method GenerateTerrain(height: HeightMap)
      requires Valid()
      modifies voxels
      ensures forall i, j, k :: InCube(i, j, k) ==>
        voxels[i, j, k] == (old(voxels[i, j, k]) || TerrainCell(height, chunkX, chunkY, chunkZ, i, j, k))
    {
      for x := 0 to ChunkSize
        invariant forall i, j, k :: InCube(i, j, k) ==>
          voxels[i, j, k] == (old(voxels[i, j, k]) || (i < x && TerrainCell(height, chunkX, chunkY, chunkZ, i, j, k)))
      {
        for z := 0 to ChunkSize
          invariant forall i, j, k :: InCube(i, j, k) ==>
            voxels[i, j, k] == (old(voxels[i, j, k]) ||
              ((i < x || (i == x && k < z)) && TerrainCell(height, chunkX, chunkY, chunkZ, i, j, k)))
        {
          var surface := height(chunkX * ChunkSize + x, chunkZ * ChunkSize + z);
          for y := 0 to ChunkSize
            invariant forall i, j, k :: InCube(i, j, k) ==>
              voxels[i, j, k] == (old(voxels[i, j, k]) ||
                ((i < x || (i == x && k < z) || (i == x && k == z && j < y)) &&
                 TerrainCell(height, chunkX, chunkY, chunkZ, i, j, k)))
          {
            var voxelY := chunkY * ChunkSize + y;
            if voxelY < surface {
              voxels[x, y, z] := true;
            }
          }
        }
      }
    }

    /** Whether local (x, y, z) is solid; anything outside the grid is not. */
    function IsSolid(x: int, y: int, z: int): (r: bool)
      reads this, voxels
      requires Valid()
      ensures r <==> InCube(x, y, z) && voxels[x, y, z]
    {
      if x < 0 || x >= ChunkSize || y < 0 || y >= ChunkSize || z < 0 || z >= ChunkSize then false
      else voxels[x, y, z]
    }

    /** The solid cells of the grid, as a value. */
    ghost function SolidCells(): iset<Vec3>
      reads this, voxels
      requires Valid()
    {
      iset p: Vec3 | IsSolid(p.x, p.y, p.z)
    }

    /** The world position of the chunk's local cell (0, 0, 0): a multiple of 16 on each axis. */
    function GetChunkCoords(): (r: Vec3)
      reads this
      ensures r.x % ChunkSize == 0 && r.y % ChunkSize == 0 && r.z % ChunkSize == 0
      ensures r.x / ChunkSize == chunkX && r.y / ChunkSize == chunkY && r.z / ChunkSize == chunkZ
    {
      Vec3(chunkX * ChunkSize, chunkY * ChunkSize, chunkZ * ChunkSize)
    }
  }

  /**
   * After construction from `height`, a cell of the chunk is solid exactly when
   * it is inside the grid and the world's ground is solid at its global position.
   */
  lemma SolidIffGround(c: ChunkData, height: HeightMap, x: int, y: int, z: int)
    requires c.Valid() && c.HoldsTerrain(height)
    ensures c.IsSolid(x, y, z) <==>
      InCube(x, y, z) && Ground(height, c.chunkX * ChunkSize + x, c.chunkY * ChunkSize + y, c.chunkZ * ChunkSize + z)
  {
  }

  /** Solid cells of a generated chunk sit on solid cells: columns have no overhangs. */
  lemma ColumnHasNoGaps(c: ChunkData, height: HeightMap, x: int, y: int, y': int, z: int)
    requires c.Valid() && c.HoldsTerrain(height)
    requires c.IsSolid(x, y, z) && 0 <= y' <= y
    ensures c.IsSolid(x, y', z)
  {
  }

  /** The chunk World stores: block codes (0 = air) in a 16 x 256 x 16 grid, `voxels[x][y][z]`. */
  datatype Column = Column(chunkX: int, chunkZ: int, voxels: seq<seq<seq<int>>>)
  {
    /** The grid has its full 16 x 256 x 16 extent. */
    predicate WellFormed()
    {
      IsColumnGrid(voxels)
    }

    /** The block code stored at in-bounds local (x, y, z). */
    function GetBlock(x: int, y: int, z: int): int
      requires WellFormed() && InColumn(x, y, z)
    {
      voxels[x][y][z]
    }

    /**
     * Stores `block` at in-bounds local (x, y, z): that cell reads back `block`,
     * every other cell and the chunk's coordinate are unchanged.
     */
    function SetBlock(x: int, y: int, z: int, block: int): (c: Column)
      requires WellFormed() && InColumn(x, y, z)
      ensures c.WellFormed() && c.chunkX == chunkX && c.chunkZ == chunkZ
      ensures c.GetBlock(x, y, z) == block
      ensures forall i, j, k :: InColumn(i, j, k) && (i, j, k) != (x, y, z) ==> c.GetBlock(i, j, k) == GetBlock(i, j, k)
    {
      Column(chunkX, chunkZ, voxels[x := voxels[x][y := voxels[x][y][z := block]]])
    }
  }

  /** (x, y, z) is a cell of a chunk column. */
  predicate InColumn(x: int, y: int, z: int)
  {
    0 <= x < ChunkSize && 0 <= y < ChunkHeight && 0 <= z < ChunkSize
  }

  /** The nested grid has extent 16 x 256 x 16. */
  predicate IsColumnGrid(g: seq<seq<seq<int>>>)
  {
    && |g| == ChunkSize
    && (forall x :: 0 <= x < |g| ==> |g[x]| == ChunkHeight)
    && (forall x, y :: 0 <= x < |g| && 0 <= y < |g[x]| ==> |g[x][y]| == ChunkSize)
  }
}
