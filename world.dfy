/**
 * The world: a map from chunk keys to chunk columns, and the routing of
 * global block coordinates to the owning chunk and the cell inside it.
 */
module VoxelWorld {
  import opened ChunkSystem
  import opened ChunkStore

  /** A chunk that may be absent: the pointer `getChunk` returns, or null. */
  datatype Option<T> = None | Some(value: T)

  /**
   * One component of `worldToChunk`: the index of the chunk containing global
   * coordinate v, which is floor(v / 16). The chunk spans the 16 blocks from
   * 16 * index on.
   */
  function ChunkIndex(v: int): (c: int)
    ensures ChunkSize * c <= v < ChunkSize * c + ChunkSize
  {
    v / ChunkSize
  }

  /** `worldToChunk`: the key of the chunk column containing global (worldX, worldZ). */
  function WorldToChunk(worldX: int, worldZ: int): (cc: ChunkCoord)
    ensures ChunkSize * cc.x <= worldX < ChunkSize * cc.x + ChunkSize
    ensures ChunkSize * cc.z <= worldZ < ChunkSize * cc.z + ChunkSize
  {
    ChunkCoord(ChunkIndex(worldX), ChunkIndex(worldZ))
  }

  /**
   * C++ `a % CHUNK_SIZE`: the division truncates toward zero, so the remainder
   * takes the sign of a.
   */
  function TruncRem(a: int): (r: int)
    ensures a >= 0 ==> 0 <= r < ChunkSize
    ensures a < 0 ==> -ChunkSize < r <= 0
    ensures (a - r) % ChunkSize == 0
  {
    if a >= 0 then a % ChunkSize else -((-a) % ChunkSize)
  }

  /**
   * The local coordinate of global v inside its chunk: `v % 16`, plus 16 when
   * that is negative. It is the offset of v from the start of the chunk that
   * `ChunkIndex` picks.
   */
  function LocalCoord(v: int): (l: int)
    ensures 0 <= l < ChunkSize
    ensures ChunkSize * ChunkIndex(v) + l == v
  {
    var r := TruncRem(v);
    if r < 0 then r + ChunkSize else r
  }

  /** A global column is determined by its chunk key and its local coordinates. */
  lemma RoutingIsInjective(x: int, z: int, x': int, z': int)
    requires WorldToChunk(x, z) == WorldToChunk(x', z')
    requires LocalCoord(x) == LocalCoord(x') && LocalCoord(z) == LocalCoord(z')
    ensures x == x' && z == z'
  {
  }

  class World {
    /** The chunk map; C++ keeps it in a static member, here each World owns one. */
    var chunks: map<ChunkCoord, Column>

    /** Every stored chunk is a full 16 x 256 x 16 column and records the key it is stored under. */
    ghost predicate Valid()
      reads this
    {
      forall cc :: cc in chunks ==> chunks[cc].WellFormed() && chunks[cc].chunkX == cc.x && chunks[cc].chunkZ == cc.z
    }

    constructor ()
      ensures Valid() && chunks == map[]
    {
      chunks := map[];
    }

    /** `getChunk`: the chunk stored under `coord`, or nothing; it never adds one. */
    function GetChunk(coord: ChunkCoord): (r: Option<Column>)
      reads this
      ensures r.None? <==> coord !in chunks
      ensures r.Some? ==> r.value == chunks[coord]
    {
      if coord in chunks then Some(chunks[coord]) else None
    }

    /**
     * `getBlock`: air (0) above or below the height band and in chunks never
     * added; otherwise the code the owning chunk stores at the global position's
     * offset inside that chunk.
     */
    function GetBlock(x: int, y: int, z: int): (b: int)
      reads this
      requires Valid()
      ensures y < 0 || y >= ChunkHeight ==> b == 0
      ensures WorldToChunk(x, z) !in chunks ==> b == 0
      ensures 0 <= y < ChunkHeight && WorldToChunk(x, z) in chunks ==>
        b == chunks[WorldToChunk(x, z)].GetBlock(x - ChunkSize * ChunkIndex(x), y, z - ChunkSize * ChunkIndex(z))
    {
      if y < 0 || y >= ChunkHeight then 0
      else
        var localX := LocalCoord(x);
        var localZ := LocalCoord(z);
        var cc := WorldToChunk(x, z);
        match GetChunk(cc)
        case Some(chunk) => chunk.GetBlock(localX, y, localZ)
        case None => 0
    }

    /** The global position (x, y, z) lies in the height band and in a chunk that exists. */
    ghost predicate Stored(x: int, y: int, z: int)
      reads this
    {
      0 <= y < ChunkHeight && WorldToChunk(x, z) in chunks
    }

    /**
     * `setBlock`: when (x, y, z) is stored, writes `blockType` into the cell of
     * the owning chunk that `GetBlock` reads; nothing else in the world changes.
     * Otherwise it does nothing.
     */
    method SetBlock(x: int, y: int, z: int, blockType: int)
      requires Valid()
      modifies this
      ensures Valid()
      ensures !old(Stored(x, y, z)) ==> chunks == old(chunks)
      ensures chunks.Keys == old(chunks.Keys)
      ensures forall cc :: cc in chunks && cc != WorldToChunk(x, z) ==> chunks[cc] == old(chunks[cc])
      ensures forall x', y', z' ::
                GetBlock(x', y', z') ==
                (if x' == x && y' == y && z' == z && old(Stored(x, y, z)) then blockType else old(GetBlock(x', y', z')))
    {
      if y < 0 || y >= ChunkHeight {
        return;
      }
      var localX := LocalCoord(x);
      var localZ := LocalCoord(z);
      var cc := WorldToChunk(x, z);
      var chunk := GetChunk(cc);
      if chunk.Some? {
        chunks := chunks[cc := chunk.value.SetBlock(localX, y, localZ, blockType)];
        forall x', y', z'
          ensures GetBlock(x', y', z') ==
            (if x' == x && y' == y && z' == z then blockType else old(GetBlock(x', y', z')))
        {
          if 0 <= y' < ChunkHeight && WorldToChunk(x', z') == cc && (x', y', z') != (x, y, z) {
            if LocalCoord(x') == localX && LocalCoord(z') == localZ {
              RoutingIsInjective(x, z, x', z');
            }
          }
        }
      }
    }

    /**
     * `addChunk`: stores a new chunk under `coord` only when none is stored
     * there yet; an existing chunk is never replaced, so adding twice is adding
     * once. `voxels` is the content the chunk constructor generates.
     */
    method AddChunk(coord: ChunkCoord, voxels: seq<seq<seq<int>>>)
      requires Valid() && IsColumnGrid(voxels)
      modifies this
      ensures Valid()
      ensures coord in old(chunks) ==> chunks == old(chunks)
      ensures coord !in old(chunks) ==> chunks == old(chunks)[coord := Column(coord.x, coord.z, voxels)]
      ensures chunks.Keys == old(chunks.Keys) + {coord}
    {
      if coord !in chunks {
        chunks := chunks[coord := Column(coord.x, coord.z, voxels)];
      }
    }
  }
}
