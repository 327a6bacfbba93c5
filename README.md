# Voxel world core, modelled in Dafny

This project models the voxel-world part of the OGLBaseP4 renderer:

- **Chunk keys** (`chunk_system.dfy`, module `ChunkSystem`). A chunk column is keyed by its `(x, z)` chunk coordinate. The module models the key's `operator==` and the `size_t` hash combiner that lets the key index an `unordered_map`.
- **Chunk storage** (`chunk_store.dfy`, module `ChunkStore`). Two revisions of the chunk meet in the program, and both are modelled:
  - the cubic `ChunkData` of `ChunkData.cpp`: a 16 × 16 × 16 grid of solid/empty cells, filled from a terrain height by a triple loop, with a bounds-checked `isSolid`;
  - the `Column` that `World` stores (`ChunkData.h`): block codes in a 16 × 256 × 16 grid, read and written at in-bounds local coordinates.
- **World routing** (`world.dfy`, module `VoxelWorld`). A `World` class owns the chunk map. It turns global block coordinates into a chunk key and a local coordinate (floor division by 16, and C++ `%` corrected for negative values). It reads and writes blocks through that routing, treats absent chunks and heights outside the band as air, and adds chunks without ever replacing one.
- **Mesh building** (`chunk_mesh.dfy`, module `ChunkMeshing`). A `ChunkMesh` class appends one quad (4 vertices, 6 indices) for every face of a solid voxel whose neighbour across that face is not solid. The quad's corners, normal and winding come from fixed tables, and its texture coordinates come from a block-type × face lookup in a 16 × 16 tile atlas.
  - The faces the mesh must contain are given by specification functions (`MeshFaces` and its parts).
  - The methods are proved to append exactly those faces, in the program's loop order.
  - Lemmas characterise which faces are present: exactly the exposed faces of the chunk, each once; a chunk with one solid cell gives 24 vertices and 36 indices.
- **Image flip** (`texture.dfy`, module `Textures`). The in-place vertical flip of an image's rows, and the power-of-two size test of texture loading.
  - The flip works on a byte array through a temporary row and three `memcpy` calls per swapped pair of rows.
  - It is proved to produce the row-reversed image (`Flipped`).
  - `Flipped` is proved to be an involution that keeps the middle row and every byte past the image.
- **Bit arithmetic** (`bit_ops.dfy`, module `BitOps`). XOR and AND on naturals, defined bit by bit, with the facts the hash and the power-of-two test rely on.

Positions, normals and texture coordinates of the mesh are integer-valued in the program, or exact multiples of 1/16. The model keeps them as integers: texture coordinates are numerators over 16.

## Model

| member | source | states |
|---|---|---|
| ChunkSystem.Equal | OGLBaseP4/src/ChunkSystem.h:8-10 | Two keys are equal exactly when both the x and the z components agree, that is when they are the same key |
| ChunkSystem.EqualIsEquivalence | OGLBaseP4/src/ChunkSystem.h:8-10 | Key equality is reflexive, symmetric and transitive |
| ChunkSystem.Mix | OGLBaseP4/src/ChunkSystem.h:18 | `h2 + 0x9e3779b9 + (h2<<6) + (h2>>2)` with `size_t` wrap-around after every shift and addition equals the plain integer sum wrapped once modulo 2^64 |
| ChunkSystem.Combine | OGLBaseP4/src/ChunkSystem.h:18 | The combined hash `h1 ^ (h2 + 0x9e3779b9 + (h2<<6) + (h2>>2))`, with every step wrapping modulo 2^64, determines h1 once h2 is known: XOR-ing the mixed h2 back gives h1 |
| ChunkSystem.Hash | OGLBaseP4/src/ChunkSystem.h:15-19 | The key's hash combines the hashes of its x and z components; XOR-ing the mixed z hash back out gives the x hash, for every `std::hash<int>` |
| ChunkSystem.HashRespectsEqual | OGLBaseP4/src/ChunkSystem.h:15-19 | Keys that `operator==` calls equal have equal hashes, whatever `std::hash<int>` returns |
| ChunkSystem.HashSeparatesRow | OGLBaseP4/src/ChunkSystem.h:15-19 | Two keys in the same row (same z) whose x components hash differently never collide |
| BitOps.XorSelfInverse | OGLBaseP4/src/ChunkSystem.h:18 | XOR with the same value twice is the identity, which is what makes the combiner invertible in h1 |
| BitOps.XorBound | OGLBaseP4/src/ChunkSystem.h:18 | The XOR of two values below 2^n is below 2^n, so the combined hash is again a `size_t` |
| BitOps.AndPredecessorZeroIffPowerOfTwo | OGLBaseP4/src/Texture.cpp:35 | For n > 0, `n & (n - 1)` is 0 exactly when n is a power of two |
| BitOps.OddAboveOneIsNotPowerOfTwo | OGLBaseP4/src/Texture.cpp:35 | An odd size above 1 is not a power of two, so it triggers the warning |
| BitOps.PowerOfTwoHalves | OGLBaseP4/src/Texture.cpp:35 | An even positive size is a power of two exactly when its half is |
| Textures.SizeWarningIffNotPowerOfTwo | OGLBaseP4/src/Texture.cpp:35-37 | The size warning is printed exactly when the width or the height is positive and not a power of two; a zero side passes the test |
| Textures.SizeWarning | OGLBaseP4/src/Texture.cpp:35 | The loader's test, transcribed on natural sizes; an odd side above one always makes it warn |
| ChunkStore.TerrainIsSliceOfGround | OGLBaseP4/src/ChunkData.cpp:25-30 | The terrain test for a local cell of a chunk is the world-wide ground test at that cell's global position |
| ChunkStore.StackedChunksAgree | OGLBaseP4/src/ChunkData.cpp:25-30 | For chunks stacked vertically, cell y of the upper chunk has the same terrain as cell y + 16 of the lower chunk, so they slice one column |
| ChunkStore.ChunkData.constructor | OGLBaseP4/src/ChunkData.cpp:7-10 | A new chunk records its coordinates, allocates a fresh 16³ grid, and holds exactly the terrain: cell (x, y, z) is solid iff `chunkY*16 + y < height(chunkX*16 + x, chunkZ*16 + z)` |
| ChunkStore.ChunkData.Copy | OGLBaseP4/src/ChunkMesh.cpp:4 | The copy a by-value `ChunkData` member makes: the same chunk coordinates and a fresh grid holding the same cells |
| ChunkStore.ChunkData.GenerateTerrain | OGLBaseP4/src/ChunkData.cpp:17-37 | After the loops, each in-bounds cell is its old value OR the terrain test, so a cell is set, never cleared; only the chunk's own grid changes |
| ChunkStore.ChunkData.IsSolid | OGLBaseP4/src/ChunkData.cpp:39-48 | The result is true exactly when (x, y, z) is inside the 16³ grid and the stored cell is set; it is false for every coordinate outside |
| ChunkStore.ChunkData.GetChunkCoords | OGLBaseP4/src/ChunkData.cpp:12-15 | The origin is a multiple of 16 on each axis, and dividing it by 16 gives back the chunk coordinates |
| ChunkStore.SolidIffGround | OGLBaseP4/src/ChunkData.cpp:23-35 | In a chunk that holds the terrain, a cell is solid exactly when it is in the grid and the ground is solid at its global position |
| ChunkStore.ColumnHasNoGaps | OGLBaseP4/src/ChunkData.cpp:29-33 | In a chunk that holds the terrain, every cell below a solid cell of the same column is solid |
| ChunkStore.Column.SetBlock | OGLBaseP4/src/ChunkData.h:17-18 | Writing a block at an in-bounds cell makes that cell read back the block and leaves every other cell, the grid shape and the chunk's coordinates unchanged |
| ChunkStore.Column.GetBlock | OGLBaseP4/src/ChunkData.h:18 | The block code stored at an in-bounds local cell; what it returns after a write is stated by `Column.SetBlock` |
| VoxelWorld.ChunkIndex | OGLBaseP4/src/World.cpp:10-11 | The chunk index c of a coordinate v is the floor of v / 16: `16*c <= v < 16*c + 16` |
| VoxelWorld.WorldToChunk | OGLBaseP4/src/World.cpp:8-13 | The chunk key of a global (x, z) is the one whose 16 × 16 footprint contains it |
| VoxelWorld.TruncRem | OGLBaseP4/src/World.cpp:18-19 | C++ `%` by 16 truncates: the remainder lies in [0, 16) for a non-negative value and in (-16, 0] for a negative one, and it differs from the value by a multiple of 16 |
| VoxelWorld.LocalCoord | OGLBaseP4/src/World.cpp:18-23 | After the negative correction, the local coordinate lies in [0, 16) and `16*chunk + local` is the global coordinate |
| VoxelWorld.RoutingIsInjective | OGLBaseP4/src/World.cpp:18-25 | Two global columns with the same chunk key and the same local coordinates are the same column |
| VoxelWorld.World.constructor | OGLBaseP4/src/World.cpp:5 | A new world has no chunks |
| VoxelWorld.World.GetChunk | OGLBaseP4/src/World.cpp:56-60 | The lookup returns nothing exactly when the key is absent, and otherwise the stored chunk; it is a function of the map, so it never inserts |
| VoxelWorld.World.GetBlock | OGLBaseP4/src/World.cpp:15-31 | Air (0) when y is outside [0, 256) or the owning chunk is absent, whatever else holds; otherwise the owning chunk's block at the global position's offset inside it |
| VoxelWorld.World.SetBlock | OGLBaseP4/src/World.cpp:37-54 | When y is out of band or the owning chunk is absent, nothing changes; otherwise afterwards GetBlock reads the new block at (x, y, z) and the old block everywhere else; the key set never changes and no other chunk changes |
| VoxelWorld.World.AddChunk | OGLBaseP4/src/World.cpp:63-69 | A present key leaves the map unchanged, so adding twice is adding once; an absent key gets a new chunk at that coordinate; the key set grows by exactly that key |
| ChunkMeshing.AtlasTile | OGLBaseP4/src/ChunkMesh.cpp:139-164 | Every tile the lookup returns lies inside the 16 × 16 atlas |
| ChunkMeshing.Corner | OGLBaseP4/src/ChunkMesh.cpp:73-86 | The `positions` table; every corner is a corner of the unit cube, each coordinate 0 or 1 |
| ChunkMeshing.Normal | OGLBaseP4/src/ChunkMesh.cpp:88-91 | The `normals` table; each normal is one unit step along the face's axis, positive for faces 0, 2, 4 and negative for 1, 3, 5 |
| ChunkMeshing.NeighborOffset | OGLBaseP4/src/ChunkMesh.cpp:20-25 | The neighbour each test in generateMesh looks at is one unit step along one axis |
| ChunkMeshing.TexCorner | OGLBaseP4/src/ChunkMesh.cpp:93-95 | The `texCoords` table; every entry is a corner of the unit square |
| ChunkMeshing.FaceVertex | OGLBaseP4/src/ChunkMesh.cpp:105-113 | Vertex i of a face lies on the plane of that face of the voxel (one unit past the voxel's coordinate along a +axis face, at it along a -axis face), and its texture coordinate lies inside the atlas |
| ChunkMeshing.SidesShareTile | OGLBaseP4/src/ChunkMesh.cpp:139-164 | The four side faces of any block type show the same tile |
| ChunkMeshing.QuadVertices | OGLBaseP4/src/ChunkMesh.cpp:105-114 | One face gives exactly four vertices |
| ChunkMeshing.QuadVertexAt | OGLBaseP4/src/ChunkMesh.cpp:73-114 | Vertex i of a face is at the voxel position plus corner i of that face and carries the face's normal; its texture coordinate lies in the unit square (in sixteenths) and depends only on the block type, face and corner |
| ChunkMeshing.QuadIndices | OGLBaseP4/src/ChunkMesh.cpp:116-136 | One face gives exactly six indices, each in [base, base + 3] |
| ChunkMeshing.QuadTrianglesCoverQuad | OGLBaseP4/src/ChunkMesh.cpp:116-136 | Each of the two triangles has three distinct corners; both hold the diagonal corners base and base + 2; together they use each corner the expected number of times |
| ChunkMeshing.SideFacesReverseWinding | OGLBaseP4/src/ChunkMesh.cpp:117-136 | The right and left faces list both triangles in the opposite order to the other four faces |
| ChunkMeshing.CornersOnFacePlane | OGLBaseP4/src/ChunkMesh.cpp:73-91 | Every corner of a face lies on that face's plane of the unit cube: coordinate 1 along the normal for a +axis face and 0 for a -axis face |
| ChunkMeshing.CornersDistinct | OGLBaseP4/src/ChunkMesh.cpp:73-86 | The four corners of every face are distinct |
| ChunkMeshing.NormalPointsAtTestedNeighbor | OGLBaseP4/src/ChunkMesh.cpp:19-25 | The normal of the face emitted in direction d points at the neighbour generateMesh tested for that direction |
| ChunkMeshing.MeshVertices | OGLBaseP4/src/ChunkMesh.cpp:105-114 | A run of faces gives four vertices per face |
| ChunkMeshing.MeshIndices | OGLBaseP4/src/ChunkMesh.cpp:116-136 | A run of faces gives six indices per face |
| ChunkMeshing.MeshIndicesInRange | OGLBaseP4/src/ChunkMesh.cpp:105-136 | Every index of a run of faces whose first vertex is `base` names one of that run's vertices, so no index reaches past the vertex buffer |
| ChunkMeshing.MeshVerticesAppend | OGLBaseP4/src/ChunkMesh.cpp:105-114 | The vertices of two runs of faces are the vertices of each run, concatenated |
| ChunkMeshing.MeshIndicesAppend | OGLBaseP4/src/ChunkMesh.cpp:105-136 | The indices of the second of two runs are offset by four per face of the first run |
| ChunkMeshing.InDirFaces | OGLBaseP4/src/ChunkMesh.cpp:19-25 | The faces tested for one voxel in directions below n are exactly those of that voxel, block type and direction whose neighbour is not solid |
| ChunkMeshing.InCellFaces | OGLBaseP4/src/ChunkMesh.cpp:18-26 | The faces emitted for one voxel are exactly its exposed faces |
| ChunkMeshing.InRowFaces | OGLBaseP4/src/ChunkMesh.cpp:17-27 | The faces of voxels z = 0 .. n-1 of a row are exactly the faces whose z is in that range and which the voxel at that z emits |
| ChunkMeshing.InSliceFaces | OGLBaseP4/src/ChunkMesh.cpp:16-28 | The faces of rows y = 0 .. n-1 of a slice are exactly the faces whose y is in that range and which that row emits |
| ChunkMeshing.InChunkFaces | OGLBaseP4/src/ChunkMesh.cpp:15-29 | The faces of slices x = 0 .. n-1 are exactly the faces whose x is in that range and which that slice emits |
| ChunkMeshing.InMeshFaces | OGLBaseP4/src/ChunkMesh.cpp:15-29 | A face is in the mesh exactly when its voxel is in the 16 × 256 × 16 loop range, is solid, has a non-solid neighbour in the face's direction, and the face carries the voxel's block type |
| ChunkMeshing.FaceEmittedIffExposed | OGLBaseP4/src/ChunkMesh.cpp:15-29 | The same, stated with the chunk's `isSolid`: a face is emitted iff its voxel is in range, `isSolid` holds for it and fails for its neighbour in that direction |
| ChunkMeshing.EmptyChunkHasEmptyMesh | OGLBaseP4/src/ChunkMesh.cpp:15-29 | A chunk with no solid cell gives no faces, no vertices and no indices |
| ChunkMeshing.MeshFacesOnce | OGLBaseP4/src/ChunkMesh.cpp:15-29 | Every exposed face of a voxel in the loop range occurs exactly once in the mesh, and every other face occurs zero times; so the mesh has 4 vertices and 6 indices per exposed face |
| ChunkMeshing.CountDirFaces | OGLBaseP4/src/ChunkMesh.cpp:20-25 | The six neighbour tests of one voxel emit each face at most once |
| ChunkMeshing.CountCellFaces | OGLBaseP4/src/ChunkMesh.cpp:18-26 | One voxel emits each of its exposed faces exactly once and nothing else |
| ChunkMeshing.CountRowFaces | OGLBaseP4/src/ChunkMesh.cpp:17-27 | The innermost loop emits a face as often as the voxel at the face's z does, and not at all when that z is outside the range |
| ChunkMeshing.CountSliceFaces | OGLBaseP4/src/ChunkMesh.cpp:16-28 | The middle loop emits a face as often as the row at the face's y does, and not at all outside the range |
| ChunkMeshing.CountChunkFaces | OGLBaseP4/src/ChunkMesh.cpp:15-29 | The outer loop emits a face as often as the slice at the face's x does, and not at all outside the range |
| ChunkMeshing.DirFacesAllExposed | OGLBaseP4/src/ChunkMesh.cpp:20-25 | A voxel none of whose neighbours is solid gets a face from every one of the first n tests |
| ChunkMeshing.LoneCellFaces | OGLBaseP4/src/ChunkMesh.cpp:18-26 | The only solid voxel of a grid shows all six faces |
| ChunkMeshing.IsolatedVoxelFaces | OGLBaseP4/src/ChunkMesh.cpp:15-29 | When the only solid cell is a voxel in the loop range, the mesh has exactly six faces |
| ChunkMeshing.IsolatedVoxelMesh | OGLBaseP4/src/ChunkMesh.cpp:15-29 | A chunk with a single solid cell gives 6 faces, 24 vertices and 36 indices |
| ChunkMeshing.ChunkMesh.constructor | OGLBaseP4/src/ChunkMesh.cpp:4-5 | A new mesh has empty vertex and index buffers and holds its own fresh copy of the chunk with the same chunk coordinates (the origin `renderChunks` places it at) and the same solid cells, as the by-value `chunkData` member does |
| ChunkMeshing.ChunkMesh.AddFace | OGLBaseP4/src/ChunkMesh.cpp:72-137 | Appends the face's four vertices and its six indices, numbered from the old vertex count, and changes nothing earlier in either buffer; the buffers still hold exactly the quads of the faces added so far |
| ChunkMeshing.ChunkMesh.EmitFace | OGLBaseP4/src/ChunkMesh.cpp:19-25 | One neighbour test: adds the face exactly when the neighbour in that direction is not solid |
| ChunkMeshing.ChunkMesh.EmitCell | OGLBaseP4/src/ChunkMesh.cpp:18-26 | One voxel: adds exactly the voxel's exposed faces, in the order right, left, top, bottom, front, back |
| ChunkMeshing.ChunkMesh.EmitRow | OGLBaseP4/src/ChunkMesh.cpp:17-27 | The innermost loop: adds the faces of voxels z = 0 .. 15, in order |
| ChunkMeshing.ChunkMesh.EmitSlice | OGLBaseP4/src/ChunkMesh.cpp:16-28 | The middle loop: adds the faces of rows y = 0 .. 255, in order |
| ChunkMeshing.ChunkMesh.GenerateMesh | OGLBaseP4/src/ChunkMesh.cpp:13-29 | Appends exactly the chunk's exposed faces in loop order: the new vertices are their quads and the new indices are their index sextets, numbered from the old vertex count |
| ChunkMeshing.IndicesInBounds | OGLBaseP4/src/ChunkMesh.cpp:105-136 | In a mesh whose buffers hold the quads of its faces, every index is below the vertex count, so the index buffer never points past the vertex buffer |
| Textures.FlippedAt | OGLBaseP4/src/Texture.cpp:113-122 | In the flipped image, byte c of row r is byte c of row height-1-r of the input, for every r < height and c < rowSize |
| Textures.FlippedKeepsTail | OGLBaseP4/src/Texture.cpp:113-121 | No byte past the first height × rowSize bytes changes |
| Textures.FlippedTwice | OGLBaseP4/src/Texture.cpp:112-125 | Flipping twice gives back the original buffer |
| Textures.MiddleRowUnchanged | OGLBaseP4/src/Texture.cpp:116 | For an odd height, the middle row `height/2` is unchanged |
| Textures.Copied | OGLBaseP4/src/Texture.cpp:119-121 | What `memcpy` leaves: the destination range holds the source range, and the rest of the destination is unchanged |
| Textures.CopyBytes | OGLBaseP4/src/Texture.cpp:119-121 | `memcpy` between non-overlapping ranges: the destination array afterwards is `Copied` of the old contents |
| Textures.CopiesSwapRanges | OGLBaseP4/src/Texture.cpp:119-121 | The three copies, row1 to the temporary row, row2 to row1, then the temporary row to row2, swap the two ranges |
| Textures.SwapRows | OGLBaseP4/src/Texture.cpp:117-121 | One loop iteration swaps the two rows in the image and changes no other byte |
| Textures.SwapStep | OGLBaseP4/src/Texture.cpp:116-121 | For i < height/2, rows i and height-1-i are distinct, non-overlapping and inside the image; swapping them extends the swapped outer rows by one pair |
| Textures.AllRowsSwapped | OGLBaseP4/src/Texture.cpp:116 | Once height/2 pairs are swapped, the image is the flipped original |
| Textures.FlipImageVertically | OGLBaseP4/src/Texture.cpp:112-125 | Afterwards the buffer is the row-flipped input (`Flipped` of the old contents, with rowSize = width × channels) |

## Left out

- Floating point: `worldToChunk` divides a `float` and takes its floor. The model uses exact floor division, which agrees only for coordinates of magnitude below 2^24. Texture coordinates are kept as exact numerators over 16.
- Integer widths: the program's `int` coordinates, `width * channels` and the `unsigned int` indices are 32-bit. The model uses unbounded integers, so it does not capture their overflow. The `size_t` hash is modelled with its 64-bit wrap-around.
- Terrain noise: FastNoiseLite and the float-to-int height conversion are replaced by a height-map parameter of the global (x, z).
- `std::hash<int>` is library code; it is a parameter of `Hash`.
- Declared only: `ChunkData.h` declares `generateTrees`, `generateTree` and the chunk-side `getBlock`/`setBlock`. `ChunkData.cpp`, the earlier cubic revision, defines none of them, so they are not part of this model.
  - `Column` gives the chunk-side get/set plain in-bounds read/write semantics.
  - `GenerateMesh` takes the block-code lookup as a parameter `blockOf`.
  - Trees are not modelled.
- ChunkData constructor: `World.cpp:67` calls a four-argument constructor. `ChunkData.h:14` declares a three-argument one and `ChunkData.cpp:7` defines the cubic `(x, y, z)` one, so nothing defines the constructor `addChunk` calls. `AddChunk` therefore takes the new chunk's voxel contents as a parameter. `World::seed` is only passed to that constructor and is not modelled.
- Mixed revisions:
  - The cubic `ChunkData` (16³ `bool` grid, `isSolid` false outside it) is modelled as its `.cpp` defines it, and the mesh is built over it.
  - `generateMesh` loops y over the 256-high band, as the code does, so cells with y ≥ 16 are simply never solid there.
  - World stores the later 16 × 256 × 16 `Column`.
- `World::getBlock(glm::vec3)` only converts a float position to ints and forwards it; the float conversion is not modelled.
- Shared chunk map: the static chunk map of `World.cpp` is a field of a `World` object. Sharing between `World` instances is not modelled.
- ChunkStore.ChunkData.Copy: copies the fields the mesh reads, the chunk coordinates and the cubic grid; the later revision's `World*` back-pointer and `origin` are not part of this model.
- Graphics: GPU upload (VAO/VBO/EBO), `render`, the destructor, image loading, `loadCubeMap` and the rest of texture setup are I/O or OpenGL calls.
- ChunkMeshing.ChunkMesh.GenerateMesh: each level of the triple loop is a method of its own (`EmitSlice`, `EmitRow`, `EmitCell`, `EmitFace`) instead of one nested loop. The order of the `addFace` calls is the same.
- Textures.SwapRows: groups the three `memcpy` calls of one iteration of the flip loop.
- Textures.FlipImageVertically: requires non-negative width, height and channels. For a negative height the program's loop does nothing, and that case is not modelled.
- Textures.SizeWarning and Textures.SizeWarningIffNotPowerOfTwo: take natural sizes; negative widths and heights are not modelled.
- ChunkMeshing.QuadTrianglesCoverQuad: proves the triangles' corners, not that their geometric orientation agrees with the face normal (that needs a cross product over the corner table).
