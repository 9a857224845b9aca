# Pannellum multires tiles, viewer and helpers — a Dafny model

Pannellum is a panorama viewer. Its multires format cuts a full equirectangular
panorama into the six faces of a cube. Each face becomes a pyramid of levels of
square tiles: level `maxLevel` is the full face, and each coarser level halves the
edge. The viewer walks that pyramid as a quadtree and fetches only the tiles in
view at the zoom level.

This project models:

- the tile generator `utils/multires/generate.py`: validation, cube size and level
  count, the Hugin descriptor, the tile grids and file names, the fallback faces and
  `config.json`;
- the multires renderer in `src/js/libpannellum.js`:
  - the tile-path template;
  - the child rule of `testMultiresNode`;
  - the node cache with its two sort orders and its trim;
  - `checkZoom`, `isLoading`, `createCube`, the 4x4 matrix helpers and the view
    test of `checkSquareInView`;
- the standalone page `src/standalone/standalone.js`: parsing the address into a
  configuration, dispatching to a configuration file, and merging that file;
- the legacy viewer `src/js/pannellum.js`: mouse, wheel and key handlers, zoom
  bounds, the latitude clamp, the licence switch and `getURLParameter`;
- `src/js/deviceOrientation.js`: the stored event, the readings and the
  ten-try availability check;
- the parts of the bundled `src/js/Three.js` the viewer relies on:
  - colours;
  - `Matrix4.flattenToArray` and `Matrix3.transposeIntoArray`;
  - `isPowerOfTwo`;
  - `sortFacesByMaterial`;
  - the element-array sizing and filling of the WebGL renderer;
  - the program cache of `buildProgram`;
  - `Object3D.addChild` and `Scene.addChildRecurse`;
  - the topology of `THREE.Sphere`;
- the build script `utils/build/build.py`: merging, headers and the version
  insertion.

The two sides are tied together:

- `MultiresRenderer.RequestedTileWasWritten` and `TilePaths.RequestMatchesGeneratedFile`
  show that a request the viewer makes for a generated grid cell is the file the
  generator wrote.
- `TileChildren` compares the viewer's child rule with the generator's grids. Two
  mismatches in the code as written are listed under Findings.

Pure logic is written as functions and lemmas:

- the generator;
- the child rule, the orders and the string handling;
- the matrix and view helpers.

Code that updates state in place is written as classes whose methods carry
`modifies` clauses:

- the renderer's cache (`MultiresRenderer.Renderer`);
- the legacy viewer's globals (`LegacyViewer.Viewer`);
- the orientation handler;
- `THREE.Color`, `THREE.Matrix4` and `THREE.Matrix3` (which fill arrays);
- the program cache;
- `THREE.Object3D`.

Loops in the source are `while` loops with invariants:

- the generator's tile loops;
- the cache search;
- `sortFacesByMaterial`;
- the buffer loops;
- the sphere grid;
- the standalone item loop and its merge.

## Model

| member | source | states |
|---|---|---|
| MultiresGenerate.CubeSizeFor | utils/multires/generate.py:71-74 | an explicit cube size is kept; otherwise the size is the largest multiple of 8 not above width / pi |
| MultiresGenerate.Plan | utils/multires/generate.py:64-81 | a height of 0 fails with a division error, and so does a tile size of 0. A width other than twice the height fails. Otherwise the log fails with a domain error exactly when cubeSize * tileSize <= 0. Positive sizes plan the cube size, the tile size, ".png" or ".jpg", and a level count one more than the least k with cubeSize <= tileSize * 2^k. Two negative sizes pass validation with the level count of their magnitudes |
| MultiresGenerate.NegativeSizesPassValidation | utils/multires/generate.py:71-84 | a 3072x1536 panorama with cube size -1536 and tile size -512 passes validation with 3 levels and reaches os.makedirs |
| MultiresGenerate.DoublingsBound | utils/multires/generate.py:75 | the doubling count is the least k >= 0 with c <= t * 2^k |
| MultiresGenerate.HalvingsBound | utils/multires/generate.py:75 | for c <= t, the halving count h satisfies c * 2^h <= t < c * 2^(h+1), the negative side of ceil(log2(c / t)) |
| MultiresGenerate.ReachesMonotone | utils/multires/generate.py:75 | once c <= t * 2^j holds, it holds for every larger j |
| MultiresGenerate.CeilLog2Threshold | utils/multires/generate.py:75 | c <= t * 2^j holds exactly for j >= ceil(log2(c / t)) |
| MultiresGenerate.LevelsLeastCover | utils/multires/generate.py:75 | when the face is at least one tile wide, levels >= 1 and levels is the least L with cubeSize <= tileSize * 2^(L-1) |
| MultiresGenerate.LevelSizeHalves | utils/multires/generate.py:112-129 | the finest level's edge is cubeSize, and each coarser edge is the floor half of the next finer one |
| MultiresGenerate.HalvedSizeIsDiv | utils/multires/generate.py:129 | n floor halvings equal one floor division by 2^n |
| MultiresGenerate.GridCountBounds | utils/multires/generate.py:117 | ceil(size / tileSize) tiles cover the edge, and the last one starts inside it |
| MultiresGenerate.CropAxisShape | utils/multires/generate.py:122-125 | along one axis a box starts inside the face and is a whole tile wide unless it is the last |
| MultiresGenerate.CropBoxShape | utils/multires/generate.py:120-126 | every crop box is non-empty and inside the face; only the last row and column may be narrower than a tile |
| MultiresGenerate.BoxAxis | utils/multires/generate.py:122-125 | a pixel lies in column k's span exactly when k = p / tileSize |
| MultiresGenerate.PixelInExactlyOneBox | utils/multires/generate.py:117-126 | the boxes of a level partition the face: pixel (x, y) is in box (i, j) if and only if i = y / t and j = x / t, and that box is in the grid |
| MultiresGenerate.InRow | utils/multires/generate.py:121-128 | the j loop yields exactly the tiles of row i with column below its bound, each with its own box |
| MultiresGenerate.InGrid | utils/multires/generate.py:120-128 | the i and j loops yield exactly the tiles whose row and column are inside the ceil(size / t) grid |
| MultiresGenerate.PyramidSplit | utils/multires/generate.py:114-129 | one more level iteration adds exactly that level's grid |
| MultiresGenerate.InLevel | utils/multires/generate.py:114-129 | the grid built at iteration d holds exactly the generated-grid tiles of level levels - d |
| MultiresGenerate.PyramidSound | utils/multires/generate.py:114-129 | every tile of the first k level iterations has a level in (levels - k, levels] and lies in that level's grid |
| MultiresGenerate.PyramidComplete | utils/multires/generate.py:114-129 | every grid tile of a level in (levels - k, levels] is produced by the first k level iterations |
| MultiresGenerate.InPyramid | utils/multires/generate.py:114-129 | a face's tiles are exactly the grid tiles of levels (levels - k, levels] |
| MultiresGenerate.InAllTiles | utils/multires/generate.py:111-129 | a tile is written if and only if its face is one of the six, its level is in 1..levels, its cell is inside that level's grid, and its box is that cell's box |
| MultiresGenerate.FaceLettersDistinct | utils/multires/generate.py:88 | the six face letters f, b, u, d, l, r are pairwise different |
| MultiresGenerate.TileNameShape | utils/multires/generate.py:128 | a tile file name is level, '/', face letter, row, '_', column and extension |
| MultiresGenerate.TileNameInjective | utils/multires/generate.py:128 | equal file names have equal level, face, row and column |
| MultiresGenerate.TileNamesDistinct | utils/multires/generate.py:111-128 | no two tiles of one run share a file name, so no tile overwrites another |
| MultiresGenerate.LevelTiles | utils/multires/generate.py:117-128 | the row and column loops produce the ceil(size / t) grid row by row |
| MultiresGenerate.FaceTiles | utils/multires/generate.py:112-129 | the level loop produces the face's pyramid from the finest level down, halving the edge each time |
| MultiresGenerate.GenerateTiles | utils/multires/generate.py:111-129 | the face loop produces exactly the tile set described by InAllTiles |
| MultiresGenerate.FaceLineClean | utils/multires/generate.py:92-97 | a face line of the descriptor holds no newline when the input path holds none |
| MultiresGenerate.CanvasLineClean | utils/multires/generate.py:90 | the canvas line holds no newline |
| MultiresGenerate.DescriptorLinesClean | utils/multires/generate.py:89-99 | no descriptor line holds a newline |
| MultiresGenerate.DescriptorLayout | utils/multires/generate.py:89-100 | read back line by line, the descriptor is 10 lines: a cubeSize canvas with a 90-degree view, the optimiser line "m g1 i0 m2 p0.00784314", one image line per face f, b, u, d, l, r with pitch/yaw (0,0) (0,180) (-90,0) (90,0) (0,90) (0,-90), then "v" and "*" |
| MultiresGenerate.GenerateFallbacks | utils/multires/generate.py:133-138 | six 1024-pixel fallbacks, face f at fallback/letter(f) + extension |
| MultiresGenerate.ConfigFor | utils/multires/generate.py:146-156 | config.json carries the template "/%l/%s%y_%x", fallback path "/fallback/%s", the extension without its dot, the tile size, maxLevel = levels and cubeResolution = cubeSize |
| MultiresGenerate.MemberLineClean | utils/multires/generate.py:151-156 | a member line holds no newline when its key and value hold none |
| MultiresGenerate.ConfigLinesClean | utils/multires/generate.py:146-158 | the configuration is 12 lines, none holding a newline |
| MultiresGenerate.ConfigLinesSplit | utils/multires/generate.py:159 | splitting the joined configuration text at newlines gives back its lines |
| MultiresGenerate.ConfigLayout | utils/multires/generate.py:146-159 | read back, lines 4 and 6-9 are path, extension ("png"/"jpg"), tileResolution, maxLevel and cubeResolution of the run |
| MultiresGenerate.Run | utils/multires/generate.py:64-161 | a stopped plan returns its error and writes nothing, since every stop comes before makedirs. Two negative sizes get as far as the descriptor for a negative canvas. A positive plan yields the descriptor, exactly AllTiles, the six fallback faces "fallback/" + letter + extension at 1024 pixels, and the config text |
| Strings.NatToString | utils/multires/generate.py:90 | a decimal rendering is non-empty, all digits and free of leading zeros |
| Strings.ParseNatToString | utils/multires/generate.py:90 | reading the digits back gives the number |
| Strings.NatToStringInjective | utils/multires/generate.py:128 | different numbers are rendered differently |
| Strings.IntToString | utils/multires/generate.py:128 | an integer renders as its magnitude, with '-' in front when negative |
| Strings.IntToStringInjective | utils/multires/generate.py:128 | different integers are rendered differently |
| Strings.Split | src/standalone/standalone.js:9 | splitting yields at least one part |
| Strings.SplitJoin | utils/multires/generate.py:100 | splitting a '\n'.join of separator-free parts gives the parts back |
| Strings.SplitCount | src/standalone/standalone.js:9-11 | a string splits into two or more parts exactly when it holds the separator |
| Strings.ReplaceFirstAt | src/js/libpannellum.js:329 | String.replace with a string pattern replaces the first occurrence and leaves the text around it unchanged |
| Strings.ReplaceFirstAbsent | src/js/libpannellum.js:329 | replace leaves a text without the pattern unchanged |
| Strings.ReplaceAllAt | utils/build/build.py:76 | Python's str.replace replaces the first occurrence, then every later one in the rest |
| Strings.ReplaceAllAbsent | utils/build/build.py:76 | str.replace leaves a text without the pattern unchanged |
| TilePaths.ExpandSide | src/js/libpannellum.js:329 | replacing %s in the template puts the side letter after "/%l/" |
| TilePaths.ExpandLevel | src/js/libpannellum.js:329 | replacing %l puts the level between the slashes |
| TilePaths.ExpandColumn | src/js/libpannellum.js:329 | replacing %x puts the column after "%y_" |
| TilePaths.ExpandRow | src/js/libpannellum.js:329 | replacing %y puts the row before "_" |
| TilePaths.GeneratorTemplatePath | src/js/libpannellum.js:323-330 | with the generator's template a node path is "/" + level/letter row_column, the generator's tile name without its extension |
| TilePaths.RequestMatchesGeneratedFile | src/js/libpannellum.js:563 | the URL the viewer loads, path + "." + extension from config.json, is "/" + the generator's file name for that face, level, row and column |
| TilePaths.NodePathInjective | src/js/libpannellum.js:323-330 | with the generator's template, different tiles get different request paths |
| TileChildren.Ceil | src/js/libpannellum.js:369 | Math.ceil: the least integer at or above r |
| TileChildren.FMod | src/js/libpannellum.js:370-371 | JavaScript's % on non-negative numbers lies in [0, b) |
| TileChildren.FModOfNats | src/js/libpannellum.js:370 | on whole numbers JavaScript's % agrees with integer remainder |
| TileChildren.RatioBounds | src/js/libpannellum.js:369 | comparing k with s / t in the reals is comparing k * t with s |
| TileChildren.FloorOfRatio | src/js/libpannellum.js:369 | the floor of s / t in the reals is integer division |
| TileChildren.CeilOfRatio | src/js/libpannellum.js:369 | Math.ceil(s / t) equals the generator's grid count |
| TileChildren.ExactLevelSize | src/js/libpannellum.js:368 | where 2^k divides the cube size, the viewer's real division equals the generator's floor-halved edge |
| TileChildren.ViewerLevelSize | src/js/libpannellum.js:368 | the viewer's level edge times 2^(maxLevel - level) is the cube resolution, and it is never negative |
| TileChildren.AsWrittenParams | src/js/libpannellum.js:368-376 | numTiles is Math.ceil(size / tile) - 1, and the small test holds exactly when size % tile is non-zero and below half a tile |
| TileChildren.CorrectedParams | src/js/libpannellum.js:368-376 | on the generator's floor-halved edge, numTiles is the last grid column, and small holds exactly when the last tile is at most half a tile |
| TileChildren.LastTileIsRemainder | src/js/libpannellum.js:370-377 | the last tile is size mod t wide, or a whole tile when t divides size |
| TileChildren.Children | src/js/libpannellum.js:430-459 | (2x, 2y) is always a child. (2x+1, 2y) is one unless x is the last, small column. (2x, 2y+1) likewise for the last, small row. (2x+1, 2y+1) is one unless either applies. Every child halves back to (x, y) |
| TileChildren.ChildAxisSound | src/js/libpannellum.js:432-459 | along one axis, a child kept by the corrected rule lies inside the next level's grid |
| TileChildren.ChildAxisComplete | src/js/libpannellum.js:432-459 | along one axis, every cell of the doubled grid halves to a cell whose corrected rule keeps it |
| TileChildren.CorrectedChildrenExist | src/js/libpannellum.js:367-459 | every child the corrected rule creates for a generated tile is a generated tile of the next level |
| TileChildren.CorrectedChildrenCover | src/js/libpannellum.js:367-459 | where the halving is exact, every generated tile of level + 1 is a corrected child of the generated tile it halves to |
| TileChildren.AsWrittenMatchesCorrectedWhenExact | src/js/libpannellum.js:368-406 | where the viewer's division is exact, the code's child parameters equal the corrected ones unless the last tile is exactly half a tile |
| TileFindings.OutsideGridNotWritten | utils/multires/generate.py:117-128 | a cell outside a level's grid names no generated file |
| TileFindings.HalfTileColumnRequestedButNotWritten | src/js/libpannellum.js:406 | for 3072x1536 with --cubesize 1536, the code lets (1,0) at level 2 spawn (3,0) at level 3. No file is written for that cell |
| TileFindings.HalfTileColumnCorrected | src/js/libpannellum.js:406 | on the same input the corrected rule stops at column 2 |
| TileFindings.InexactHalvingRequestedButNotWritten | src/js/libpannellum.js:368 | for 25762x12881 (cube 8200, 6 levels), the root spawns (1,0) at level 2. That level is one tile |
| TileFindings.SingleSmallTileHasOneChild | src/js/libpannellum.js:406-459 | a level whose only tile is small gives that tile the single child (0,0) |
| TileFindings.InexactHalvingCorrected | src/js/libpannellum.js:368-377 | with the generator's 256-pixel level 1 the corrected rule sees one small tile |
| NodeOrder.CacheCompareIsKeyOrder | src/js/libpannellum.js:274-285 | multiresNodeSort is negative, zero or positive exactly as key (base level first, then higher timestamp) is less, equal or greater |
| NodeOrder.RenderCompareIsKeyOrder | src/js/libpannellum.js:287-295 | multiresNodeRenderSort orders by level, then by diff |
| NodeOrder.CacheCompareConsistent | src/js/libpannellum.js:274-285 | the cache comparator is total, sign-antisymmetric and transitive |
| NodeOrder.RenderCompareConsistent | src/js/libpannellum.js:287-295 | the render comparator is total, sign-antisymmetric and transitive |
| NodeOrder.InsertPermutes | src/js/libpannellum.js:235 | insertion adds exactly the inserted node |
| NodeOrder.InsertSorted | src/js/libpannellum.js:235 | inserting into a sorted list keeps it sorted |
| NodeOrder.SortPermutes | src/js/libpannellum.js:235 | sorting is a permutation |
| NodeOrder.SortSorted | src/js/libpannellum.js:235 | for a total order, sorting yields adjacent order |
| NodeOrder.SortedPairwise | src/js/libpannellum.js:249 | for a transitive order, adjacent order is order between any two positions |
| NodeOrder.CacheBeforeIsOrder | src/js/libpannellum.js:274-285 | "a may precede b" under multiresNodeSort is total and transitive |
| NodeOrder.RenderBeforeIsOrder | src/js/libpannellum.js:287-295 | the same for multiresNodeRenderSort |
| NodeOrder.CacheSortOrder | src/js/libpannellum.js:235 | the sorted cache is a permutation of the cache. Every base-level node comes before every other node. Within a rank, more recently used nodes come first |
| NodeOrder.RenderSortOrder | src/js/libpannellum.js:249 | the sorted current nodes are a permutation in which levels never decrease and, within a level, diff never decreases |
| MultiresRenderer.FindPath | src/js/libpannellum.js:349-357 | None exactly when no cached node has the path; otherwise the first position that has it |
| MultiresRenderer.LookupPath | src/js/libpannellum.js:349-357 | the search loop stops at the first cached node with the path, or at the end when there is none |
| MultiresRenderer.UpdateKeepsPaths | src/js/libpannellum.js:352-353 | refreshing a cached entry in place keeps the cache's paths and their distinctness |
| MultiresRenderer.AppendPaths | src/js/libpannellum.js:362 | appending a node adds exactly its path, and a new path keeps the paths distinct |
| MultiresRenderer.HitKeepsInvariant | src/js/libpannellum.js:349-357 | a hit stamps the entry with the counter and the new diff. Paths stay the same and the cache invariant holds with the counter one higher |
| MultiresRenderer.MissKeepsInvariant | src/js/libpannellum.js:358-363 | a miss appends the stamped node, adding exactly its path and keeping the invariant |
| MultiresRenderer.PushedSameTile | src/js/libpannellum.js:348-363 | with the generator's template, the node pushed to the current nodes is the visited tile (same side, level, column and row) even on a hit |
| MultiresRenderer.VisitExtends | src/js/libpannellum.js:354-362 | the pushed node is cached and, when tracked, addresses a generated tile |
| MultiresRenderer.ExtendsTrans | src/js/libpannellum.js:460-462 | the facts about current nodes accumulate over successive child tests |
| MultiresRenderer.RenderSortKeepsWalk | src/js/libpannellum.js:249 | the render sort keeps every walked node's facts and puts the list in render order |
| MultiresRenderer.InsertKeepsPaths | src/js/libpannellum.js:235 | inserting adds exactly the node's path and keeps paths distinct |
| MultiresRenderer.SortKeepsPaths | src/js/libpannellum.js:235 | sorting keeps the set of paths and their distinctness |
| MultiresRenderer.SortTrimKeepsInvariant | src/js/libpannellum.js:235-240 | sorting the cache, and cutting it to 200, keep the cache invariant |
| MultiresRenderer.TrimKeepsInvariant | src/js/libpannellum.js:239 | keeping the first 200 entries keeps the cache invariant |
| MultiresRenderer.Renderer.constructor | src/js/libpannellum.js:185-189 | init leaves level -1, empty current nodes and cache, and timestamp 0 |
| MultiresRenderer.Renderer.Visit | src/js/libpannellum.js:348-363 | a hit refreshes the first cached entry with the path and pushes it. A miss appends the node to both lists. The timestamp advances by one and the cache's paths gain the node's path |
| MultiresRenderer.VisitKeepsInvariant | src/js/libpannellum.js:348-363 | on values, the pushed node replaces its cached entry or is appended; either way the cache invariant holds with the counter one higher, the paths gain the node's path, and the current list still holds only template paths |
| MultiresRenderer.Renderer.CheckZoom | src/js/libpannellum.js:567-585 | the level is the first from 1 whose scaled edge covers the canvas, capped at maxLevel; nothing else changes |
| MultiresRenderer.Renderer.IsLoading | src/js/libpannellum.js:263-272 | true exactly with WebGL, multires, and some current node whose texture has not loaded |
| MultiresRenderer.Renderer.SortAndTrimCache | src/js/libpannellum.js:235-240 | the cache becomes its multiresNodeSort order, cut to 200 exactly when it holds more than 200 and more than currentNodes + 50 |
| MultiresRenderer.Renderer.TestNode | src/js/libpannellum.js:332-465 | under the corrected child rule, testing a node keeps the level and the cache invariant and never loses a cached path. It only appends to the current nodes, and only cached nodes; when tracked, those nodes address generated tiles. Drawn as (path, diff, tile), what it appends is exactly Walk(n): nothing for a node out of view; otherwise the node with its diff, then, while it is coarser than the zoom level, its children's walks in the order they are created |
| MultiresRenderer.Renderer.TestChildren | src/js/libpannellum.js:460-462 | under the corrected child rule, testing each child in turn keeps the same facts and appends exactly the walks of n's children, one after the other in creation order (WalkBelow) |
| MultiresRenderer.Renderer.TestChild | src/js/libpannellum.js:430-462 | testing child j, made at its cell one level finer, keeps the cache invariant, the cached paths and the tracked facts, and grows what n's children have appended from the walks of children 0 to j - 1 to those of children 0 to j |
| MultiresRenderer.ChildCellAddressed | src/js/libpannellum.js:430-459 | a child cell under the corrected rule has a natural column and row, and addresses a generated tile whenever its parent does |
| MultiresRenderer.Renderer.RenderFrame | src/js/libpannellum.js:214-249 | under the corrected child rule, after a frame the level is in 1..max(1, maxLevel) and every current node is cached. Current nodes run coarse to fine and, within a level, nearest the centre first. With the generator's template each addresses a generated tile. Drawn as (path, diff, tile), the current nodes are, as a multiset, the walks of the six base tiles f, b, u, d, l, r at the chosen level |
| MultiresRenderer.PushedShown | src/js/libpannellum.js:348-363 | the node the cache step pushes is drawn as the visited node, hit or miss |
| MultiresRenderer.WalkVisited | src/js/libpannellum.js:334-465 | for a node in view, the pushed node followed by its children's walks (while it is coarser than the zoom level) is drawn as Walk |
| MultiresRenderer.WalkChildrenStep | src/js/libpannellum.js:460-462 | after child j's walk is appended, the children walked so far are 0 to j |
| MultiresRenderer.ShowsAppend | src/js/libpannellum.js:354 | drawing a joined list joins the drawings |
| MultiresRenderer.ShowsInsert | src/js/libpannellum.js:249 | inserting a node adds exactly its drawing to the multiset of drawings |
| MultiresRenderer.ShowsSort | src/js/libpannellum.js:249 | the render sort keeps the multiset of drawings |
| MultiresRenderer.RequestedTileWasWritten | src/js/libpannellum.js:563 | a node addressing a generated cell requests "/" + the file name of a tile in the generated set, then '.' and the configured extension |
| ViewGeometry.CubeFace | src/js/libpannellum.js:477-485 | each face has 12 corner coordinates |
| ViewGeometry.CreateCube | src/js/libpannellum.js:477-485 | createCube returns 72 numbers |
| ViewGeometry.FaceVertices | src/js/libpannellum.js:245 | a root's slice has 12 numbers |
| ViewGeometry.FaceVerticesAreFace | src/js/libpannellum.js:242-246 | slice s of createCube is exactly face s's corners |
| ViewGeometry.FaceVerticesOnFace | src/js/libpannellum.js:477-485 | each face's four corners share its fixed coordinate (front z=-1, back z=1, up y=1, down y=-1, left x=-1, right x=1), and corners 0 and 2 are diagonally opposite |
| ViewGeometry.MakeMatrix4 | src/js/libpannellum.js:515-522 | the 3x3 rotation is in the upper left, with zeros beside and below and 1 in the corner |
| ViewGeometry.TransposeMatrix4 | src/js/libpannellum.js:524-531 | entry (i, j) of the result is entry (j, i) of the argument |
| ViewGeometry.TransposeInvolution | src/js/libpannellum.js:524-531 | transposing twice gives the matrix back |
| ViewGeometry.TransposePadded | src/js/libpannellum.js:227-231 | the uploaded matrix is the padded transpose of the rotation |
| ViewGeometry.InViewCode | src/js/libpannellum.js:607-625 | the x code is -1/1 exactly for winX < 0 / > 1, likewise y, and the z code is 1 exactly outside [0, 1] |
| ViewGeometry.SquareInView | src/js/libpannellum.js:627-639 | a square is out of view exactly when all four corners share a non-zero x or y code, or all have z code 1 |
| ViewGeometry.CulledIffAllBeyondOneEdge | src/js/libpannellum.js:607-639 | a tile is culled exactly when all four projected corners lie beyond one window edge or all lie outside the depth range |
| Standalone.ItemPiece | src/standalone/standalone.js:19-38 | None exactly when JSON.parse of a boolean value or decodeURIComponent of a string value throws. Otherwise the piece has the item's key, is Unknown exactly for keys the switch lacks, and holds text exactly for string keys |
| Standalone.ItemMember | src/standalone/standalone.js:19-38 | the loop body throws exactly when ItemPiece does, and otherwise yields the member text and the report for an unknown key |
| Standalone.JsonFromItems | src/standalone/standalone.js:17-43 | the loop builds "{" + members joined by ',' + "}" with one report per unknown key, or stops with the reports so far on a throw |
| Standalone.ItemsOutcomeWalked | src/standalone/standalone.js:39-43 | after the last item, with no trailing comma, closing the text with '}' gives the object of all pieces |
| Standalone.ParseURLParameters | src/standalone/standalone.js:8-43 | the whole address step equals UrlOutcome: no options without '?', otherwise the items after the first '?' |
| Standalone.WalkThrows | src/standalone/standalone.js:27-34 | an item whose call throws ends the walk with the reports made before it |
| Standalone.WalkStep | src/standalone/standalone.js:18-42 | an item whose call does not throw adds its piece, and its report if any |
| Standalone.JsonStep | src/standalone/standalone.js:21-41 | one more member, followed by a comma unless it was the last, keeps the text equal to the joined members |
| Standalone.StoppedPersists | src/standalone/standalone.js:18-42 | once a call throws, later items are never read |
| Standalone.NoOptionsExactly | src/standalone/standalone.js:9-15 | there are no options exactly when the address holds no '?' |
| Standalone.WalkPieces | src/standalone/standalone.js:18-42 | a finished walk keeps one piece per item, each the item's own. The walk stops exactly when some item's call throws |
| Standalone.MessagesForUnknown | src/standalone/standalone.js:36-37 | a report is made for exactly the unknown keys |
| Standalone.MessagesEmpty | src/standalone/standalone.js:36-37 | there are no reports exactly when every key is known |
| Standalone.MembersSplitBack | src/standalone/standalone.js:39-43 | when no member holds a comma, the object text splits back into the members |
| Standalone.ConfigOfLast | src/standalone/standalone.js:44 | the parsed object holds a key exactly when a known piece has it, and a repeated key takes its last value |
| Standalone.TourAsConfig | src/standalone/standalone.js:49-51 | a truthy tour is copied to config; every other key is kept |
| Standalone.Dispatch | src/standalone/standalone.js:52-94 | a truthy config leads to a fetch; otherwise the viewer starts with the configuration as it is |
| Standalone.StartHalts | src/standalone/standalone.js:8-44 | the page stops with a message exactly when there is no query, a call threw, or a key was unknown, and it says why. JSON.parse of the object text throws exactly when the object was built without reports but some member's value does not read as a JSON value |
| Standalone.BadNumberThrows | src/standalone/standalone.js:22-44 | a numeric option whose text is not a JSON value (hfov=abc, a bare hfov, hfov=) makes JSON.parse throw |
| Standalone.UrlConfigKeys | src/standalone/standalone.js:22-38 | every key the address sets is one the switch knows, and string keys hold strings |
| Standalone.JsonDispatches | src/standalone/standalone.js:44-52 | a query read without a throw or a report, whose member values all parse, dispatches the configuration its pieces build |
| Standalone.TourFetched | src/standalone/standalone.js:30-52 | when every member parses, a tour in the address is a string without quote, backslash or control characters, and the file is fetched unless its text is empty |
| Standalone.Start | src/standalone/standalone.js:44-52 | a page that goes on had a '?' in its address, and the configuration it goes on with never holds basePath |
| Standalone.BuiltObjectFacts | src/standalone/standalone.js:8-44 | a built object text means a '?' in the address, a walk over every item, and no basePath in the configuration |
| Standalone.LastIndexOf | src/standalone/standalone.js:67 | the last position of c, or -1 when c is absent |
| Standalone.BasePathShape | src/standalone/standalone.js:67 | basePath is a prefix of the address that is empty exactly without '/', ends in '/' otherwise, and has no '/' after it |
| Standalone.BasePath | src/standalone/standalone.js:67 | the directory part of the configuration address is a prefix of it, and ends in '/' unless empty |
| Standalone.MergeResponse | src/standalone/standalone.js:70-75 | the merged keys are the union. Address values win; file values fill only the keys the address lacks |
| Standalone.ConfigLoaded | src/standalone/standalone.js:64-75 | the same, with basePath added as the configuration file's directory unless the address set it |
| LegacyViewer.Clamp | src/js/pannellum.js:258 | the result is in [lo, hi], equal to x inside and to the violated bound outside |
| LegacyViewer.ClampLatIdempotent | src/js/pannellum.js:256-258 | clamping twice is clamping once, and it is the identity exactly on [-85, 85] |
| LegacyViewer.ZoomInFov | src/js/pannellum.js:361-373 | zooming in always ends in [40, 100] |
| LegacyViewer.ZoomOutFov | src/js/pannellum.js:375-387 | zooming out always ends in [40, 100] |
| LegacyViewer.ZoomRoundTrip | src/js/pannellum.js:361-387 | zooming out undoes zooming in on [45, 100], and the other way round on [40, 95] |
| LegacyViewer.ZoomInDirection | src/js/pannellum.js:361-387 | zooming in never widens exactly from fov >= 40, and zooming out never narrows exactly from fov <= 100 |
| LegacyViewer.WheelFov | src/js/pannellum.js:187-206 | the wheel always ends in [35, 105]. An in-range fov moves by the event's change when that stays in range, and stops at 35 or 105 when the change overshoots. An out-of-range fov is only clamped |
| LegacyViewer.WheelNoDelta | src/js/pannellum.js:187-199 | an event with no delta leaves an in-range fov alone |
| LegacyViewer.KeysDisjoint | src/js/pannellum.js:219-229 | no key both zooms in and zooms out, and Escape does neither |
| LegacyViewer.Viewer.constructor | src/js/pannellum.js:54-71 | initial globals: fov 70, lat = lon = 0, not interacting, not full-window |
| LegacyViewer.Viewer.Render | src/js/pannellum.js:256-258 | render clamps lat to [-85, 85] |
| LegacyViewer.Viewer.MouseDown | src/js/pannellum.js:160-172 | a drag starts, remembering the mouse position, lon and lat |
| LegacyViewer.Viewer.MouseMove | src/js/pannellum.js:174-180 | while dragging, lon and lat follow the mouse at 0.1 degree per pixel from the drag start, and lat is then clamped; otherwise nothing changes |
| LegacyViewer.Viewer.MouseUp | src/js/pannellum.js:182-185 | the drag ends |
| LegacyViewer.Viewer.MouseWheel | src/js/pannellum.js:187-209 | fov becomes WheelFov, and the render clamps lat |
| LegacyViewer.Viewer.ZoomIn | src/js/pannellum.js:361-373 | fov becomes ZoomInFov; lat is clamped only when a render happened (fov >= 40) |
| LegacyViewer.Viewer.ZoomOut | src/js/pannellum.js:375-387 | fov becomes ZoomOutFov; lat is clamped only when fov <= 100 |
| LegacyViewer.Viewer.KeyPress | src/js/pannellum.js:211-235 | zoom-out keys zoom out and zoom-in keys zoom in; other keys leave fov alone. Escape toggles full window exactly in full-window or popout mode |
| LegacyViewer.Viewer.FullScreenChange | src/js/pannellum.js:334-342 | full-window mode follows the browser's full-screen state |
| LegacyViewer.LicenseType | src/js/pannellum.js:38-47 | codes 0..5 give the six Creative Commons "by" licences; any other value gives none |
| LegacyViewer.LicenseTypeInjective | src/js/pannellum.js:40-47 | different codes give different licences |
| LegacyViewer.TakeWhile | src/js/pannellum.js:40 | the longest prefix whose characters satisfy p |
| LegacyViewer.TrimStart | src/js/pannellum.js:40 | parseInt's skip of leading white space removes exactly the leading white-space characters |
| LegacyViewer.ParseInt | src/js/pannellum.js:40 | a text without a digit is NaN, and a negative result needs a '-' in the text |
| LegacyViewer.ParseIntNatToString | src/js/pannellum.js:40 | parseInt reads back a decimal rendering |
| LegacyViewer.LicenseFromParameter | src/js/pannellum.js:38-47 | a license parameter written as digits 0..5 selects that code's licence |
| LegacyViewer.FindParam | src/js/pannellum.js:291-301 | the leftmost `?name=` or `&name=` at or after from, or none |
| LegacyViewer.GetURLParameter | src/js/pannellum.js:291-301 | "" when no match exists, and the value never contains '&' or '#' |
| LegacyViewer.GetURLParameterRoundTrip | src/js/pannellum.js:291-301 | a parameter written into an address without '?' or '&' is read back unchanged |
| DeviceOrientation.CheckStep | src/js/deviceOrientation.js:114-128 | an available check reports true and keeps the count. Otherwise the count rises by one and false is reported exactly when it reaches 10 |
| DeviceOrientation.Defaulted | src/js/deviceOrientation.js:61-63 | `x ? x : 0`: a number is kept, while null, undefined and 0 give 0 |
| DeviceOrientation.DeviceOrientationHandler.constructor | src/js/deviceOrientation.js:41-43 | no event, no failed check, interval running |
| DeviceOrientation.DeviceOrientationHandler.GetRaw | src/js/deviceOrientation.js:50-52 | returns the stored event |
| DeviceOrientation.DeviceOrientationHandler.UpdateOrientation | src/js/deviceOrientation.js:106-108 | the event replaces the stored one |
| DeviceOrientation.DeviceOrientationHandler.InputAngles | src/js/deviceOrientation.js:97-99 | beta, gamma and alpha are defaulted to 0. Before any event, reading them throws |
| DeviceOrientation.DeviceOrientationHandler.CheckAvailability | src/js/deviceOrientation.js:114-128 | the count and report follow CheckStep, and the interval stops exactly on a report |
| DeviceOrientation.Reports | src/js/deviceOrientation.js:114-128 | one report per check |
| DeviceOrientation.ReportAt | src/js/deviceOrientation.js:114-128 | report k is CheckStep applied to the failures before it |
| DeviceOrientation.ReportMeaning | src/js/deviceOrientation.js:114-128 | check k reports true exactly when data is available, and false exactly on the tenth failure |
| DeviceOrientation.TenthFailureOnce | src/js/deviceOrientation.js:121-126 | once the failure count has reached 10, no later failed check brings it to 10 again |
| DeviceOrientation.FalseReportedOnce | src/js/deviceOrientation.js:121-126 | false is reported at most once, however long the checks go on |
| Build.ConcatAppend | utils/build/build.py:24-29 | joining two file lists is joining their joins |
| Build.Merge | utils/build/build.py:24-29 | merge is the files' contents in order; one file gives its contents |
| Build.AddHeaderHTML | utils/build/build.py:75-78 | the page starts with the DOCTYPE and version header |
| Build.AddHeaderCSS | utils/build/build.py:80-82 | the header comes first, then the unchanged text |
| Build.AddHeaderJS | utils/build/build.py:84-86 | the header comes first, then the unchanged text |
| Build.DoctypeReplaced | utils/build/build.py:75-78 | a page starting with its DOCTYPE gets the header's instead, not a second one |
| Build.HtmlWithoutDoctype | utils/build/build.py:75-78 | a page without a DOCTYPE keeps every character after the header |
| Build.VersionAfterLink | utils/build/build.py:105 | with one About link, the version follows it and nothing else changes |
| Build.OutputNames | utils/build/build.py:92-94 | three distinct output names, each extending the base name |
| Build.Outputs | utils/build/build.py:142-144 | each output has its name and its header, and the CSS and JS keep their bodies unchanged |
| ThreeColor.Channel | src/js/Three.js:207-209 | a channel is a byte |
| ThreeColor.Low24 | src/js/Three.js:188 | `(~~hex) & 0xffffff` is the value mod 2^24 and is the identity on 24-bit colours |
| ThreeColor.ChannelsRecompose | src/js/Three.js:205-211 | red * 65536 + green * 256 + blue gives the colour back |
| ThreeColor.ChannelsDetermineColor | src/js/Three.js:205-211 | equal channels mean equal colours |
| ThreeColor.StyleStringReadsBack | src/js/Three.js:213-217 | "rgb(R,G,B)" splits back into the three channels' digits |
| ThreeColor.StyleStringDeterminesColor | src/js/Three.js:213-217 | a colour's style string determines it |
| ThreeColor.Color.constructor | src/js/Three.js:41-49 | autoUpdate is set, hex is Low24 of the argument, and the channels and style string are consistent |
| ThreeColor.Color.SetHex | src/js/Three.js:186-197 | hex becomes Low24. With autoUpdate the channels and string are refreshed; otherwise they are unchanged |
| ThreeColor.Color.UpdateRGB | src/js/Three.js:205-211 | r, g and b are bytes 2, 1 and 0 of hex over 255, each in [0, 1] |
| ThreeColor.Color.UpdateStyleString | src/js/Three.js:213-217 | the style string holds each channel scaled to 0..255 and truncated |
| ThreeMatrix.Matrix4.Flattened | src/js/Three.js:1555-1564 | 16 entries, column by column |
| ThreeMatrix.Matrix4.FlattenToArray | src/js/Three.js:1555-1564 | the first 16 slots receive the matrix in column-major order; later slots are untouched; the same array is returned |
| ThreeMatrix.Matrix3.TransposeIntoArray | src/js/Three.js:1208-1224 | read column-major, r holds m's entry (j, i) at (i, j), and slots from 9 on are untouched |
| ThreeMatrix.TransposeTwice | src/js/Three.js:1208-1224 | two transposes give the original nine entries |
| ThreeMatrix.ToUint32 | src/js/Three.js:11833 | ToUint32 is below 2^32 |
| ThreeMatrix.BitAndPredecessor | src/js/Three.js:11833 | for v >= 1, v & (v - 1) is 0 exactly for powers of two |
| ThreeMatrix.IsPowerOfTwo | src/js/Three.js:11831-11835 | for any number, isPowerOfTwo holds exactly when its low 32 bits are 0 or a power of two |
| ThreeMatrix.PowersOfTwoPass | src/js/Three.js:11831-11835 | every 32-bit power of two passes |
| ThreePrograms.Chunks | src/js/Three.js:11197-11217 | one chunk for a shader id, or two for the sources, then two per parameter |
| ThreePrograms.CodeDeterminesChunks | src/js/Three.js:11219 | when no chunk holds a comma, the code string gives the chunks back |
| ThreePrograms.FindCode | src/js/Three.js:11223-11233 | None exactly when no entry has the code; otherwise the first entry that has it |
| ThreePrograms.ProgramCache.constructor | src/js/Three.js:6979 | the cache starts empty |
| ThreePrograms.ProgramCache.BuildProgram | src/js/Three.js:11194-11386 | a cached code returns its program and changes nothing. Otherwise the new program is appended under the code. Either way the code maps to the returned program, and distinct codes stay distinct |
| ThreeGroups.GroupNameInjective | src/js/Three.js:11048 | different (hash, counter) pairs give different group names |
| ThreeGroups.OtherHashGrows | src/js/Three.js:11035-11074 | a face of one hash leaves the groups of every other hash valid |
| ThreeGroups.NewHashStep | src/js/Three.js:11042-11054 | the first face of a hash opens its group 0 |
| ThreeGroups.OpenStep | src/js/Three.js:11058-11069 | a face that would push the last group past 65535 vertices opens the next group |
| ThreeGroups.PushStep | src/js/Three.js:11071-11072 | a face that fits joins the last group |
| ThreeGroups.StepKeepsGrouped | src/js/Three.js:11035-11074 | replacing one hash's groups by a valid next state keeps the whole grouping valid |
| ThreeGroups.Placed | src/js/Three.js:11042-11072 | a hash always has at least one group after a face is placed |
| ThreeGroups.PlacedStep | src/js/Three.js:11042-11072 | placing face n keeps its hash's groups valid for the first n + 1 faces |
| ThreeGroups.GroupedStep | src/js/Three.js:11035-11074 | one face placed turns the grouping of n faces into that of n + 1 |
| ThreeGroups.PlaceFace | src/js/Three.js:11042-11072 | the loop body yields Placed and the counter of the last group |
| ThreeGroups.AddFace | src/js/Three.js:11035-11074 | one iteration keeps the grouping and the counters valid |
| ThreeGroups.CountersStep | src/js/Three.js:11060 | the updated counter is the index of the hash's last group |
| ThreeGroups.SortFacesByMaterial | src/js/Three.js:11001-11076 | each hash's groups, read in counter order, hold exactly its faces in increasing order. Each group is non-empty, carries its first face's materials and holds at most 65535 vertices. A new group opens only when the previous one would overflow |
| ThreeBuffers.Face3Count | src/js/Three.js:7498-7517 | at most one triangle per listed face |
| ThreeBuffers.CountGroup | src/js/Three.js:7498-7517 | ntris counts the Face3 faces; nvertices = nlines = 3 * ntris |
| ThreeBuffers.FaceArraySize | src/js/Three.js:7572 | at least three slots per triangle, exactly that without edge faces |
| ThreeBuffers.InitFaceArray | src/js/Three.js:7572 | a fresh zero-filled array of that size |
| ThreeBuffers.FillFaceArray | src/js/Three.js:8164-8185 | with dirtyElements, slot k of the first 3 * ntris gets k mod 65536 and the other slots keep their values; without it nothing changes |
| ThreeBuffers.TrianglesWithinVertices | src/js/Three.js:11056 | three indices per triangle never exceed the group's vertex total |
| ThreeBuffers.GroupIndicesExact | src/js/Three.js:8164-8168 | for a group that sortFacesByMaterial built, every index fits 16 bits, so the truncation never changes a value |
| ThreeScene.Object3D.constructor | src/js/Three.js:1980-1983 | no parent, no children, and an empty object list |
| ThreeScene.Object3D.AddChild | src/js/Three.js:2056-2087 | a present child changes nothing. A child with a parent throws with no change. Otherwise the child is appended with this as parent, and the topmost scene lists its new subtree |
| ThreeScene.Object3D.SceneAddChild | src/js/Three.js:5018-5023 | Scene.addChild throws exactly for a new child that has a parent, and then changes nothing. Otherwise the scene lists the child's subtree exactly once, and a new child gets the scene as parent. A topmost ancestor above the scene that is a Scene lists the new subtree as well; any other topmost ancestor keeps its lists |
| ThreeScene.Object3D.AddChildRecurse | src/js/Three.js:5025-5060 | the subtree's non-camera, not-yet-listed objects are appended in pre-order to objects and __objectsAdded |
| ThreeScene.Object3D.AddChildrenRecurse | src/js/Three.js:5054-5058 | the same for each child's subtree in turn |
| ThreeScene.AddedFresh | src/js/Three.js:5043-5050 | what the walk appends is unlisted, not a camera, and from the walk |
| ThreeScene.AddedKeepsDistinct | src/js/Three.js:5043-5050 | a list without repeats keeps none after the walk |
| ThreeScene.AddedCovers | src/js/Three.js:5043-5058 | afterwards every non-camera object of the walk is listed |
| ThreeScene.AddedNothing | src/js/Three.js:5045 | a walk over listed objects and cameras adds nothing |
| ThreeScene.WalkTwice | src/js/Three.js:5018-5023 | walking the same objects again adds nothing, so the second walk in Scene.addChild is idle |
| ThreeSphere.FacesBeforeClosed | src/js/Three.js:12153-12209 | after the bands up to j there are (2j - 3) * iHor triangles |
| ThreeSphere.FacesTotal | src/js/Three.js:12153-12209 | 2 * iHor * (iVer - 1) triangles in all |
| ThreeSphere.GridOrder | src/js/Three.js:12123-12149 | grid indices are in range, grow from row to row, and differ within an inner row |
| ThreeSphere.BandFacesProper | src/js/Three.js:12159-12205 | both triangles of a band cell use three different existing vertices |
| ThreeSphere.BuildGrid | src/js/Three.js:12123-12149 | iVer + 1 rows of iHor indices: the poles repeat, and there are (iVer - 1) * iHor + 2 vertices |
| ThreeSphere.Sphere | src/js/Three.js:12111-12217 | with iHor = max(3, w or 8) and iVer = max(2, h or 6): (iVer - 1) * iHor + 2 vertices and 2 * iHor * (iVer - 1) triangles, each proper |

## Left out

- Floating point: pannellum's real arithmetic is modelled on exact reals, and the trigonometry is left out. This covers makePersp, rotateMatrix, rotatePersp, applyRotPerspToVec, the angle diff of testMultiresNode, the tile vertex interpolation, GetYaw/GetPitch, the legacy camera target, and Sphere's positions, normals and UVs. Visibility and diff reach the renderer as parameters, and checkInView is stated from window coordinates.
- WebGL, the DOM, XHR, image decoding, timers, requestAnimationFrame and the fullscreen API are left out. This covers texture upload, processNextTile, multiresDraw, anError's markup, document.title, toggleFullWindow, fullScreenError and renderInit.
- decodeURI, decodeURIComponent, the JSON.parse of the autoLoad and ignoreGPanoXMP values, and the test whether a numeric option's text is a JSON value (`isValue`) are parameters of the standalone model. Numeric values are kept as their text.
- Standalone.Start: the final JSON.parse is modelled member by member. A numeric text that is not one JSON value on its own, a string value holding a quote, a backslash or a control character, and an unknown key all make it throw. Text that smuggles extra members past a comma (`hfov=1,"yaw":5`) or a string value with a valid backslash escape would in fact parse; those are modelled as throwing.
- Standalone: the report for a non-200 response is not modelled; the response body's parse is taken as given.
- Standalone.Truthy treats every non-string value as truthy, so a tour or config given as 0, false or null is not modelled.
- LegacyViewer.GetURLParameter requires a name without regular-expression metacharacters. unescape is taken as already applied, and the white space parseInt skips is approximated by IsSpace.
- LegacyViewer.ParseIntNatToString: parseInt's precision limit for very long digit strings is not modelled.
- MultiresGenerate.Plan: the level count uses exact integer arithmetic, while the script takes math.log(x, 2) in floating point. For an exact power-of-two ratio that can overshoot: with cube size 2^29 and tile size 1 the log is 29.000000000000004, so the script gets 31 levels where the model has 30. The same happens for 2^31, 2^39 and some larger powers; smaller powers of two come out exact.
- MultiresGenerate.Run: with two negative sizes the script goes on past os.makedirs and hands a negative canvas to nona. What nona and PIL then do is not modelled; Run ends with the descriptor it would write.
- generate.py: the command line, image opening, the nona call, resizing, cropping pixels and file writes are left out. A tile is its face, level, cell and box; FileName gives its path. float(width) / height is compared exactly, which matches Python below 2^52. floor(width / pi) is a parameter.
- build.py: the compressors, git, the VERSION file, the svg inlining and the file writes are left out.
- MultiresRenderer: nodes are values, so aliasing between currentNodes and nodeCache (the same object in both) is not modelled. Array.prototype.sort is modelled as a stable insertion sort with the source's comparator. The walk uses CorrectedParams; AsWrittenParams is compared with it in TileChildren and TileFindings. Walk states what each appended node is drawn as: its path, its diff and, with the generator's template, its tile. The timestamps, textures and vertices of those nodes are not part of it.
- ThreeMatrix.Matrix3.TransposeIntoArray requires r != m. The renderer never passes the same array; with aliasing the result would differ.
- ThreeGroups: geometryGroups is held per material hash as a list in counter order rather than as one object keyed by "hash_counter". GroupNameInjective shows the two address the same groups.
- ThreeColor.Color.SetHex works on integers; fractional arguments are not modelled.
- ThreePrograms.ProgramCache.BuildProgram: shader compilation, attribute and uniform lookup and the program code's text beyond the chunk list are left out. The new program id is a parameter.
- ThreeScene: Object3D's other fields (matrices, position, rotation) and removeChild, which is commented out in the source, are left out. Cycles in the object graph are excluded by the AddChild requires.
- ViewGeometry.FaceVerticesOnFace is stated on CubeFace; FaceVerticesAreFace connects it to createCube's slices.
- DeviceOrientation: the compass and pitch formulas (trigonometry) and the window event listener registration are left out.
- ThreeSphere.Sphere: segment counts are integers; fractional and NaN counts are not modelled (`Math.max(3, segmentsWidth || 8)` in the source lets them through).

## Findings

| source | as written | input that shows it | evidently intended | confidence | as-written member | corrected member |
|---|---|---|---|---|---|---|
| src/js/libpannellum.js:406 | `doubleTileSize < tileResolution` keeps the odd child of a last column or row that is exactly half a tile | 3072x1536 panorama, `--cubesize 1536`, 512-pixel tiles: level 2 is 768 pixels, so its last column is 256. Tile (1,0) at level 2 spawns (3,0) at level 3, but the generator writes only columns 0-2 there | `<=`: a last tile of at most half a tile has one child per axis | not executed | TileFindings.HalfTileColumnRequestedButNotWritten | TileFindings.HalfTileColumnCorrected |
| src/js/libpannellum.js:368 | the level edge is cubeResolution / 2^(maxLevel - level) in floating point, while generate.py:129 halves with floor | 25762x12881 panorama (cube 8200, 6 levels, 512-pixel tiles): the viewer's level 1 is 256.25, so (1,0) at level 2 is requested. The generator's level 2 is 512 pixels, one tile | the generator's floor-halved edges | not executed | TileFindings.InexactHalvingRequestedButNotWritten | TileFindings.InexactHalvingCorrected |
