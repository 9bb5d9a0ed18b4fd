# ResourceRun world logic in Dafny

This project models two parts of the ResourceRun world.

The **world fade** (`WorldFade.cs`) erodes the ground tilemap one ring at a time. A layer:

1. computes the tight bounding box of the ground;
2. lists the box's edge positions;
3. clears those positions in random order, and for each one requests that the object on it be destroyed and re-tiles its four neighbours with the auto-tiling decision tree;
4. moves the four world-border colliders one cell inward.

The **object generation step** scatters a season's object groups over the world grid. After claiming a square around the world centre as the spawn area, the step takes every group that has a variant, in order. For each such group it scans the cells away from the world's edges (x outer, y inner). At each cell it skips if the cell is blocked, then draws a number in [0, 1000] and places an object only when the draw does not exceed the group's frequency. There are two versions, and both are modelled:

- The newer step (`Assets/Scripts/World/Generation/ObjectGenerationStep.cs`) gives each group a footprint, a list of offsets. An origin is blocked when any cell of its footprint is claimed. A placed object claims its whole footprint and registers every covered cell with the world generator's positional registry.
- The older step (`Assets/Scripts/World/ObjectGenerationStep.cs`) looks at the origin cell only and claims only that cell. Before scanning, it registers one parent object per group.

The Dafny files:

- `grid.dfy` (module `Grid`) has:
  - grid cells;
  - C#'s truncating `/ 2`;
  - column, row and rectangle scans in loop order, with their membership, length, order and prefix lemmas.
- `world_fade.dfy` (module `WorldFade`) has:
  - the tilemap as a map from cells to tiles, and the tile decision tree;
  - the edge enumeration, with what it lists;
  - the per-position removal pass, and the `Cleared` invariant of a layer;
  - the border colliders as a class whose offset and size change in place;
  - the fade component as a class whose `ground` field a layer updates.
- `object_generation.dfy` (module `ObjectGeneration`) models the newer step:
  - specification functions: `Placed` for one group's scan and `Pass` for a whole pass;
  - what they guarantee: no cell is claimed twice, nothing lands in the spawn area, and every object passed its draw;
  - the step as a class with `occupiedPositions`, a log of spawned objects and a log of registry calls, each method proved against those functions.
- `legacy_object_generation.dfy` (module `LegacyObjectGeneration`) models the older step the same way. It logs parent-object registrations instead of registry calls.

The random number generator is a parameter:

- In the fade, the position picked from the remaining list is an arbitrary one (`:|`).
- In generation, `rolls(gi, c)` gives the draw and the variant index for group `gi` at cell `c`. A group's scan visits each cell once, so any sequence of random results is described by some such function. `RollsInRange` says that every draw is in [0, 1000] and every index names an existing variant.

Three behaviours of the code are worth knowing when reading the model:

- **The edge list contains duplicates.** The code lists the two right-hand corners twice: its rows start at `MinX + 1` but run up to `MaxX - 1` inclusive, which is the column already listed. `EdgeListRightCornersTwice` proves this. For a 4 x 4 block, the list has 14 entries covering 12 distinct cells. The second occurrence of a corner is processed again after the first has already been cleared.
- **Only 9 of the 12 tile variants are reachable.** The neighbours are checked in the order right, top, left, bottom, and the first empty one decides the family. A cell with an empty right neighbour always takes the right-hand branch, so the top-alone and bottom-alone tiles, which both need an empty right neighbour, are never chosen. The left-alone tile needs an empty top neighbour, and the top branch handles that case first, so it is never chosen either. `RecomputeTile` states the order of the four families and the three unreachable tiles in its contract.
- **Both versions of the generation step are modelled,** each as its own module.

## Model

| member | source | states |
|---|---|---|
| Grid.HalfTowardZero | Assets/Scripts/World/Generation/ObjectGenerationStep.cs:34-35 | C# integer halving truncates toward zero: for n >= 0 the remainder n - 2r is 0 or 1, for negative n it is 0 or -1 |
| Grid.RectCells | Assets/Scripts/World/Generation/ObjectGenerationStep.cs:47-48 | the nested x/y loops visit exactly the cells of the half-open rectangle |
| Grid.RectCount | Assets/Scripts/World/Generation/ObjectGenerationStep.cs:47-48 | the nested loops visit each cell of the rectangle exactly once and nothing else |
| Grid.RectLength | Assets/Scripts/World/Generation/ObjectGenerationStep.cs:47-48 | the nested loops make width times height visits, and none when a range is empty |
| Grid.RectOrdered | Assets/Scripts/World/Generation/ObjectGenerationStep.cs:47-48 | the visits come in strictly increasing (x, y) order, x outer and y inner |
| Grid.RectPrefix | Assets/Scripts/World/ObjectGenerationStep.cs:50-52 | after fewer outer iterations the cells visited so far are a prefix of the whole scan |
| WorldFade.RecomputeTile | Assets/Scripts/World/WorldFade.cs:67-166 | writes nothing exactly when the cell is empty or all four neighbours hold ground; the chosen tile shows the empty sides it is drawn for; the first empty neighbour in the order right, top, left, bottom selects the family, and the tile within each family is fixed by the perpendicular neighbours; the top-, left- and bottom-alone tiles are never chosen |
| WorldFade.RetiledFrame | Assets/Scripts/World/WorldFade.cs:76-79 | re-tiling a cell changes no cell's emptiness and no tile but that cell's |
| WorldFade.RetiledEnclosed | Assets/Scripts/World/WorldFade.cs:66-166 | an empty cell, or one whose four neighbours hold ground, is left unchanged |
| WorldFade.RecomputeTileReadsEmptiness | Assets/Scripts/World/WorldFade.cs:71-74 | the decision depends only on which cells are empty, not on which tiles they hold |
| WorldFade.RetiledSettles | Assets/Scripts/World/WorldFade.cs:67-166 | after re-tiling, a non-empty cell with an empty neighbour holds the tile its neighbourhood calls for |
| WorldFade.RetiledKeepsSettled | Assets/Scripts/World/WorldFade.cs:76-79 | re-tiling one cell leaves every other settled cell settled |
| WorldFade.ClearThenRetile | Assets/Scripts/World/WorldFade.cs:54-61 | clearing a position and then re-tiling its right, left, top and bottom neighbours empties it, settles each remaining neighbour and keeps every other tile |
| WorldFade.PassExtendsCleared | Assets/Scripts/World/WorldFade.cs:47-62 | one more pass of the removal loop extends the layer invariant by the picked position |
| WorldFade.Remove | Assets/Scripts/World/WorldFade.cs:52 | List.Remove drops the first occurrence, shortening the list by one and keeping the rest in order; an absent value leaves the list unchanged |
| WorldFade.EdgeListCells | Assets/Scripts/World/WorldFade.cs:196-222 | the listed positions are exactly the perimeter cells of the box |
| WorldFade.EdgeCount | Assets/Scripts/World/WorldFade.cs:196-222 | each cell is listed once for every column and every row of the enumeration it lies in |
| WorldFade.EdgeListLength | Assets/Scripts/World/WorldFade.cs:196-222 | the list has 2 * height + 2 * (width - 1) entries, and none for a box of zero size |
| WorldFade.EdgeListRightCornersTwice | Assets/Scripts/World/WorldFade.cs:208-219 | in a box at least 2 x 2, the two right-hand corners are listed twice and every other perimeter cell once |
| WorldFade.EdgeListEmptyIffGroundEmpty | Assets/Scripts/World/WorldFade.cs:38-45 | the edge list of the tight bounds is empty exactly when the ground is empty, which is the fade's stop condition |
| WorldFade.LayerPeelsRing | Assets/Scripts/World/WorldFade.cs:36-65 | every tile a layer leaves lies strictly inside the old box |
| WorldFade.LayerShrinks | Assets/Scripts/World/WorldFade.cs:36-65 | a layer over non-empty ground removes at least one tile |
| WorldFade.TightBoundsExist | Assets/Scripts/World/WorldFade.cs:183-194 | every tilemap has tight bounds, the box that CompressBounds produces |
| WorldFade.BordersAfterLayers | Assets/Scripts/World/WorldFade.cs:168-181 | after n layers the top and bottom borders have moved in by n and lost 2n of their width, and the left and right borders likewise for height; no other component changes |
| WorldFade.GetEdgePositions | Assets/Scripts/World/WorldFade.cs:196-222 | the method's list is the edge enumeration: the columns at MinX and MaxX - 1, then the rows at MinY and MaxY - 1 starting at MinX + 1 |
| WorldFade.CountVertical | Assets/Scripts/World/WorldFade.cs:200-206 | appends the column (x, MinY) ... (x, MaxY - 1) in order |
| WorldFade.CountHorizontal | Assets/Scripts/World/WorldFade.cs:208-214 | appends the row (MinX + 1, y) ... (MaxX - 1, y) in order |
| WorldFade.BorderCollider.ShrinkBorder | Assets/Scripts/World/WorldFade.cs:170-175 | the offset moves by the given offsets and the size loses the given reductions |
| WorldFade.WorldGenerator.DestroyPositionalObject | Assets/Scripts/World/WorldFade.cs:56 | the request for the cell is appended to the destroy log |
| WorldFade.WorldFade.GetWorldBoundaries | Assets/Scripts/World/WorldFade.cs:183-194 | the returned box is the tight bounds of the ground, maximum coordinates exclusive |
| WorldFade.WorldFade.ShrinkWorldBorders | Assets/Scripts/World/WorldFade.cs:168-181 | the top border moves down, the bottom one up, the right one left and the left one right, by one each; each loses 2 of its length |
| WorldFade.WorldFade.ClearPosition | Assets/Scripts/World/WorldFade.cs:54-61 | the picked position is emptied and its destruction requested; its remaining neighbours are settled and every other tile is kept |
| WorldFade.WorldFade.ClearRandomEdge | Assets/Scripts/World/WorldFade.cs:49-61 | one pass removes one picked position from the remaining list, clears it and logs its destruction, keeping the loop invariant |
| WorldFade.WorldFade.ClearEdges | Assets/Scripts/World/WorldFade.cs:47-62 | after the loop, every listed position is cleared with its neighbours settled, and each is destroyed exactly as often as it is listed |
| WorldFade.WorldFade.FadeLayer | Assets/Scripts/World/WorldFade.cs:36-65 | one layer stops, changing nothing, exactly when the ground is empty; otherwise it clears the ring of the tight bounds, destroys each listed position as often as it is listed and shrinks each border once |
| ObjectGeneration.FootprintCells | Assets/Scripts/World/Generation/ObjectGenerationStep.cs:52-53 | the footprint is the origin moved by each offset, in offset order |
| ObjectGeneration.AnyAtMeans | Assets/Scripts/World/Generation/ObjectGenerationStep.cs:86-89 | the coordinate search finds a cell exactly when it is in the list |
| ObjectGeneration.AnyOccupiedMeans | Assets/Scripts/World/Generation/ObjectGenerationStep.cs:52-55 | the footprint check reports a block exactly when some footprint cell is claimed |
| ObjectGeneration.AllCellsMembers | Assets/Scripts/World/Generation/ObjectGenerationStep.cs:77-80 | a cell is claimed by the placements exactly when one of them covers it |
| ObjectGeneration.RegistrationsCells | Assets/Scripts/World/Generation/ObjectGenerationStep.cs:77-82 | the registry receives exactly the claimed cells, in the same order |
| ObjectGeneration.RegistrationsClones | Assets/Scripts/World/Generation/ObjectGenerationStep.cs:60-81 | every registry entry names the clone whose footprint covers that cell |
| ObjectGeneration.RecordConcat | Assets/Scripts/World/Generation/ObjectGenerationStep.cs:77-82 | recording placements in two batches equals recording them at once, with clone numbers continuing |
| ObjectGeneration.VisitAttempt | Assets/Scripts/World/Generation/ObjectGenerationStep.cs:50-82 | handling one origin records exactly that origin's attempt |
| ObjectGeneration.SeparatedMeans | Assets/Scripts/World/Generation/ObjectGenerationStep.cs:52-55 | checking each footprint against everything claimed before it is equivalent to the placements being pairwise disjoint and avoiding the claimed cells |
| ObjectGeneration.PlacedSeparated | Assets/Scripts/World/Generation/ObjectGenerationStep.cs:47-83 | each placement of a scan was checked free against everything claimed before it |
| ObjectGeneration.PlacedAdmitted | Assets/Scripts/World/Generation/ObjectGenerationStep.cs:47-63 | every placement of a scan belongs to the group, has a scanned origin, passed its draw and picked an existing variant |
| ObjectGeneration.NegativeFrequencyPlacesNothing | Assets/Scripts/World/Generation/ObjectGenerationStep.cs:57-58 | a group with negative frequency places nothing |
| ObjectGeneration.PlacedGrows | Assets/Scripts/World/Generation/ObjectGenerationStep.cs:47-83 | the placements made so far are never undone: a shorter scan's placements are a prefix |
| ObjectGeneration.BlockedStaysBlocked | Assets/Scripts/World/Generation/ObjectGenerationStep.cs:52-55 | a blocked footprint stays blocked as later placements are made |
| ObjectGeneration.OriginPlaced | Assets/Scripts/World/Generation/ObjectGenerationStep.cs:52-63 | an origin whose footprint is free when scanned and whose draw passes receives the next placement |
| ObjectGeneration.FullFrequencyFillsOrigin | Assets/Scripts/World/Generation/ObjectGenerationStep.cs:52-58 | with frequency 1000 or more, every scanned origin either receives an object or has a footprint blocked by the end of the scan |
| ObjectGeneration.PassFromKeeps | Assets/Scripts/World/Generation/ObjectGenerationStep.cs:27-29 | later groups only append: earlier groups' placements stay in place |
| ObjectGeneration.PassDisjoint | Assets/Scripts/World/Generation/ObjectGenerationStep.cs:22-30 | in a whole pass no cell is covered twice and no placement covers a spawn-area cell |
| ObjectGeneration.SpawnAreaUnused | Assets/Scripts/World/Generation/ObjectGenerationStep.cs:32-40 | no placement of a pass covers a cell of the spawn square |
| ObjectGeneration.PassAllAdmitted | Assets/Scripts/World/Generation/ObjectGenerationStep.cs:27-63 | every placement of a pass comes from a group with a variant, has a scanned origin, passed its group's draw and picked one of its variants |
| ObjectGeneration.ScanFromPlaced | Assets/Scripts/World/Generation/ObjectGenerationStep.cs:47-83 | visiting origins one by one records exactly the placements `Placed` describes |
| ObjectGeneration.RectFromScan | Assets/Scripts/World/Generation/ObjectGenerationStep.cs:47-48 | visiting column by column is visiting the cells in scan order |
| ObjectGeneration.GroupScanned | Assets/Scripts/World/Generation/ObjectGenerationStep.cs:47-83 | when the outer loop ends, the group's placements over the whole scan area are recorded |
| ObjectGeneration.ObjectGenerationStep.constructor | Assets/Scripts/World/Generation/ObjectGenerationStep.cs:14-20 | a new step has no claimed cells and empty logs |
| ObjectGeneration.ObjectGenerationStep.IsPositionOccupied | Assets/Scripts/World/Generation/ObjectGenerationStep.cs:86-89 | true exactly when the cell is claimed |
| ObjectGeneration.ObjectGenerationStep.Generate | Assets/Scripts/World/Generation/ObjectGenerationStep.cs:22-30 | the claimed cells become the spawn square followed by the cells of every placement of the pass; the pass's placements and registrations are appended to the logs |
| ObjectGeneration.ObjectGenerationStep.OccupySpawnArea | Assets/Scripts/World/Generation/ObjectGenerationStep.cs:32-40 | appends the spawn square around the truncated world centre, in loop order, and changes nothing else |
| ObjectGeneration.ObjectGenerationStep.OccupyColumn | Assets/Scripts/World/Generation/ObjectGenerationStep.cs:38-39 | the inner loop appends one column of the spawn square in order |
| ObjectGeneration.ObjectGenerationStep.GenerateGroup | Assets/Scripts/World/Generation/ObjectGenerationStep.cs:42-84 | the step records exactly the placements the group makes over the scan area against the cells claimed before it |
| ObjectGeneration.ObjectGenerationStep.ScanColumn | Assets/Scripts/World/Generation/ObjectGenerationStep.cs:48-83 | the inner loop visits one column of the scan area bottom to top |
| ObjectGeneration.ObjectGenerationStep.TryPlace | Assets/Scripts/World/Generation/ObjectGenerationStep.cs:50-82 | one origin is skipped when its footprint is blocked or its draw exceeds the frequency; otherwise one object is spawned and its footprint is claimed and registered |
| ObjectGeneration.ObjectGenerationStep.OccupyFootprint | Assets/Scripts/World/Generation/ObjectGenerationStep.cs:77-82 | each footprint cell is claimed and registered under the clone, in offset order |
| LegacyObjectGeneration.OriginsIndex | Assets/Scripts/World/ObjectGenerationStep.cs:72 | the claimed-cell list holds each spawn's cell at the spawn's index |
| LegacyObjectGeneration.OriginsMembers | Assets/Scripts/World/ObjectGenerationStep.cs:72 | a cell is claimed by the spawns exactly when some spawn stands on it |
| LegacyObjectGeneration.RecordConcat | Assets/Scripts/World/ObjectGenerationStep.cs:72 | recording spawns in two batches equals recording them at once |
| LegacyObjectGeneration.VisitAfter | Assets/Scripts/World/ObjectGenerationStep.cs:54-72 | handling one more cell records exactly that cell's attempt |
| LegacyObjectGeneration.SeparatedMeans | Assets/Scripts/World/ObjectGenerationStep.cs:55 | checking each origin against everything claimed before it is equivalent to the spawns standing on distinct cells outside the claimed ones |
| LegacyObjectGeneration.PlacedSeparated | Assets/Scripts/World/ObjectGenerationStep.cs:50-74 | each spawn of a scan was checked free against everything claimed before it |
| LegacyObjectGeneration.PlacedAdmitted | Assets/Scripts/World/ObjectGenerationStep.cs:50-63 | every spawn of a scan belongs to the group, stands on a scanned cell, passed its draw and picked an existing variant |
| LegacyObjectGeneration.NegativeFrequencyPlacesNothing | Assets/Scripts/World/ObjectGenerationStep.cs:57-58 | a group with negative frequency spawns nothing |
| LegacyObjectGeneration.PlacedGrows | Assets/Scripts/World/ObjectGenerationStep.cs:50-74 | spawns made so far are never undone: a shorter scan's spawns are a prefix |
| LegacyObjectGeneration.OriginPlaced | Assets/Scripts/World/ObjectGenerationStep.cs:54-72 | a cell free when scanned whose draw passes receives the next spawn |
| LegacyObjectGeneration.FullFrequencyClaimsAll | Assets/Scripts/World/ObjectGenerationStep.cs:54-72 | with frequency 1000 or more, every scanned cell was claimed before the scan or receives an object |
| LegacyObjectGeneration.PassFromKeeps | Assets/Scripts/World/ObjectGenerationStep.cs:19-25 | later groups only append: earlier groups' spawns stay in place |
| LegacyObjectGeneration.PassDisjoint | Assets/Scripts/World/ObjectGenerationStep.cs:14-26 | in a whole pass no two objects share a cell and none stands on a spawn-area cell |
| LegacyObjectGeneration.SpawnAreaUnused | Assets/Scripts/World/ObjectGenerationStep.cs:28-40 | no spawn of a pass stands in the spawn square |
| LegacyObjectGeneration.PassAllAdmitted | Assets/Scripts/World/ObjectGenerationStep.cs:19-63 | every spawn of a pass comes from a group with a variant, stands on a scanned cell, passed the draw and picked one of its variants |
| LegacyObjectGeneration.WithVariantsFromMeans | Assets/Scripts/World/ObjectGenerationStep.cs:19-25 | a group gets a parent object exactly when it has a variant, and parents are registered in group order |
| LegacyObjectGeneration.ScanFromPlaced | Assets/Scripts/World/ObjectGenerationStep.cs:50-74 | visiting cells one by one records exactly the spawns `Placed` describes |
| LegacyObjectGeneration.RectFromScan | Assets/Scripts/World/ObjectGenerationStep.cs:50-52 | visiting column by column is visiting the cells in scan order |
| LegacyObjectGeneration.GroupScanned | Assets/Scripts/World/ObjectGenerationStep.cs:50-74 | when the outer loop ends, the group's spawns over the whole scan area are recorded |
| LegacyObjectGeneration.ObjectGenerationStep.constructor | Assets/Scripts/World/ObjectGenerationStep.cs:9-12 | a new step has no claimed cells and empty logs |
| LegacyObjectGeneration.ObjectGenerationStep.IsPositionOccupied | Assets/Scripts/World/ObjectGenerationStep.cs:77-80 | true exactly when the cell is claimed |
| LegacyObjectGeneration.ObjectGenerationStep.Generate | Assets/Scripts/World/ObjectGenerationStep.cs:14-26 | the claimed cells become the spawn square followed by the cell of every spawn of the pass; the pass's spawns are logged, and one parent per group with a variant is registered, in group order |
| LegacyObjectGeneration.ObjectGenerationStep.OccupySpawnArea | Assets/Scripts/World/ObjectGenerationStep.cs:28-40 | appends the spawn square around the truncated world centre, in loop order, and changes nothing else |
| LegacyObjectGeneration.ObjectGenerationStep.OccupyColumn | Assets/Scripts/World/ObjectGenerationStep.cs:35-38 | the inner loop appends one column of the spawn square in order |
| LegacyObjectGeneration.ObjectGenerationStep.GenerateGroup | Assets/Scripts/World/ObjectGenerationStep.cs:42-75 | registers the group's parent first, then records exactly the spawns the group makes over the scan area against the cells claimed before it |
| LegacyObjectGeneration.ObjectGenerationStep.ScanColumn | Assets/Scripts/World/ObjectGenerationStep.cs:52-73 | the inner loop visits one column of the scan area bottom to top |
| LegacyObjectGeneration.ObjectGenerationStep.TryPlace | Assets/Scripts/World/ObjectGenerationStep.cs:54-72 | one cell is skipped when it is claimed or its draw exceeds the frequency; otherwise an object is spawned on it and the cell claimed |

## Left out

- The fade's driving loop is not modelled. This covers `FadeWorld` (an endless coroutine loop), `StartFade` and the `WaitForSeconds` delay between removals. `FadeLayer` models one layer, and `LayerShrinks` shows that each layer makes progress.
- `StopFade` is modelled only through its effect inside a layer. `StopAllCoroutines` ends the running coroutine at its next `yield`, before the borders shrink, so `FadeLayer` returns `stopped` and changes nothing.
- `Tilemap.CompressBounds` and `cellBounds` are Unity internals. They are modelled by their result: the tight bounds of the non-empty cells.
- Tiles are modelled as a map from cells to tiles. Only the identity of the season's tile assets is kept.
- The world generator's behaviour is not part of this model. Its calls are recorded as logs:
  - in the fade, `DestroyPositionalObject`;
  - in the newer step, `AddPositionalObject`;
  - in the older step, `RegisterWorldObject`.
- WorldFade.WorldFade.ShrinkWorldBorders: the four border colliders are assumed to be four distinct objects (`WorldGenerator.Valid`, required also by `FadeLayer`). A collider shared by two sides would be shrunk once per side in each layer, and the model does not cover that case.
- Border offsets and sizes are Unity `float`s, modelled as `real`. Rounding is not modelled.
- `Random.Range` and `WeightedRandomBag.GetRandom` are modelled as an oracle, the `rolls` parameter. Their distribution and the variant weights are not modelled:
  - the newer step weights the bag by `variant.weight`;
  - the older step weights it by `variant.frequency`.
- `Instantiate` and the scene object it creates are not modelled. This covers:
  - the parent transform;
  - the world position (`CalculateObjectPosition`, plus the group's offset);
  - the sprite, the collider size, the loot table and the loot multiplier;
  - `Debug.Log`.

  Each object is recorded only by its group, cell(s), draw and variant index.
- C# 32-bit `int` wrap-around is not modelled. Coordinates are unbounded integers. Only the truncating division `worldWidth / 2` is written out.
- The `GenerationStep` base class and the `Season` asset are not part of this model. The step's world size and fields are constructor arguments, and the season's object groups are a parameter of `Generate`.
