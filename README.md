# InfluenceMaps: tile grid, influence fields and greedy placement

This project models the core of the InfluenceMaps Unity project in Dafny:

- **The tile grid** (`WorldGrid`, module `Grid`, file `grid.dfy`). A fixed `rows × columns` layout holds an array of tile types in the class `Grid.WorldGrid`. A point `(x, y)` is valid when `0 <= x < rows` and `0 <= y < columns`, and its linear index is `x + y * rows`. On the grid the model proves:
  - the index/point round trips;
  - the scan for all tiles of one type;
  - the square-window neighbour query without the centre tile;
  - the one-tile write.
- **Influence fields** (`InfluenceMap`, module `Influence`, file `influence.dfy`).
  - Awake builds a dictionary from definition names to definitions. It either succeeds, or stops at the first missing definition or repeated name.
  - `CalculateInfluenceMap` walks every tile of each emitting type, accumulates the starting influence into it, and adds a decayed share to each of its neighbours.
  - The method is proved equal to a recursive specification, `InfluenceField`. Lemmas then describe that specification pointwise: which keys it has, what each value adds up to, what happens without a radius, and additivity over the emitting types.
  - By-name lookup returns an empty field for an unknown name. The membership query returns `-1` for a missing name or key.
- **Location selection** (`AI`, module `Placement`, file `placement.dfy`).
  - The placement scan computes the `"ai"` field. It keeps FIELD tiles that the named field also reports, and tracks a running best under the highest or lowest policy together with its ties.
  - It gives up with `-1` on a best of `0` or `-1`, as the source does. The model also gives up when the tie list is empty, where the source would index an empty list (see "## Findings"). Otherwise it picks one tie nondeterministically, and `FindBestLocation` marks that tile OCCUPIED.
  - `Initialize` records the OCCUPIED tiles once.

`wrappers.dfy` holds the `Option` type.

Modelling choices:

- **Tile positions.** `GetPointFromIndex` recovers a point from a tile's stored world position. The model fixes the default layout, where the tile at index `i` stands at `(i % rows, i / rows)`: this is where the default grid of `Awake` and `CreateGrid` places `gridSpaces[i * rows + j]` at `(j, i)`. With that layout, the points with `0 <= x < rows` and `0 <= y < columns` and the indices `x + y * rows` are in one-to-one correspondence with `[0, rows * columns)`, for square and non-square grids alike. `PointIndexRoundTrip`, `IndexPointRoundTrip` and `PointFromIndexInjective` prove this.
- **Numbers.**
  - Influence values are reals.
  - The decay `startingInfluence / sqrt(1 + max + 1.2 * min)` is an abstract function `Falloff` of the starting influence and the offset's larger and smaller absolute coordinate.
  - Repeated accumulation into one entry is written `Repeated(v, n)`, and `RepeatedIsProduct` proves it equals `v * n`.
  - `float.MaxValue` is the exact real 340282346638528859811704183484516925440.
- **Nondeterminism.**
  - The Dictionary iteration order of the scan becomes a choice of any remaining key.
  - `Random.Range` becomes a choice of any index into the tie list.
- **Interfaces.** `FindBestIndexForType` also returns the scan's final best as a ghost value, so that its contract can name it. `FindBestLocation` returns the chosen index, though the source method returns nothing.

## Model

| member | source | states |
|---|---|---|
| Grid.Layout.PointIndexRoundTrip | InfluenceMaps/Assets/Scripts/WorldGrid.cs:305-318 | a valid point's index `x + y * rows` is a tile of the grid, and `GetPointFromIndex` of it gives the point back |
| Grid.Layout.IndexPointRoundTrip | InfluenceMaps/Assets/Scripts/WorldGrid.cs:305-339 | every tile's point passes `IsValidPoint` (x below rows, y below columns), and its index is the tile's own |
| Grid.Layout.PointFromIndexInjective | InfluenceMaps/Assets/Scripts/WorldGrid.cs:311-318 | different tiles have different points, for square and non-square grids alike |
| Grid.Layout.IsValidPoint | InfluenceMaps/Assets/Scripts/WorldGrid.cs:333-339 | a point is valid exactly when neither coordinate is negative, x is below rows and y is below columns, the two early `false` returns of the source; what validity buys is stated by the round-trip lemmas above |
| Grid.Layout.GetGridIndexFromPoint | InfluenceMaps/Assets/Scripts/WorldGrid.cs:305-309 | the index of a valid point lies in `[0, rows * columns)`, so it names a tile of the grid |
| Grid.Layout.GetPointFromIndex | InfluenceMaps/Assets/Scripts/WorldGrid.cs:311-318 | every tile's point passes `IsValidPoint`; tiles are assumed to stand where the default layout of WorldGrid.cs:175-182 puts them |
| Grid.WorldGrid.GetTileType | InfluenceMaps/Assets/Scripts/WorldGrid.cs:212-215 | the type returned is one whose index scan `GetGridIndicesFromType` lists the square |
| Grid.Layout.Neighbors | InfluenceMaps/Assets/Scripts/WorldGrid.cs:139-158 | the list the neighbour query builds, in its order; every entry is a tile of the grid |
| Grid.Layout.NeighborsMembership | InfluenceMaps/Assets/Scripts/WorldGrid.cs:142-155 | k is listed iff k is a tile other than the centre whose point lies within the radius of the centre's point in both coordinates |
| Grid.Layout.NeighborsDistinct | InfluenceMaps/Assets/Scripts/WorldGrid.cs:144-155 | no index is listed twice |
| Grid.Layout.NeighborsLength | InfluenceMaps/Assets/Scripts/WorldGrid.cs:142-155 | a radius of zero or less gives the empty list; otherwise the list has at most `(2r+1)^2 - 1` entries |
| Grid.IndicesOfTypeMembership | InfluenceMaps/Assets/Scripts/WorldGrid.cs:108-117 | k is among the indices of type t iff k is a tile index whose type is t |
| Grid.IndicesOfTypeAscending | InfluenceMaps/Assets/Scripts/WorldGrid.cs:108-117 | the indices of one type are listed in strictly ascending order |
| Grid.IndicesOfTypeDistinct | InfluenceMaps/Assets/Scripts/WorldGrid.cs:108-117 | no index of one type is listed twice |
| Grid.WorldGrid.Default | InfluenceMaps/Assets/Scripts/WorldGrid.cs:244-260 | the grid Awake creates has `rows * columns` squares, all FIELD, the enum's default |
| Grid.WorldGrid.Load | InfluenceMaps/Assets/Scripts/WorldGrid.cs:184-199 | a loaded grid holds exactly the given squares |
| Grid.WorldGrid.PlaceGridTileAtIndex | InfluenceMaps/Assets/Scripts/WorldGrid.cs:89-106 | afterwards the tile at index has the new type, and every other tile keeps its type |
| Grid.WorldGrid.GetGridIndicesFromType | InfluenceMaps/Assets/Scripts/WorldGrid.cs:108-117 | the loop returns exactly the indices whose tile has the type, strictly ascending |
| Grid.WorldGrid.GetNeighbors | InfluenceMaps/Assets/Scripts/WorldGrid.cs:139-158 | the two nested loops return exactly `Neighbors(radius, index)`, whose contents the three Neighbors lemmas describe |
| Influence.Accumulate | InfluenceMaps/Assets/Scripts/InfluenceMap.cs:114-121 | the read-then-add update adds its key, adds v to that key's value (absent reads as 0), and leaves every other value as it was |
| Influence.DecaySymmetric | InfluenceMaps/Assets/Scripts/InfluenceMap.cs:129-146 | a neighbour's contribution is unchanged by swapping the axes or negating either offset |
| Influence.SpreadNeighborsAccumulates | InfluenceMaps/Assets/Scripts/InfluenceMap.cs:125-156 | the neighbour loop adds exactly the neighbours as keys, and adds its decayed term to each listed neighbour and nothing elsewhere |
| Influence.SpreadSourceAccumulates | InfluenceMaps/Assets/Scripts/InfluenceMap.cs:114-156 | one source adds its own key and its neighbours; its value grows by the starting influence, each neighbour's by its decayed term, all else unchanged |
| Influence.SpreadSourcesAccumulates | InfluenceMaps/Assets/Scripts/InfluenceMap.cs:109-158 | entries only accumulate: over any starting map, the keys grow by the sources and their neighbours, and each value grows by the sum of the sources' contributions |
| Influence.SourcesMembership | InfluenceMaps/Assets/Scripts/InfluenceMap.cs:109-111 | a tile is visited as a source iff its type is one of the emitting types |
| Influence.SourcesMultiplicity | InfluenceMaps/Assets/Scripts/InfluenceMap.cs:109-111 | a tile is visited once for every time its type is listed among the emitting types |
| Influence.SourcesConcat | InfluenceMaps/Assets/Scripts/InfluenceMap.cs:109-111 | the sources of a concatenated type list are the sources of the first part, then of the second |
| Influence.FieldKeys | InfluenceMaps/Assets/Scripts/InfluenceMap.cs:104-161 | the computed field's keys are exactly the source tiles and the neighbours within the radius of some source, all tiles of the grid |
| Influence.FieldValues | InfluenceMaps/Assets/Scripts/InfluenceMap.cs:104-161 | a tile's value is the sum, over every source occurrence, of the starting influence if it is the source plus the decayed term if it is one of that source's neighbours |
| Influence.FieldWithoutRadius | InfluenceMaps/Assets/Scripts/InfluenceMap.cs:109-125 | with radius <= 0 the keys are exactly the source tiles, each holding the starting influence added once per listing of its type |
| Influence.FieldAdditive | InfluenceMaps/Assets/Scripts/InfluenceMap.cs:109-158 | the field of emitting types `a + b` is, tile by tile, the field of `a` plus the field of `b` |
| Influence.RegisterStops | InfluenceMaps/Assets/Scripts/InfluenceMap.cs:86-93 | once Awake has failed, later names change neither the dictionary nor the error |
| Influence.RegisterSucceeds | InfluenceMaps/Assets/Scripts/InfluenceMap.cs:86-93 | Awake succeeds iff every name has a definition and no name repeats; then the dictionary's keys are exactly the names, each mapped to the definition at its position |
| Influence.BuildDictionary | InfluenceMaps/Assets/Scripts/InfluenceMap.cs:86-93 | the loop reaches `Register` over all names, and it reports no error iff there are enough definitions and the names are distinct |
| Influence.InfluenceMap.constructor | InfluenceMaps/Assets/Scripts/InfluenceMap.cs:86-93 | the component's dictionary and error are those Awake reaches over the given names and definitions |
| Influence.InfluenceMap.CalculateInfluenceMap | InfluenceMaps/Assets/Scripts/InfluenceMap.cs:104-161 | the three nested loops return exactly `InfluenceField` of the current grid, which the Field lemmas describe; the grid is not modified |
| Influence.InfluenceMap.InfluenceFromType | InfluenceMaps/Assets/Scripts/InfluenceMap.cs:111-157 | the middle loop spreads every tile of one type, in ascending order, over the map so far |
| Influence.InfluenceMap.InfluenceFromSource | InfluenceMaps/Assets/Scripts/InfluenceMap.cs:114-156 | one source tile: its own accumulation, then the innermost loop over its neighbours, equal to `SpreadSource` |
| Influence.InfluenceMap.NeighborInfluence | InfluenceMaps/Assets/Scripts/InfluenceMap.cs:127-146 | the decayed value depends only on the larger and the smaller absolute offset, in that order |
| Influence.InfluenceMap.CalculateInfluenceMapByName | InfluenceMaps/Assets/Scripts/InfluenceMap.cs:47-54 | an unknown name gives the empty field; a known name gives that definition's field over the current grid |
| Influence.InfluenceMap.CheckIndexOnInfluenceMap | InfluenceMaps/Assets/Scripts/InfluenceMap.cs:56-67 | -1 when the name is unknown or the index is not a key of its field; otherwise the field's value at the index |
| Placement.BestUnique | InfluenceMaps/Assets/Scripts/AI.cs:61-94 | the final best depends only on the field: two bests over the same keys are equal, whatever the visiting order |
| Placement.ScanStart | InfluenceMaps/Assets/Scripts/AI.cs:55-60 | before any key, the initial best (-1, or float.MaxValue for the lowest policy) and no ties form a valid scan state |
| Placement.ScanSkip | InfluenceMaps/Assets/Scripts/AI.cs:63-94 | a key that does not qualify, or whose value neither beats nor equals the best, leaves best and ties unchanged |
| Placement.ScanImprove | InfluenceMaps/Assets/Scripts/AI.cs:69-74 | a qualifying key that beats the best clears the ties, becomes the only tie, and sets the best |
| Placement.ScanTie | InfluenceMaps/Assets/Scripts/AI.cs:75-78 | a qualifying key equal to the best is appended to the ties, which stay duplicate-free |
| Placement.AsWrittenPickDefined | InfluenceMaps/Assets/Scripts/AI.cs:96-99 | once the guard passes, the as-written random pick has a non-empty tie list iff the policy is highest or some qualifying value is at most float.MaxValue |
| Placement.LowestScanLeavesNothingToPick | InfluenceMaps/Assets/Scripts/AI.cs:57-99 | a concrete scan under the lowest policy ends with best float.MaxValue and no ties; the guard as written does not reject it, and the corrected guard does |
| Placement.AI.constructor | InfluenceMaps/Assets/Scripts/AI.cs:7-9 | a fresh component is not initialised and has no building locations |
| Placement.AI.Initialize | InfluenceMaps/Assets/Scripts/AI.cs:11-18 | the first call records exactly the OCCUPIED tiles; later calls change nothing |
| Placement.AI.ScanField | InfluenceMaps/Assets/Scripts/AI.cs:55-94 | after the loop, the best dominates every qualifying tile and is one of their values (or the initial value); the ties are exactly the qualifying keys with that value, each once |
| Placement.AI.FindBestIndexForType | InfluenceMaps/Assets/Scripts/AI.cs:48-102 | -1 for an empty "ai" field. Any other result is a FIELD key of the "ai" field that the named field reports, and its value is the best over all qualifying tiles, neither 0 nor -1. The result is -1 iff the best is 0 or -1 or no qualifying tile attains it. When the result is -1, every qualifying tile whose value is the best over all qualifying tiles has value 0 or -1 |
| Placement.AI.FindBestLocation | InfluenceMaps/Assets/Scripts/AI.cs:20-46 | on -1 the grid is unchanged, and every tile that qualified before the call with the best value had value 0 or -1. Otherwise exactly the chosen tile becomes OCCUPIED; before the call it was a key of the "ai" field whose value is neither 0 nor -1. It was the best qualifying tile before the call and no longer qualifies, so a later call cannot return it |

## Left out

- Rendering and Unity objects are not modelled:
  - visual representations;
  - positions in world space;
  - floor scaling;
  - the grid visualisation;
  - the hovered-tile outline and mouse raycast;
  - `GetGridIndexFromLocation` and the mouse-driven `PlaceGridTile`;
  - the singleton set-up;
  - `GetGridData`.
  These are presentation, not grid logic.
- `GetPointFromIndex` reads stored float positions. The model takes the integer map of the default layout instead (see above), so a grid loaded with rearranged positions is not covered.
- The `GetNeighbors(int radius, Vector2Int point)` overload is not modelled. No part of the core calls it.
- Display and colouring of fields are not modelled: `CreateInfluenceCubes`, `ShowInfluenceMapByName`, `ShowInfluenceMapByType`, `CalculateColors` and `HideInfluenceCubes`.
- `GetInfluenceMapByName` is not modelled. It returns the `influence` member of a definition. Only `ShowInfluenceMapByType` assigns that member, and only on a struct copy, so it is never stored.
- Single-precision arithmetic, `Mathf.Sqrt` and IEEE equality are not modelled; values are reals. As in the source, a computed value of exactly -1 is indistinguishable from the absent sentinel of `CheckIndexOnInfluenceMap`.
- Arithmetic is unbounded: the 32-bit overflow of `x + y * rows` on huge grids is not modelled.
- `Random.Range` and `Debug.Log` become a nondeterministic choice and nothing. The name switch after placement in `FindBestLocation` does nothing in the source and is omitted.
- Grid.WorldGrid.Load: requires the square array to have `rows * columns` entries. `CreateGrid` does not check this. A longer array is harmless to the type scan, which runs over `gridSpaces.Length` (WorldGrid.cs:111), but a shorter one makes the neighbour and influence indexing go out of range.
- `CreateGrid` (WorldGrid.cs:160-210, called again from the loader at GridLoader.cs:134 and :158) re-initialises the live singleton in place: rows, columns and the square array all change. The model's layout and tile array are fixed at construction, so a grid re-created under an existing `InfluenceMap` is not covered.
- `GetTileType`, `PlaceGridTileAtIndex`, `GetPointFromIndex` and `GetNeighbors` (WorldGrid.cs:214, :91, :313, and :143 through `GetPointFromIndex`) throw `IndexOutOfRangeException` on an index outside the array. The model makes the range a precondition instead, and every caller in the core passes an index taken from the grid's own fields.
- The `WorldGrid.Instance` singleton becomes the grid the influence component holds. The `AI` component reads and writes the grid only through that reference.
- JSON loading and saving, file I/O, UI menus, scene control, the grid editor and the camera are outside the modelled core.

## Findings

| source | as written | input that shows it | evidently intended | confidence | as-written member | corrected member |
|---|---|---|---|---|---|---|
| InfluenceMaps/Assets/Scripts/AI.cs:96-99 | after the scan, only a best of 0 or -1 ends the search early; otherwise one of the ties is picked by a random index below their count | lowest policy, grid of one FOREST tile, "ai" field {0: 1.0}: nothing qualifies, the best stays float.MaxValue, the tie list is empty, and indexing it throws | give up with -1 when no tile qualified, as the comment on line 95 says ("no valid indices") | not executed; high | Placement.LowestScanLeavesNothingToPick | Placement.AI.FindBestIndexForType |
