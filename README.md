# Sokochan engine core in Dafny

This project models the core of the Sokochan Sokoban engine (`src/sokochan`) and proves properties about it.

**The grid.** It is a `X_SIZE` by `Y_SIZE` array of tile objects, indexed `[x][y]`:
- There are three tile classes: Tile (floor), Diamond (target) and Wall.
- Each tile has a `placedObject` slot.
- Two movable classes sit on the tiles: Crate and WarehouseKeeper.

**Movement.**
- `move` empties the source tile, updates the position and places the object on the destination tile.
- `movePushing` pushes the crate in front of the keeper, then moves the keeper.
- It returns one of the statuses -1, 0, 1, 2 or 3.

**The engine.**
- It reads a map file into levels and decodes a level's characters into a new grid.
- It moves the keeper and counts moves and pushes.
- It keeps a capped history stack and undoes the newest entry.
- It tells whether every crate is on a diamond.

**How the model is laid out.**

| Dafny module | Java source it models |
|---|---|
| `Directions` | `Direction` |
| `Letters` | `Letters` |
| `GridObjects` | the values in the tile and movable classes, and the rules they follow on their own |
| `Points` | the row-major cursor that `SokochanGrid.GridIterator` and `Level.MapIterator` share |
| `Boards` | every grid-level operation, as a function on the value of a whole grid (`Board`) |
| `Grid` | `SokochanGrid`, as a class |
| `MapLoading` | `MapLoader` and `Level` |
| `History` | `HistoryElement` and `HistoryStack` |
| `LevelDecoding` | the decoding loop of `loadLevel`, as a fold |
| `Engine` | `SokochanEngine` |

**How the Grid class works.**
- It holds the tiles in an `array2`.
- It keeps the movable objects in a registry `objects`, indexed by creation order. An index stands for Java object identity, so a tile's `placedObject` is an index.
- It keeps a ghost `board` equal to the value the array and the registry represent.
- Every method states its new `board` as a `Boards` function of the old one.
- What the Java code promises is proved about those functions: consistency of positions and occupants, the push classification, no chain pushes, undo restoring the board, and the decoded level matching its text.

**Behaviour of the Java code that the model keeps as it is:**
- The history keeps at most 18 entries. Once it holds more than `MAX_SIZE = 16`, `push` first trims it to the newest 17.
- `movePlayer` reports false for push results 2 and 3 and neither counts nor records them, although the crate and the keeper did move.
- `undo` decrements the move count but never the push count.

## Model

| member | source | states |
|---|---|---|
| Directions.AllDirections | src/sokochan/Direction.java:8-12 | the enumeration has four pairwise distinct values |
| Directions.AllDirectionsComplete | src/sokochan/Direction.java:8-12 | every direction is one of the four values |
| Directions.Opposite | src/sokochan/Direction.java:14-25 | the opposite differs from the direction; North and South are paired, and so are East and West, in both directions |
| Directions.OppositeInvolution | src/sokochan/Direction.java:14-19 | taking the opposite twice gives back the direction |
| Letters.Code | src/sokochan/Letters.java:11-47 | every constant's code is already lower case |
| Letters.Values | src/sokochan/Letters.java:7-38 | seven constants with pairwise distinct codes |
| Letters.ToLower | src/sokochan/Letters.java:56 | an upper-case letter maps to its lower-case form and any other character to itself; the result is never upper case |
| Letters.Find | src/sokochan/Letters.java:58-63 | the loop finds a constant whose code is the character, and finds none exactly when no constant has that code |
| Letters.ValueOf | src/sokochan/Letters.java:55-64 | a found constant's code is the lower-cased character; null exactly when no constant has that code |
| Letters.LettersComplete | src/sokochan/Letters.java:7-38 | values() lists every constant |
| Letters.CodeInjective | src/sokochan/Letters.java:11-38 | two constants with the same code are the same constant |
| Letters.ValueOfCode | src/sokochan/Letters.java:55-68 | valueOf(getCode(l)) is l, for every constant l |
| Letters.ValueOfIgnoresCase | src/sokochan/Letters.java:55-56 | valueOf gives the same result for a character and for its lower-case form |
| Letters.ValueOfUpperW | src/sokochan/Letters.java:55-64 | valueOf('W') is WALL |
| GridObjects.BaseWalkable | src/sokochan/GridObjects/TileGridObject.java:18-25 | the WALKABLE flag is false exactly for Wall |
| GridObjects.WalkableIffEmptyFloor | src/sokochan/GridObjects/Tile.java:22-25 | a tile is walkable exactly when it is not a Wall and holds no object |
| GridObjects.NewTile | src/sokochan/GridObjects/TileGridObject.java:15-21 | a new tile is empty, and it is walkable exactly when it is not a Wall |
| GridObjects.SetPlacedObject | src/sokochan/GridObjects/TileGridObject.java:31-37 | clearing always succeeds; placing succeeds exactly on an empty non-wall tile; success stores the object; refusal leaves the tile unchanged |
| GridObjects.WallRefusesObjects | src/sokochan/GridObjects/TileGridObject.java:31-37 | a Wall refuses every object and stays empty |
| GridObjects.Offset | src/sokochan/GridObjects/MovableGridObject.java:63-78 | every direction's translation is one unit along one axis |
| GridObjects.Displace | src/sokochan/GridObjects/MovableGridObject.java:60-83 | the displaced position differs from the start, and it comes later in row-major order exactly for East and South |
| GridObjects.DisplaceOpposite | src/sokochan/GridObjects/MovableGridObject.java:60-83 | a step in the opposite direction returns to the start |
| GridObjects.OffsetOpposite | src/sokochan/GridObjects/MovableGridObject.java:65-78 | the opposite direction's translation is the negated translation |
| Points.GridHasNext | src/sokochan/SokochanGrid.java:143-146 | defined as: the cursor is not on the last cell; Points.GridTraceOrder shows the walk stops exactly after it |
| Points.GridIncrement | src/sokochan/SokochanGrid.java:165-172 | increment always advances the cursor in row-major order |
| Points.GridSuccessor | src/sokochan/SokochanGrid.java:143-172 | while hasNext holds, increment lands on a cell of the grid, and that cell is the very next one: no cell lies between the old and the new cursor |
| Points.GridTrace | src/sokochan/SokochanGrid.java:120-126 | defined as: the cells next returns until hasNext fails; Points.GridTraceOrder and Points.GridTraceLength state them |
| Points.GridTraceOrder | src/sokochan/SokochanGrid.java:138-172 | the iterator returns cells in strictly increasing row-major order: exactly the grid cells after the cursor |
| Points.GridTraceLength | src/sokochan/SokochanGrid.java:138-172 | the number of steps left from a cursor is the number of cells after it |
| Points.GridTraceFromStart | src/sokochan/SokochanGrid.java:120-126 | a fresh iterator visits every cell of the grid once: X_SIZE * Y_SIZE steps |
| Boards.EmptyBoard | src/sokochan/SokochanGrid.java:39-43 | a new grid has the given size, no objects, and a null tile in every cell |
| Boards.GetTile | src/sokochan/SokochanGrid.java:62-67 | null outside the grid; inside it, exactly the stored cell (null until a tile is installed there), so never null once the grid is populated |
| Boards.GetGridObject | src/sokochan/SokochanGrid.java:77-82 | null outside the grid or on an empty tile; otherwise the object placed on the tile at that position |
| Boards.RemoveGridObject | src/sokochan/SokochanGrid.java:102-105 | outside the grid nothing changes; inside, the tile there becomes empty and no other cell changes |
| Boards.SetGridTile | src/sokochan/SokochanGrid.java:113-115 | the cell holds the given tile and no other cell changes |
| Boards.PlaceTile | src/sokochan/GridObjects/TileGridObject.java:39-42 | a new tile replaces the cell, empty, and no other cell changes; a populated grid stays populated |
| Boards.PopulateWithTiles | src/sokochan/SokochanGrid.java:120-126 | every cell holds a new empty floor tile; the size and the objects are unchanged |
| Boards.SetPosition | src/sokochan/GridObjects/GridObject.java:29-31 | only the position of that object changes; the tiles are untouched |
| Boards.PlaceMovable | src/sokochan/GridObjects/MovableGridObject.java:133-136 | a walkable tile at the object's position now holds it; a refusing tile leaves the grid unchanged; no other cell changes |
| Boards.NewMovable | src/sokochan/GridObjects/GridObject.java:17-21 | the new object gets the next identity and is placed on its tile when that tile is walkable; other cells are unchanged |
| Boards.GetNeighbourTile | src/sokochan/GridObjects/MovableGridObject.java:116-118 | inside the grid, exactly the stored cell one step from the object in the given direction; null outside the grid |
| Boards.GetNeighbour | src/sokochan/GridObjects/MovableGridObject.java:105-107 | inside the grid, exactly the object placed on the tile one step away (none on an empty tile), and a found one holds that cell; none outside the grid |
| GridObjects.IsWalkable | src/sokochan/GridObjects/Tile.java:23-25 | defined as: a Wall takes the class's WALKABLE flag (false), a Tile or Diamond is walkable when it holds no object; GridObjects.WalkableIffEmptyFloor states the result |
| Boards.CanMove | src/sokochan/GridObjects/MovableGridObject.java:91-97 | defined as: the neighbouring tile exists and is walkable; Boards.CanMoveIff spells it out cell by cell |
| Boards.CanMoveIff | src/sokochan/GridObjects/MovableGridObject.java:91-97 | an object can move exactly when the next cell is inside the grid, not null, not a Wall and empty |
| Boards.Move | src/sokochan/GridObjects/MovableGridObject.java:31-45 | true exactly when canMove holds; on failure nothing changes; on success the position is the displaced one, the destination tile holds the object, the source tile is empty and every other cell is unchanged |
| Boards.IsOnDiamond | src/sokochan/GridObjects/Crate.java:25-27 | defined as: the tile at the object's position is a Diamond; Boards.MoveKeepsOtherDiamond and Boards.MovePushingWithCrate state how pushes change it |
| Boards.MoveKeepsShape | src/sokochan/GridObjects/MovableGridObject.java:31-45 | move keeps the number and classes of the objects and keeps a populated grid populated |
| Boards.MoveThenBack | src/sokochan/GridObjects/MovableGridObject.java:31-45 | a successful move followed by a move in the opposite direction succeeds and restores the whole grid |
| Boards.MovePreservesConsistent | src/sokochan/GridObjects/MovableGridObject.java:31-45 | move keeps every object's position and its tile's occupant in agreement |
| Boards.GetCrateInDirection | src/sokochan/GridObjects/WarehouseKeeper.java:45-50 | a found object is a crate on the neighbouring tile; none when that tile is outside, empty or holds a non-crate |
| Boards.MovePushing | src/sokochan/GridObjects/WarehouseKeeper.java:64-86 | the status is one of -1, 0, 1, 2, 3; the grid stays populated and keeps its objects |
| Boards.PushStatus | src/sokochan/GridObjects/WarehouseKeeper.java:77-78 | 2 when the crate reached a diamond, 3 when it left one, 1 when its diamond status is unchanged |
| Boards.MovePushingWithoutCrate | src/sokochan/GridObjects/WarehouseKeeper.java:81-85 | with no crate in front, the result is the keeper's move, with status 0 when it succeeds and -1 when it fails |
| Boards.MovePushingWithCrate | src/sokochan/GridObjects/WarehouseKeeper.java:56-86 | with a crate in front the status is never 0; a blocked crate gives -1 and no change; 2, 3 and 1 mean the crate reached, left or kept its diamond status |
| Boards.MoveKeepsOtherDiamond | src/sokochan/GridObjects/Crate.java:25-27 | moving one object leaves every other object's isOnDiamond as it was |
| Boards.MovePushingPreservesConsistent | src/sokochan/GridObjects/WarehouseKeeper.java:64-86 | movePushing keeps positions and occupants in agreement |
| Boards.MovePushingKeepsKinds | src/sokochan/GridObjects/WarehouseKeeper.java:64-86 | movePushing keeps the class of every object |
| Boards.KeeperFollowsCrate | src/sokochan/GridObjects/WarehouseKeeper.java:64-86 | when the crate in front can move, the push succeeds with status 1, 2 or 3; the keeper ends one step on and the crate two |
| Boards.PushFrame | src/sokochan/GridObjects/WarehouseKeeper.java:64-86 | a push that goes through changes only the keeper and the crate among the objects, and only three cells: the keeper's old cell is left empty, the keeper stands on the crate's old cell and the crate on the cell beyond, each keeping its tile kind; every other cell is unchanged |
| Boards.PushIsTwoMoves | src/sokochan/GridObjects/WarehouseKeeper.java:69-79 | a push that goes through is the crate's successful move followed by the keeper's successful move |
| Boards.NoChainPush | src/sokochan/GridObjects/WarehouseKeeper.java:70-75 | when the cell beyond the crate is outside the grid, a wall or occupied, movePushing fails and changes nothing |
| Boards.PlaceTilePreservesConsistent | src/sokochan/GridObjects/TileGridObject.java:39-42 | installing a new tile over an empty cell keeps positions and occupants in agreement |
| Boards.NewMovablePreservesConsistent | src/sokochan/GridObjects/MovableGridObject.java:133-136 | creating an object on an empty walkable tile keeps positions and occupants in agreement |
| Grid.SokochanGrid.constructor | src/sokochan/SokochanGrid.java:39-43 | a new grid of the given size whose cells are all null |
| Grid.SokochanGrid.GetTile | src/sokochan/SokochanGrid.java:62-67 | reads the array as Boards.GetTile reads the grid value |
| Grid.SokochanGrid.GetGridObject | src/sokochan/SokochanGrid.java:77-82 | reads the array as Boards.GetGridObject reads the grid value |
| Grid.SokochanGrid.SetPlacedObject | src/sokochan/GridObjects/TileGridObject.java:31-37 | updates the cell's tile as GridObjects.SetPlacedObject says and returns its verdict |
| Grid.SokochanGrid.RemoveGridObject | src/sokochan/SokochanGrid.java:102-105 | the new grid is Boards.RemoveGridObject of the old one |
| Grid.SokochanGrid.SetGridTile | src/sokochan/SokochanGrid.java:113-115 | the new grid is Boards.SetGridTile of the old one |
| Grid.SokochanGrid.NewTile | src/sokochan/GridObjects/TileGridObject.java:39-42 | the new grid is Boards.PlaceTile of the old one |
| Grid.SokochanGrid.PopulateWithTiles | src/sokochan/SokochanGrid.java:120-126 | the loop over the grid iterator yields Boards.PopulateWithTiles: a floor tile in every cell |
| Grid.SokochanGrid.SetPosition | src/sokochan/GridObjects/GridObject.java:29-31 | the new grid is Boards.SetPosition of the old one |
| Grid.SokochanGrid.Place | src/sokochan/GridObjects/MovableGridObject.java:133-136 | the new grid is Boards.PlaceMovable of the old one |
| Grid.SokochanGrid.NewMovable | src/sokochan/GridObjects/GridObject.java:17-21 | the identity and the new grid are Boards.NewMovable of the old one |
| Grid.SokochanGrid.GetNeighbourTile | src/sokochan/GridObjects/MovableGridObject.java:116-118 | reads the array as Boards.GetNeighbourTile does |
| Grid.SokochanGrid.GetNeighbour | src/sokochan/GridObjects/MovableGridObject.java:105-107 | reads the array as Boards.GetNeighbour does |
| Grid.SokochanGrid.CanMove | src/sokochan/GridObjects/MovableGridObject.java:91-97 | agrees with Boards.CanMove |
| Grid.SokochanGrid.Move | src/sokochan/GridObjects/MovableGridObject.java:31-45 | the verdict and the new grid are Boards.Move of the old grid |
| Grid.SokochanGrid.IsOnDiamond | src/sokochan/GridObjects/Crate.java:25-27 | agrees with Boards.IsOnDiamond: the tile at the object's position is a Diamond |
| Grid.SokochanGrid.GetCrateInDirection | src/sokochan/GridObjects/WarehouseKeeper.java:45-50 | agrees with Boards.GetCrateInDirection |
| Grid.SokochanGrid.MovePushing | src/sokochan/GridObjects/WarehouseKeeper.java:64-86 | the status and the new grid are Boards.MovePushing of the old grid |
| MapLoading.ContainsOccurs | src/sokochan/MapLoader.java:34 | String.contains is true exactly when the marker occurs somewhere in the line |
| MapLoading.RemoveAll | src/sokochan/MapLoader.java:35 | removing never lengthens the line |
| MapLoading.RemoveAllAbsent | src/sokochan/MapLoader.java:35 | a line without the marker is unchanged |
| MapLoading.RemoveAllFirst | src/sokochan/MapLoader.java:35 | replace works from left to right: the text before the first occurrence is kept, that occurrence is deleted and the rest of the line is treated the same way, so occurrences never overlap |
| MapLoading.RemoveMarker | src/sokochan/MapLoader.java:34-39 | a marker followed by a name without the marker is recognised, and stripping gives back the name |
| MapLoading.GetX | src/sokochan/MapLoader.java:87-90 | defined as: the length of the first row; MapLoading.ParsedRowsNonEmpty shows it is positive for a loaded level with rows |
| MapLoading.GetY | src/sokochan/MapLoader.java:92-94 | defined as: the number of rows |
| MapLoading.ParseLine | src/sokochan/MapLoader.java:32-45 | defined as: one pass of the loop body, branch by branch; the lemmas below state what the whole loop does |
| MapLoading.ParseFrom | src/sokochan/MapLoader.java:31-46 | defined as: the loop from a given state over the remaining lines |
| MapLoading.Parse | src/sokochan/MapLoader.java:21-47 | defined as: the loop from no name and no levels; MapLoading.LevelRows and MapLoading.MapName state its result |
| MapLoading.ParseFromNames | src/sokochan/MapLoader.java:31-46 | the loop appends one level per level-name line, named after that line |
| MapLoading.LevelCount | src/sokochan/MapLoader.java:36-39 | the levels are exactly the level-name lines, in file order |
| MapLoading.ParseFromRows | src/sokochan/MapLoader.java:31-46 | the rows of all levels, joined in order, are the old rows followed by every row line read while some level is open |
| MapLoading.ParseFromGroups | src/sokochan/MapLoader.java:31-46 | which level a row joins: the row lines before the first level line go to the last level already open, and each level line opens a level that receives the row lines up to the next level line |
| MapLoading.LevelRows | src/sokochan/MapLoader.java:21-47 | level k is named by the k-th level line and holds exactly the row lines between that line and the next level line, in file order |
| MapLoading.AllRows | src/sokochan/MapLoader.java:40-43 | the levels' rows, in order, are the non-empty non-marker lines after the first level line; earlier ones are dropped |
| MapLoading.ParseFromNameKept | src/sokochan/MapLoader.java:34-35 | without a map-set line the name is unchanged |
| MapLoading.ParseFromNameLast | src/sokochan/MapLoader.java:34-35 | the name comes from the last map-set line |
| MapLoading.MapName | src/sokochan/MapLoader.java:34-35 | with no map-set line the name is null; otherwise it is the last such line with its marker removed |
| MapLoading.ParseFromRowLines | src/sokochan/MapLoader.java:40-43 | the loop only ever adds row lines to a level's content |
| MapLoading.ParsedRowsNonEmpty | src/sokochan/MapLoader.java:40-43 | every stored row is non-empty, so a level with rows has getX() >= 1 |
| MapLoading.MapLoader.constructor | src/sokochan/MapLoader.java:21-47 | the loop over the lines leaves the name and the levels that Parse gives |
| MapLoading.MapHasNext | src/sokochan/MapLoader.java:114-116 | defined as: a later row remains or the row has a later column |
| MapLoading.MapNext | src/sokochan/MapLoader.java:123-129 | defined as: the next column, or column 0 of the next row; MapLoading.MapIteratorIsGridIterator shows both step as the grid iterator does |
| MapLoading.MapChars | src/sokochan/MapLoader.java:113-131 | defined as: the characters next returns until hasNext fails; MapLoading.MapCharsFrom and MapLoading.MapIteratorYieldsRows state them |
| MapLoading.MapIteratorIsGridIterator | src/sokochan/MapLoader.java:113-131 | MapIterator's hasNext and next step agree with GridIterator's |
| MapLoading.MapCharsFrom | src/sokochan/MapLoader.java:122-131 | from a cursor, a rectangular level yields the rest of the current row, then the following rows |
| MapLoading.MapIteratorYieldsRows | src/sokochan/MapLoader.java:101-131 | over a rectangular level, the iterator yields the rows concatenated: getX() * getY() characters |
| History.Pushed | src/sokochan/SokochanEngine.java:207-213 | the new entry is on top; below it is a suffix of the old stack; a stack of more than 16 keeps exactly its newest 17 below the new entry, so at most 18 entries are kept; a stack of at most 17 keeps all its old entries |
| History.PopAfterPush | src/sokochan/SokochanEngine.java:207-213 | popping right after a push restores the old stack exactly when it held at most 17 entries |
| History.HistoryStack.constructor | src/sokochan/SokochanEngine.java:204-205 | a new stack is empty |
| History.HistoryStack.IsEmpty | src/sokochan/SokochanEngine.java:132 | defined as: the stack holds no entry; Engine.SokochanEngine.Undo states what undo does in that case |
| History.HistoryStack.Push | src/sokochan/SokochanEngine.java:207-213 | the new stack is Pushed of the old one |
| History.HistoryStack.Pop | src/sokochan/SokochanEngine.java:135 | the returned entry was on top and the rest of the stack is unchanged |
| LevelDecoding.CrateIds | src/sokochan/SokochanEngine.java:73-98 | the crates list holds exactly the crate objects, in creation order |
| LevelDecoding.CrateIdsAppend | src/sokochan/SokochanEngine.java:85-86 | creating a crate appends it to the list; creating any other object leaves the list alone |
| LevelDecoding.MoveKeepsCrateIds | src/sokochan/GridObjects/MovableGridObject.java:31-45 | a move leaves the crates list of the objects unchanged |
| LevelDecoding.MovePushingKeepsCrateIds | src/sokochan/GridObjects/WarehouseKeeper.java:64-86 | movePushing leaves the crates list of the objects unchanged |
| LevelDecoding.TileFor | src/sokochan/SokochanEngine.java:81-94 | the tile is a Wall exactly for 'w' or 'W', and a Diamond exactly for 'd' or 'D' |
| LevelDecoding.SwitchUsesLetterCodes | src/sokochan/SokochanEngine.java:79-94 | the switch's characters are the Letters codes of WALL, CRATE, WAREHOUSE_KEEPER and DIAMOND |
| LevelDecoding.DecodeCell | src/sokochan/SokochanEngine.java:78-94 | one step of the switch keeps the grid's size and keeps it populated, and adds a crate to the list exactly for 'c' or 'C' |
| LevelDecoding.Initial | src/sokochan/SokochanEngine.java:69-71 | the grid starts at the level's size and populated |
| LevelDecoding.DecodeFrom | src/sokochan/SokochanEngine.java:77-96 | defined as: the loop over the MapIterator from a cursor; LevelDecoding.DecodeFromInvariant states what it keeps |
| LevelDecoding.DecodeLevel | src/sokochan/SokochanEngine.java:69-98 | defined as: the loop from a new populated grid; LevelDecoding.DecodeLevelCorrect states its result |
| LevelDecoding.Step | src/sokochan/SokochanEngine.java:77-96 | defined as: one pass of the loop on the next cell; LevelDecoding.StepCells, StepObjects, StepKeeper and StepConsistent state its effect |
| LevelDecoding.DecodeCellEffect | src/sokochan/SokochanEngine.java:81-94 | on an empty floor cell, the switch leaves the tile and the object that the character names |
| LevelDecoding.StepCursor | src/sokochan/SokochanEngine.java:77-78 | each step reads the next cell inside the level |
| LevelDecoding.StepConsistent | src/sokochan/SokochanEngine.java:77-96 | each step keeps positions and occupants in agreement |
| LevelDecoding.StepObjects | src/sokochan/SokochanEngine.java:77-96 | each step keeps the crates list in step with the objects, in row-major order |
| LevelDecoding.StepCells | src/sokochan/SokochanEngine.java:77-96 | each step decodes its own cell and leaves later cells as empty floor |
| LevelDecoding.StepKeeper | src/sokochan/SokochanEngine.java:88-90 | after each step the keeper is the one on the last 's' read so far |
| LevelDecoding.DecodeStep | src/sokochan/SokochanEngine.java:77-96 | each step preserves the loop invariant |
| LevelDecoding.DecodeFromInvariant | src/sokochan/SokochanEngine.java:77-96 | the rest of the loop ends with the invariant at the last cell |
| LevelDecoding.InitialInvariant | src/sokochan/SokochanEngine.java:69-75 | the invariant holds before the loop |
| LevelDecoding.FinalInvariant | src/sokochan/SokochanEngine.java:77-98 | at the last cell the invariant is the full decoding property |
| LevelDecoding.DecodeLevelCorrect | src/sokochan/SokochanEngine.java:69-98 | every cell holds what its character says and the grid is consistent; the crates are all crate objects, in row-major order; the keeper is on the last 's', and is absent when there is none |
| LevelDecoding.DecodeFromCrateCount | src/sokochan/SokochanEngine.java:77-96 | the loop adds one crate per 'c' or 'C' it reads |
| LevelDecoding.CrateCount | src/sokochan/SokochanEngine.java:185-187 | getCratesCount() is the number of 'c' or 'C' characters the iterator reads, which is every one in a rectangular level |
| Engine.UndoBoard | src/sokochan/SokochanEngine.java:137-146 | the undone grid stays consistent and populated, and keeps the classes of its objects |
| Engine.UndoRestores | src/sokochan/SokochanEngine.java:131-149 | undo right after a recorded move (status 0 or 1) finds its crate and restores the grid exactly |
| Engine.UndoRestoresPush | src/sokochan/SokochanEngine.java:137-143 | when a crate was in front, the recorded push is status 1, the crate is found again in front and undo restores the grid exactly |
| Engine.PushedCrateAhead | src/sokochan/GridObjects/WarehouseKeeper.java:64-86 | a push that reports 1 moved the crate and then the keeper, both legally, and leaves the crate again next to the keeper in the push direction |
| Engine.BuildLevel | src/sokochan/SokochanEngine.java:69-98 | the loop over the MapIterator leaves a new, playable grid decoded from the level, as DecodeLevelCorrect states |
| Engine.StepBack | src/sokochan/SokochanEngine.java:137-146 | the grid is changed as UndoBoard says and the level stays playable: consistent, populated, with the same crates list and keeper |
| Engine.Shift | src/sokochan/SokochanEngine.java:140-145 | one move call of undo changes the grid as Boards.Move says and keeps the level playable |
| Engine.Push | src/sokochan/SokochanEngine.java:109 | the keeper's movePushing changes the grid as Boards.MovePushing says, returns its status and keeps the level playable |
| Engine.SokochanEngine.constructor | src/sokochan/SokochanEngine.java:41-54 | levels and map name come from the loader; counters and history start empty; level 0, if there is one, is decoded into the grid |
| Engine.SokochanEngine.LoadLevel | src/sokochan/SokochanEngine.java:56-99 | the index, move count and history are reset; a missing level changes nothing else; an existing level is decoded into a new grid |
| Engine.SokochanEngine.MovePlayer | src/sokochan/SokochanEngine.java:105-129 | the grid is movePushing's result; true exactly for status 0 or 1; only status 1 counts a push; a true result counts a move and records it in the history |
| Engine.SokochanEngine.Record | src/sokochan/SokochanEngine.java:111-126 | true exactly for status 0 or 1; status 1 counts a push; a true result counts a move and pushes the entry on the history; nothing else changes |
| Engine.SokochanEngine.Undo | src/sokochan/SokochanEngine.java:131-149 | an empty history changes nothing; otherwise the top entry is removed, the grid is undone as UndoBoard says and the move count goes down by one |
| Engine.SokochanEngine.Revert | src/sokochan/SokochanEngine.java:135-148 | the top entry is removed, the grid is undone as UndoBoard says and the move count goes down by one; the push count stays |
| Engine.SokochanEngine.Forget | src/sokochan/SokochanEngine.java:135-148 | the popped entry was on top, the rest of the history is kept and the move count goes down by one; the grid is untouched |
| Engine.SokochanEngine.IsComplete | src/sokochan/SokochanEngine.java:156-163 | true exactly when every crate in the list is on a diamond, that is, every crate object of the grid |

## Left out

- File access is left out: `Files.lines`, the `File` constructors of the engine, the hard-coded default path and `MapLoader.main`. The loader and the engine take the file's lines as a parameter.
- `saveGame` is left out. It is a stub that always returns false.
- The console and JavaFX front ends are left out. They are not part of the core.
- The getters of the engine, of `MapLoader` and of `Level` are plain field reads.
- `Engine.SokochanEngine.LoadLevel` requires the level to have at least one row, a non-empty first row, and no row shorter than the first. Java throws an unchecked exception for such a level in the middle of `loadLevel`, with half of the state already reset.
- `Engine.SokochanEngine.LoadLevel` treats a level with no 's' cell as having no keeper. Java keeps the previous level's keeper object, which still points at the old grid.
- `Engine.SokochanEngine.Undo` requires the crate to be in front of the keeper when the top entry records a push. Java stops at the `assert` or throws a NullPointerException otherwise, after it has already popped the entry and moved the keeper back. `Engine.UndoRestores` proves the requirement holds right after the move that recorded the entry. It can fail later in play: a recorded push followed by an unrecorded status-2 or status-3 push in another direction leaves no crate in front of the keeper.
- `Engine.SokochanEngine.Revert` has the same requirement as `Undo`, for the same reason.
- `Engine.BuildLevel` requires the level to have at least one row, a non-empty first row, and no row shorter than the first, as `LoadLevel` does.
- `Engine.SokochanEngine.constructor` requires the same of level 0, since it loads that level.
- `Engine.SokochanEngine.MovePlayer` requires a loaded level with a keeper. Java throws a NullPointerException otherwise.
- `Boards.MovePushing` requires every cell to be populated. On a grid that still has null cells, Java's `getTile(...).setPlacedObject` can throw.
- `Grid.SokochanGrid.PopulateWithTiles` requires a grid of at least one cell, or a single row of width 0. On a grid of width 0 and height 1 `hasNext` is false at once and nothing happens. On every other empty shape the Java iterator's first `next` indexes outside the array.
- `Grid.SokochanGrid.constructor` requires non-negative sizes. Java throws `NegativeArraySizeException` otherwise.
- Tiles are values stored in their cells, so there is no aliasing between tile objects. A tile object can only be shared between two cells through `setGridTile`, which the core never does.
- Positions are fresh values. No `Point` is shared between objects.
- Java's 32-bit `int` is not modelled for the counters and coordinates. They are unbounded.
- `Letters.ToLower` covers ASCII letters only. Java's `Character.toLowerCase` covers all of Unicode.
- `printStackTrace` on a missing level index is not modelled.
