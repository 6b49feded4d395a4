# Level model of the laser puzzle

A Dafny model of the `Level` aggregate of the laser puzzle (`src/level.js`). The
level holds a grid of buildings indexed `[x][z]`. It keeps the ordered list of
objects it updates every tick and places the goal one cell beyond the grid, at
`(width, 2)`. It tracks whether the level is still in progress or has
succeeded. It routes the laser cell by cell: open space lets the beam run to
infinity, an occupied cell lets the building answer. It writes its layout as
text, and it keeps track of the chosen building and the cursor shown over it.

Files:

- `wrappers.dfy`: `Option`, standing in for `null`.
- `grid_coordinates.dfy`: grid-to-world conversions, which scale by the grid
  spacing 3.
- `layout_spec.dfy`: the text written by `getSpec`. It also holds a reader for
  exactly that grammar, and the proof that reading gives back every layout
  whose descriptors hold no single quote.
- `level.dfy`: buildings, objects and state as datatypes. `BuildingCursor` and
  `Level` are classes whose methods update their fields in place. The
  constructor's loops, `getSpec`, `update` and the selection loop are written
  as `while` loops with invariants.

Collaborators whose code is not part of this model are represented as follows:

- A building is a value. It holds its cell, its descriptor and its answer to
  the laser, a function of the laser's location.
- `Building.fromSpec` is `MakeBuilding`. What a descriptor means comes from a
  `behaviour` parameter given to the constructor.
- `Laser.Handling` is `Handling`. `INFINITY` is its own constructor.
- The state machine is a `State` field.
- The cursor is an object with a cell and a shown flag.
- The picking ray is reduced to its nearest hit and the buildings' ownership
  test.

Two behaviours of the code a reader might not expect:

- Lookup bounds come from the grid itself (`buildingGrid.length`,
  `buildingGrid[x].length`), not from `width` and `depth`. A layout wider than
  `width` can therefore put a building on the goal's cell, and then the laser
  never reaches the goal.
- A ragged layout is not rejected. Each row gets as many buildings as it has
  descriptors.

## Model

| member | source | states |
|---|---|---|
| `GridCoordinates.GridXToWorld` | src/level.js:116-118 | multiplies by GRID_SPACING (3): the world x is a whole multiple of 3, and dividing by 3 gives the cell back |
| `GridCoordinates.GridZToWorld` | src/level.js:120-122 | multiplies by GRID_SPACING (3): the world z is a whole multiple of 3, and dividing by 3 gives the cell back |
| `GridCoordinates.GridLengthToWorld` | src/level.js:124-126 | multiplies by GRID_SPACING (3): the world length is a whole multiple of 3, and dividing by 3 gives the cell count back |
| `GridCoordinates.ConversionsAgree` | src/level.js:116-126 | the x, z and length conversions agree on every input |
| `GridCoordinates.GridXToWorldLinear` | src/level.js:116-118 | cell 0 is the world origin and the x conversion is additive (no offset, no clamping) |
| `GridCoordinates.GridZToWorldLinear` | src/level.js:120-122 | cell 0 is the world origin and the z conversion is additive |
| `GridCoordinates.NeighbourSpacing` | src/level.js:3 | neighbouring cells lie exactly one cell length apart in world space |
| `LayoutSpec.CellsTextSnoc` | src/level.js:94-101 | appending a cell to a row appends its quoted descriptor, after ", " unless the row was empty |
| `LayoutSpec.RowsTextSnoc` | src/level.js:91-107 | appending a row appends its bracketed text, after "," unless the grid was empty |
| `LayoutSpec.SplitAtQuote` | src/level.js:96 | splitting at the first quote yields a quote-free prefix that rebuilds the input; it fails exactly when there is no quote |
| `LayoutSpec.ParseQuoted` | src/level.js:96 | a quoted cell read from the text is quote-free and rebuilds the text |
| `LayoutSpec.ParseCellList` | src/level.js:94-101 | a cell list that is read back is non-empty and quote-free, and rewriting it gives the same text |
| `LayoutSpec.ParseRow` | src/level.js:94-101 | a row that is read back rewrites to the same text |
| `LayoutSpec.ParseRowList` | src/level.js:91-107 | a row list that is read back is non-empty and quote-free, and rewriting it gives the same text |
| `LayoutSpec.ParseSpecText` | src/level.js:84-88 | a layout is read only from exactly the text the writer produces for it (trailing text is refused) |
| `LayoutSpec.SpecRoundTrip` | src/level.js:90-109 | reading the text written for a quote-free layout gives that layout back |
| `LayoutSpec.ParseSpecTextExactly` | src/level.js:84-109 | a text reads as layout g exactly when it is g's text and g is quote-free |
| `LayoutSpec.SpecTextInjective` | src/level.js:90-109 | distinct quote-free layouts are written as distinct texts |
| `LayoutSpec.EmptySpecText` | src/level.js:90-109 | an empty grid is written `{buildingGridSpec: []}` |
| `Levels.MakeDefaultSpec` | src/level.js:30-39 | the default layout has one row per x below `width`, each with one stop-block descriptor per z below `depth` (none when they are not positive) |
| `Levels.BuildGrid` | src/level.js:40-54 | the grid has the layout's shape, the building at [x][z] stands on (x, z) and is made from descriptor [x][z], and the object list holds the buildings in push order |
| `Levels.BuildingObjectsOrder` | src/level.js:40-54 | buildings are listed x-major and z-minor: the building at [x][z] is object number (cells of earlier rows) + z |
| `Levels.BuildingObjectsInGrid` | src/level.js:51-52 | every building in the object list stands in the grid at its own (gridX, gridZ) |
| `Levels.DescriptorsOfBuiltGrid` | src/level.js:40-54 | the descriptors of a grid built from a layout are that layout |
| `Levels.LastOwnerIsLast` | src/level.js:203-211 | the chosen building is one that owns the hit, and no later building does; there is none exactly when no building owns the hit |
| `Levels.LastOwnerListed` | src/level.js:206-208 | the chosen building is one of the listed objects |
| `Levels.CellStep` | src/level.js:95-100 | one turn of the cell loop extends the row text by a quoted cell and its separator |
| `Levels.RowStep` | src/level.js:101-105 | one turn of the row loop extends the grid text by a row and its separator |
| `Levels.BuildingCursor.AddToScene` | src/level.js:221 | showing the cursor keeps its cell |
| `Levels.BuildingCursor.RemoveFromScene` | src/level.js:217 | hiding the cursor keeps its cell |
| `Levels.Level.constructor` | src/level.js:8-82 | defaults are 5 x 5 with no layout; without a layout the default one is generated; the grid is built from the layout; objects are buildings, laser, goal, cursor; goal at (width, 2); state IN_PROGRESS; nothing chosen and cursor hidden |
| `Levels.Level.FromSpec` | src/level.js:84-88 | a level is built exactly when the text reads as a layout, and then from that layout, with the given building factory and editor flag |
| `Levels.Level.GetBuildingFromGrid` | src/level.js:141-149 | null exactly when x is outside the grid's rows or z outside row x; otherwise the building at [x][z], which stands on (x, z) |
| `Levels.Level.HandleLaser` | src/level.js:151-161 | open space returns INFINITY and sets SUCCESS exactly on the goal's cell, otherwise leaves the state; an occupied cell returns the building's own answer and leaves the state; the only change is to SUCCESS |
| `Levels.Level.GoalCellIsOpen` | src/level.js:62-67 | when the grid has no more rows than `width`, the goal's cell is open space |
| `Levels.Level.GetSpec` | src/level.js:90-109 | the text is the nested quoted layout of the buildings' descriptors, x-major and z-minor; an empty grid gives `{buildingGridSpec: []}`; reading it back gives the level's layout |
| `Levels.Level.Update` | src/level.js:128-135 | objects are updated as buildings (x-major), laser, goal, cursor, then the editor if attached |
| `Levels.Level.UpdateChosenBuilding` | src/level.js:215-223 | the cursor is hidden when nothing is chosen, otherwise shown over the chosen building's cell |
| `Levels.Level.SetCursorPosition` | src/level.js:200-213 | the chosen building is the last listed building owning the nearest hit, or none when nothing was hit; the cursor follows it |
| `Levels.Level.UpPress` | src/level.js:225-229 | nothing is sent when nothing is chosen; otherwise exactly one up command goes to the chosen building, which stands in the grid under the shown cursor |
| `Levels.Level.DownPress` | src/level.js:231-235 | nothing is sent when nothing is chosen; otherwise exactly one down command goes to the chosen building, which stands in the grid under the shown cursor |
| `Levels.DefaultLevel` | src/level.js:9-14 | a default level is a 5 x 5 grid of stop blocks, each on its own cell, with the goal at (5, 2), in progress, and the goal cell open |
| `Levels.GoalScenario` | src/level.js:151-161 | in a 2 x 2 level a beam along z = 2 meets open space twice, then the goal; the state stays SUCCESS on a further hit |
| `Levels.BuiltFromUnique` | src/level.js:40-54 | a layout and a building factory determine the grid built from them |
| `Levels.RebuildFromSpec` | src/level.js:84-109 | building a level from another level's written layout, with the same factory, reproduces its grid of buildings and of descriptors |

## Left out

- Rendering is not modelled. That covers the THREE.js scene, camera, lights, grid meshes, `moveCamera`, `setupGridGeometry`, `setupLights`, `render` and `cameraAspect`: they are foreign library calls and floating-point geometry.
- The picking ray (`raycaster.setFromCamera`, `intersectObjects`) is not modelled, because it is floating-point picking inside a foreign library. `SetCursorPosition` takes the nearest hit, or none, and `Building.ownsSceneObject` as parameters.
- Levels.Level.FromSpec: `Level.fromSpec` also writes the parsed layout into the caller's options object (`options.buildingGridSpec`, src/level.js:86). The model passes the layout to the constructor and does not model that write to the caller's object.
- `parseSpec` is not part of this model. `FromSpec` reads with `ParseSpecText`, which accepts exactly the grammar `getSpec` writes and no other object-literal forms.
- Levels.Level.GetSpec: a descriptor that contains a single quote is written unescaped and is not read back. The round trip is stated only for quote-free layouts.
- The internals of `Building`, `Laser`, `GoalBuilding`, `BuildingCursor`, `StateMachine`, `LevelEditor` and `objectUtil.initWithDefaults` are not modelled. The constructor's default parameters stand for the option defaults, and the `devMode` flag stands for the global `DEV_MODE`.
- A building's answer to the laser is modelled as a function of the laser location alone. Any effect it has on the building itself is not modelled.
- Levels.Level.UpPress: what the building does with the command is not modelled. A building's descriptor is taken to be what it was built from, so raising or lowering does not change what `getSpec` writes.
- Levels.Level.Update: the time step and what each object's own `update` does are not modelled. In the source the laser's update calls `handleLaser`. The model returns the order of the calls.
- `Building.fromSpec` rejecting an unknown descriptor is not modelled, because the factory is taken to be total.
- `GoalBuilding`, the laser and the cursor are never chosen: selection keeps only building objects. They are built into the main scene, not the interactive one (src/level.js:56-76), and the source also keeps only `instanceof Building` hits (src/level.js:207), so a pick can never choose them.
- The grid conversions take integer arguments. A fractional JavaScript number passed to them is not modelled.
- `width` and `depth` are modelled as integers. A fractional JavaScript number, which would change how many times the default-layout loops run, is not modelled.
