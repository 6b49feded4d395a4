/**
 * The level aggregate of the laser puzzle: a grid of buildings indexed
 * [x][z], the ordered list of objects updated every tick, the goal one cell
 * beyond the grid, the completion state, the laser routing dispatcher, the
 * textual layout writer and the chosen-building / cursor selection.
 *
 * Buildings, the laser, the goal, the cursor and the state machine are
 * collaborators whose code is not part of this model: a building is a value
 * that knows its cell, its descriptor and how it answers a laser; the cursor
 * is an object with a cell and a shown/hidden flag.
 */
module Levels {
  import opened Wrappers
  import opened LayoutSpec

  /** `Level.State`: IN_PROGRESS is 0, SUCCESS is 1. */
  datatype State = InProgress | Success

  /** `Laser.Handling`: INFINITY, or any other answer a building may give. */
  datatype Handling = Infinity | Handled(code: int)

  /** Where the beam is and where it heads, as the laser describes it; the level passes it on unread. */
  datatype LaserLoc = LaserLoc(token: int)

  /**
   * A building placed on cell (gridX, gridZ): `desc` is what its `getSpec`
   * returns and `respond` is its own `handleLaser`.
   */
  datatype Building = Building(gridX: int, gridZ: int, desc: string, respond: LaserLoc -> Handling)

  datatype Goal = Goal(gridX: int, gridZ: int)

  /** Everything whose `update` the level calls. */
  datatype GameObject =
    | BuildingObject(building: Building)
    | LaserObject
    | GoalObject(goal: Goal)
    | CursorObject
    | EditorObject

  /** An object of the interactive scene, as the picking ray reports it. */
  datatype SceneObject = SceneObject(id: int)

  datatype Command = Up | Down

  /** A command the level forwards to one building. */
  datatype BuildingCall = BuildingCall(target: Building, command: Command)

  /** The descriptor of the default building: a stack of two stop blocks. */
  const STOP_BLOCK_SPEC: string := "{blocksSpec: [{blockConstructor: StopBlock}, {blockConstructor: StopBlock}]}"

  const DEFAULT_WIDTH: int := 5
  const DEFAULT_DEPTH: int := 5

  /** The goal's z cell; its x cell is the level's width. */
  const GOAL_Z: int := 2

  /** How many times `for (i = 0; i < n; ++i)` runs. */
  function Count(n: int): (count: nat)
  {
    if n > 0 then n else 0
  }

  /** `Building.fromSpec` at cell (x, z): what the descriptor means is the factory's business. */
  function MakeBuilding(x: int, z: int, desc: string, behaviour: string -> LaserLoc -> Handling): (b: Building)
    ensures b.gridX == x && b.gridZ == z && b.desc == desc
  {
    Building(x, z, desc, behaviour(desc))
  }

  // ---------------------------------------------------------------------------
  // Layout and grid

  /** `width` rows of `depth` stop-block descriptors each. */
  ghost predicate IsDefaultSpec(spec: GridSpec, width: int, depth: int)
  {
    |spec| == Count(width) &&
    forall x :: 0 <= x < |spec| ==>
      |spec[x]| == Count(depth) &&
      forall z :: 0 <= z < |spec[x]| ==> spec[x][z] == STOP_BLOCK_SPEC
  }

  /** The grid holds exactly the buildings made from `spec`, cell by cell, each on its own cell. */
  ghost predicate BuiltFrom(grid: seq<seq<Building>>, spec: GridSpec, behaviour: string -> LaserLoc -> Handling)
  {
    |grid| == |spec| &&
    forall x :: 0 <= x < |grid| ==>
      |grid[x]| == |spec[x]| &&
      forall z :: 0 <= z < |grid[x]| ==> grid[x][z] == MakeBuilding(x, z, spec[x][z], behaviour)
  }

  /** The buildings of one row as objects, in z order. */
  function RowObjects(row: seq<Building>): (objs: seq<GameObject>)
    ensures |objs| == |row|
    ensures forall z :: 0 <= z < |row| ==> objs[z] == BuildingObject(row[z])
  {
    seq(|row|, z requires 0 <= z < |row| => BuildingObject(row[z]))
  }

  /** The buildings of the grid as objects, x-major and z-minor. */
  function BuildingObjects(grid: seq<seq<Building>>): (objs: seq<GameObject>)
    decreases |grid|
  {
    if |grid| == 0 then [] else BuildingObjects(grid[..|grid| - 1]) + RowObjects(grid[|grid| - 1])
  }

  /** Number of buildings in the rows before row x. */
  function RowsBefore(grid: seq<seq<Building>>, x: nat): (cells: nat)
    requires x <= |grid|
    decreases x
  {
    if x == 0 then 0 else RowsBefore(grid, x - 1) + |grid[x - 1]|
  }

  /** The building at [x][z] is object number RowsBefore(grid, x) + z: the order is x-major, z-minor. */
  lemma {:induction false} BuildingObjectsOrder(grid: seq<seq<Building>>, x: int, z: int)
    requires 0 <= x < |grid| && 0 <= z < |grid[x]|
    ensures |BuildingObjects(grid)| == RowsBefore(grid, |grid|)
    ensures RowsBefore(grid, x) + z < |BuildingObjects(grid)|
    ensures BuildingObjects(grid)[RowsBefore(grid, x) + z] == BuildingObject(grid[x][z])
    decreases |grid|
  {
    var n := |grid| - 1;
    var init := grid[..n];
    assert forall i :: 0 <= i <= n ==> RowsBefore(init, i) == RowsBefore(grid, i) by {
      forall i | 0 <= i <= n ensures RowsBefore(init, i) == RowsBefore(grid, i) {
        RowsBeforePrefix(grid, n, i);
      }
    }
    if x == n {
      if n == 0 {
        assert BuildingObjects(grid) == [] + RowObjects(grid[0]);
      } else {
        BuildingObjectsLength(init);
      }
    } else {
      BuildingObjectsOrder(init, x, z);
      assert init[x] == grid[x];
      RowsBeforeGrows(grid, x + 1, n);
    }
    BuildingObjectsLength(grid);
  }

  lemma {:induction false} BuildingObjectsLength(grid: seq<seq<Building>>)
    ensures |BuildingObjects(grid)| == RowsBefore(grid, |grid|)
    decreases |grid|
  {
    if |grid| > 0 {
      var n := |grid| - 1;
      BuildingObjectsLength(grid[..n]);
      RowsBeforePrefix(grid, n, n);
    }
  }

  lemma {:induction false} RowsBeforePrefix(grid: seq<seq<Building>>, n: nat, i: nat)
    requires i <= n <= |grid|
    ensures RowsBefore(grid[..n], i) == RowsBefore(grid, i)
    decreases i
  {
    if i > 0 {
      RowsBeforePrefix(grid, n, i - 1);
    }
  }

  lemma {:induction false} RowsBeforeGrows(grid: seq<seq<Building>>, i: nat, j: nat)
    requires i <= j <= |grid|
    ensures RowsBefore(grid, i) <= RowsBefore(grid, j)
    decreases j - i
  {
    if i < j {
      RowsBeforeGrows(grid, i, j - 1);
    }
  }

  /** Every building object of the grid is the building standing in its own cell. */
  lemma {:induction false} BuildingObjectsInGrid(grid: seq<seq<Building>>, spec: GridSpec, behaviour: string -> LaserLoc -> Handling, b: Building)
    requires BuiltFrom(grid, spec, behaviour)
    requires BuildingObject(b) in BuildingObjects(grid)
    ensures InGrid(grid, b)
    decreases |grid|
  {
    var n := |grid| - 1;
    var init := grid[..n];
    if BuildingObject(b) in RowObjects(grid[n]) {
      var z :| 0 <= z < |grid[n]| && RowObjects(grid[n])[z] == BuildingObject(b);
      assert b == grid[n][z];
    } else {
      assert BuiltFrom(init, spec[..n], behaviour) by {
        forall x | 0 <= x < |init| ensures |init[x]| == |spec[..n][x]| {
          assert init[x] == grid[x];
        }
      }
      BuildingObjectsInGrid(init, spec[..n], behaviour, b);
    }
  }

  /** A layout and a building factory determine the grid built from them. */
  lemma BuiltFromUnique(g1: seq<seq<Building>>, g2: seq<seq<Building>>, spec: GridSpec, behaviour: string -> LaserLoc -> Handling)
    requires BuiltFrom(g1, spec, behaviour) && BuiltFrom(g2, spec, behaviour)
    ensures g1 == g2
  {
    forall x | 0 <= x < |g1| ensures g1[x] == g2[x] {
      assert |g1[x]| == |g2[x]|;
    }
  }

  /** Building b stands at its own cell of the grid. */
  ghost predicate InGrid(grid: seq<seq<Building>>, b: Building)
  {
    0 <= b.gridX < |grid| && 0 <= b.gridZ < |grid[b.gridX]| && grid[b.gridX][b.gridZ] == b
  }

  /**
   * The default layout of the constructor: a row per x below `width`, each
   * holding a stop-block descriptor per z below `depth`.
   */
  method MakeDefaultSpec(width: int, depth: int) returns (spec: GridSpec)
    ensures IsDefaultSpec(spec, width, depth)
  {
    spec := [];
    var x := 0;
    while x < width
      invariant 0 <= x <= Count(width) && |spec| == x
      invariant forall i :: 0 <= i < x ==> |spec[i]| == Count(depth)
      invariant forall i, z :: 0 <= i < x && 0 <= z < |spec[i]| ==> spec[i][z] == STOP_BLOCK_SPEC
    {
      spec := spec + [[]];
      var z := 0;
      while z < depth
        invariant 0 <= z <= Count(depth) && |spec| == x + 1 && |spec[x]| == z
        invariant forall i :: 0 <= i < x ==> |spec[i]| == Count(depth)
        invariant forall i, k :: 0 <= i <= x && 0 <= k < |spec[i]| ==> spec[i][k] == STOP_BLOCK_SPEC
      {
        spec := spec[x := spec[x] + [STOP_BLOCK_SPEC]];
        z := z + 1;
      }
      x := x + 1;
    }
  }

  /**
   * The grid-building loop of the constructor: a building per descriptor,
   * placed on its own cell, pushed onto its row of the grid and onto the
   * object list.
   */
  method BuildGrid(spec: GridSpec, behaviour: string -> LaserLoc -> Handling)
    returns (grid: seq<seq<Building>>, objects: seq<GameObject>)
    ensures BuiltFrom(grid, spec, behaviour)
    ensures objects == BuildingObjects(grid)
  {
    grid, objects := [], [];
    var x := 0;
    while x < |spec|
      invariant 0 <= x <= |spec| && |grid| == x
      invariant forall i :: 0 <= i < x ==> |grid[i]| == |spec[i]|
      invariant forall i, z :: 0 <= i < x && 0 <= z < |grid[i]| ==> grid[i][z] == MakeBuilding(i, z, spec[i][z], behaviour)
      invariant objects == BuildingObjects(grid)
    {
      var rowSpec := spec[x];
      OpenRow(grid);
      grid := grid + [[]];
      var z := 0;
      while z < |rowSpec|
        invariant 0 <= z <= |rowSpec| && |grid| == x + 1 && |grid[x]| == z
        invariant forall i :: 0 <= i < x ==> |grid[i]| == |spec[i]|
        invariant forall i, k :: 0 <= i <= x && 0 <= k < |grid[i]| ==> grid[i][k] == MakeBuilding(i, k, spec[i][k], behaviour)
        invariant objects == BuildingObjects(grid)
      {
        var building := MakeBuilding(x, z, rowSpec[z], behaviour);
        PushCell(grid, building);
        objects := objects + [BuildingObject(building)];
        grid := grid[x := grid[x] + [building]];
        z := z + 1;
      }
      x := x + 1;
    }
  }

  /** Opening an empty row adds no building object. */
  lemma OpenRow(grid: seq<seq<Building>>)
    ensures BuildingObjects(grid + [[]]) == BuildingObjects(grid)
  {
    assert (grid + [[]])[..|grid|] == grid;
  }

  /** Pushing a building onto the last row appends it to the object list. */
  lemma PushCell(grid: seq<seq<Building>>, b: Building)
    requires |grid| > 0
    ensures BuildingObjects(grid[|grid| - 1 := grid[|grid| - 1] + [b]]) == BuildingObjects(grid) + [BuildingObject(b)]
  {
    var n := |grid| - 1;
    var after := grid[n := grid[n] + [b]];
    assert after[..n] == grid[..n];
    assert RowObjects(after[n]) == RowObjects(grid[n]) + [BuildingObject(b)];
  }

  // ---------------------------------------------------------------------------
  // Selection

  /** The object owns the picked scene object and is a building. */
  predicate OwnsHit(o: GameObject, hit: SceneObject, owns: (Building, SceneObject) -> bool)
  {
    o.BuildingObject? && owns(o.building, hit)
  }

  /** The last building of `objects` that owns the picked scene object, if any. */
  function LastOwner(objects: seq<GameObject>, hit: SceneObject, owns: (Building, SceneObject) -> bool): (owner: Option<Building>)
    decreases |objects|
  {
    if |objects| == 0 then None
    else if OwnsHit(objects[|objects| - 1], hit, owns) then Some(objects[|objects| - 1].building)
    else LastOwner(objects[..|objects| - 1], hit, owns)
  }

  /** LastOwner finds no building exactly when no building owns the hit. */
  lemma {:induction false} LastOwnerNone(objects: seq<GameObject>, hit: SceneObject, owns: (Building, SceneObject) -> bool)
    ensures LastOwner(objects, hit, owns).None? <==> forall i :: 0 <= i < |objects| ==> !OwnsHit(objects[i], hit, owns)
    decreases |objects|
  {
    if |objects| > 0 {
      var n := |objects| - 1;
      if !OwnsHit(objects[n], hit, owns) {
        LastOwnerNone(objects[..n], hit, owns);
        assert forall i :: 0 <= i < n ==> objects[..n][i] == objects[i];
      }
    }
  }

  /** What LastOwner finds owns the hit, and no later object does. */
  lemma {:induction false} LastOwnerSome(objects: seq<GameObject>, hit: SceneObject, owns: (Building, SceneObject) -> bool)
    ensures LastOwner(objects, hit, owns).Some? ==>
      exists i :: 0 <= i < |objects| && objects[i] == BuildingObject(LastOwner(objects, hit, owns).value) &&
        OwnsHit(objects[i], hit, owns) &&
        forall j :: i < j < |objects| ==> !OwnsHit(objects[j], hit, owns)
    decreases |objects|
  {
    if |objects| > 0 {
      var n := |objects| - 1;
      var init := objects[..n];
      if OwnsHit(objects[n], hit, owns) {
        assert objects[n] == BuildingObject(LastOwner(objects, hit, owns).value);
      } else {
        LastOwnerSome(init, hit, owns);
        if LastOwner(init, hit, owns).Some? {
          var i :| 0 <= i < n && init[i] == BuildingObject(LastOwner(init, hit, owns).value) &&
            OwnsHit(init[i], hit, owns) && forall j :: i < j < n ==> !OwnsHit(init[j], hit, owns);
          assert objects[i] == init[i];
          forall j | i < j < |objects| ensures !OwnsHit(objects[j], hit, owns) {
            if j < n {
              assert objects[j] == init[j];
            }
          }
        }
      }
    }
  }

  /** LastOwner finds a building owning the hit exactly when there is one, and no later one owns it. */
  lemma {:induction false} LastOwnerIsLast(objects: seq<GameObject>, hit: SceneObject, owns: (Building, SceneObject) -> bool)
    ensures LastOwner(objects, hit, owns).None? <==> forall i :: 0 <= i < |objects| ==> !OwnsHit(objects[i], hit, owns)
    ensures LastOwner(objects, hit, owns).Some? ==>
      exists i :: 0 <= i < |objects| && objects[i] == BuildingObject(LastOwner(objects, hit, owns).value) &&
        OwnsHit(objects[i], hit, owns) &&
        forall j :: i < j < |objects| ==> !OwnsHit(objects[j], hit, owns)
  {
    LastOwnerNone(objects, hit, owns);
    LastOwnerSome(objects, hit, owns);
  }

  /** What LastOwner finds is one of the listed objects. */
  lemma LastOwnerListed(objects: seq<GameObject>, hit: SceneObject, owns: (Building, SceneObject) -> bool)
    ensures LastOwner(objects, hit, owns).Some? ==> BuildingObject(LastOwner(objects, hit, owns).value) in objects
  {
    LastOwnerIsLast(objects, hit, owns);
  }

  // ---------------------------------------------------------------------------
  // The cursor

  /** `BuildingCursor`: the marker over the chosen cell. */
  class BuildingCursor {
    var gridX: int
    var gridZ: int
    var inScene: bool

    constructor ()
    {
      gridX, gridZ, inScene := 0, 0, false;
    }

    method AddToScene()
      modifies this
      ensures inScene && gridX == old(gridX) && gridZ == old(gridZ)
    {
      inScene := true;
    }

    method RemoveFromScene()
      modifies this
      ensures !inScene && gridX == old(gridX) && gridZ == old(gridZ)
    {
      inScene := false;
    }
  }

  // ---------------------------------------------------------------------------
  // The level

  class Level {
    const width: int
    const depth: int
    /** The building factory's reading of a descriptor (what `Building.fromSpec` builds). */
    const behaviour: string -> LaserLoc -> Handling
    /** Whether a level editor was attached at construction. */
    const editor: bool
    const goal: Goal
    const buildingCursor: BuildingCursor
    var buildingGridSpec: GridSpec
    var buildingGrid: seq<seq<Building>>
    var objects: seq<GameObject>
    var state: State
    var chosenBuilding: Option<Building>

    /** The grid is built from the layout, the objects are listed in update order and the goal sits at (width, 2). */
    ghost predicate GridValid()
      reads this
    {
      BuiltFrom(buildingGrid, buildingGridSpec, behaviour) &&
      objects == BuildingObjects(buildingGrid) + [LaserObject, GoalObject(goal), CursorObject] &&
      goal == Goal(width, GOAL_Z) &&
      (chosenBuilding.Some? ==> InGrid(buildingGrid, chosenBuilding.value))
    }

    /** The cursor is shown exactly when a building is chosen, and then over that building's cell. */
    ghost predicate CursorShowsChoice()
      reads this, buildingCursor
    {
      if chosenBuilding.None? then !buildingCursor.inScene
      else
        buildingCursor.inScene &&
        buildingCursor.gridX == chosenBuilding.value.gridX &&
        buildingCursor.gridZ == chosenBuilding.value.gridZ
    }

    ghost predicate Valid()
      reads this, buildingCursor
    {
      GridValid() && CursorShowsChoice()
    }

    /**
     * `new Level(options)`: options default to a 5 x 5 grid and no layout;
     * without a layout the default stop-block layout is generated. `devMode`
     * says whether an editor is attached.
     */
    constructor (behaviour: string -> LaserLoc -> Handling, devMode: bool,
                 width: int := DEFAULT_WIDTH, depth: int := DEFAULT_DEPTH,
                 gridSpec: Option<GridSpec> := None)
      ensures Valid() && fresh(buildingCursor)
      ensures this.width == width && this.depth == depth
      ensures this.behaviour == behaviour && editor == devMode
      ensures gridSpec.Some? ==> buildingGridSpec == gridSpec.value
      ensures gridSpec.None? ==> IsDefaultSpec(buildingGridSpec, width, depth)
      ensures goal == Goal(width, GOAL_Z)
      ensures state == InProgress && chosenBuilding == None && !buildingCursor.inScene
    {
      this.width := width;
      this.depth := depth;
      this.behaviour := behaviour;
      editor := devMode;
      var spec: GridSpec;
      if gridSpec.None? {
        spec := MakeDefaultSpec(width, depth);
      } else {
        spec := gridSpec.value;
      }
      buildingGridSpec := spec;
      var grid, buildings := BuildGrid(spec, behaviour);
      buildingGrid := grid;
      var g := Goal(width, GOAL_Z);
      goal := g;
      state := InProgress;
      chosenBuilding := None;
      buildingCursor := new BuildingCursor();
      objects := buildings + [LaserObject, GoalObject(g), CursorObject];
      new;
      UpdateChosenBuilding();
    }

    /** `Level.fromSpec`: reads the layout text, then constructs the level from it; unreadable text gives no level. */
    static method FromSpec(behaviour: string -> LaserLoc -> Handling, devMode: bool, text: string,
                           width: int := DEFAULT_WIDTH, depth: int := DEFAULT_DEPTH)
      returns (level: Option<Level>)
      ensures level.None? <==> ParseSpecText(text).None?
      ensures level.Some? ==>
        fresh(level.value) && level.value.Valid() &&
        level.value.buildingGridSpec == ParseSpecText(text).value &&
        level.value.width == width && level.value.depth == depth &&
        level.value.behaviour == behaviour && level.value.editor == devMode &&
        level.value.state == InProgress && level.value.chosenBuilding.None?
    {
      var parsed := ParseSpecText(text);
      if parsed.None? {
        return None;
      }
      var l := new Level(behaviour, devMode, width, depth, Some(parsed.value));
      return Some(l);
    }

    /** `getBuildingFromGrid`: bounds come from the grid itself, not from width and depth. */
    function GetBuildingFromGrid(x: int, z: int): (r: Option<Building>)
      reads this
      ensures r.None? <==> !(0 <= x < |buildingGrid| && 0 <= z < |buildingGrid[x]|)
      ensures r.Some? ==> r.value == buildingGrid[x][z]
      ensures r.Some? && GridValid() ==>
        r.value.gridX == x && r.value.gridZ == z && r.value.desc == buildingGridSpec[x][z]
    {
      if x < 0 || x >= |buildingGrid| then None
      else if z < 0 || z >= |buildingGrid[x]| then None
      else Some(buildingGrid[x][z])
    }

    /**
     * `handleLaser`: an empty or off-grid cell is open space, where the beam
     * goes on to infinity and, on the goal's cell, the level succeeds; an
     * occupied cell answers for itself.
     */
    method HandleLaser(x: int, z: int, loc: LaserLoc) returns (h: Handling)
      modifies this`state
      ensures GetBuildingFromGrid(x, z).None? ==>
        h == Infinity &&
        state == (if x == goal.gridX && z == goal.gridZ then Success else old(state))
      ensures GetBuildingFromGrid(x, z).Some? ==>
        h == GetBuildingFromGrid(x, z).value.respond(loc) && state == old(state)
      ensures state == old(state) || state == Success
      ensures old(Valid()) ==> Valid()
    {
      var building := GetBuildingFromGrid(x, z);
      if building.None? {
        if x == goal.gridX && z == goal.gridZ {
          state := Success;
        }
        h := Infinity;
      } else {
        h := building.value.respond(loc);
      }
    }

    /** In a layout no wider than `width`, the goal's cell is open space, so the laser can reach it. */
    lemma GoalCellIsOpen()
      requires GridValid() && |buildingGrid| <= width
      ensures GetBuildingFromGrid(goal.gridX, goal.gridZ).None?
    {
    }

    /** `getSpec`: the layout text of the buildings' own descriptors, x-major and z-minor. */
    method GetSpec() returns (text: string)
      ensures text == SpecText(Descriptors(buildingGrid))
      ensures |buildingGrid| == 0 ==> text == "{buildingGridSpec: []}"
      ensures GridValid() && QuoteFree(buildingGridSpec) ==> ParseSpecText(text) == Some(buildingGridSpec)
    {
      ghost var descs := Descriptors(buildingGrid);
      var gridText := "[";
      var x := 0;
      while x < |buildingGrid|
        invariant 0 <= x <= |buildingGrid|
        invariant gridText == "[" + RowsText(descs[..x]) + (if 0 < x < |buildingGrid| then "," else "")
      {
        var row := buildingGrid[x];
        var rowText := "[";
        var z := 0;
        while z < |row|
          invariant 0 <= z <= |row|
          invariant rowText == "[" + CellsText(descs[x][..z]) + (if 0 < z < |row| then ", " else "")
        {
          ghost var before := rowText;
          rowText := rowText + "'" + row[z].desc + "'";
          if z < |row| - 1 {
            rowText := rowText + ", ";
          }
          CellStep(descs[x], z, before, rowText);
          z := z + 1;
        }
        ghost var before := gridText;
        assert descs[x][..z] == descs[x];
        RowClose(descs[x], rowText);
        rowText := rowText + "]";
        gridText := gridText + rowText;
        if x < |buildingGrid| - 1 {
          gridText := gridText + ",";
        }
        RowStep(descs, x, before, gridText);
        x := x + 1;
      }
      assert descs[..x] == descs;
      SpecClose(descs, gridText);
      gridText := gridText + "]";
      text := "{buildingGridSpec: " + gridText + "}";
      if GridValid() && QuoteFree(buildingGridSpec) {
        DescriptorsOfBuiltGrid(buildingGrid, buildingGridSpec, behaviour);
        SpecRoundTrip(buildingGridSpec);
      }
    }

    /** `update`: every object in registration order, then the editor if one is attached. */
    method Update() returns (visited: seq<GameObject>)
      requires GridValid()
      ensures visited == BuildingObjects(buildingGrid) + [LaserObject, GoalObject(goal), CursorObject] +
        (if editor then [EditorObject] else [])
    {
      visited := [];
      var i := 0;
      while i < |objects|
        invariant 0 <= i <= |objects| && visited == objects[..i]
      {
        visited := visited + [objects[i]];
        i := i + 1;
      }
      assert objects[..i] == objects;
      if editor {
        visited := visited + [EditorObject];
      }
    }

    /** `updateChosenBuilding`: hide the cursor, or show it over the chosen building. */
    method UpdateChosenBuilding()
      modifies buildingCursor
      ensures CursorShowsChoice()
      ensures chosenBuilding.None? ==>
        buildingCursor.gridX == old(buildingCursor.gridX) && buildingCursor.gridZ == old(buildingCursor.gridZ)
    {
      if chosenBuilding.None? {
        buildingCursor.RemoveFromScene();
      } else {
        buildingCursor.gridX := chosenBuilding.value.gridX;
        buildingCursor.gridZ := chosenBuilding.value.gridZ;
        buildingCursor.AddToScene();
      }
    }

    /**
     * `setCursorPosition`, after the picking ray: `hit` is the nearest scene
     * object the ray met (None when it met nothing) and `owns` is
     * `Building.ownsSceneObject`. The last listed building owning the hit is
     * chosen.
     */
    method SetCursorPosition(hit: Option<SceneObject>, owns: (Building, SceneObject) -> bool)
      requires GridValid()
      modifies this`chosenBuilding, buildingCursor
      ensures Valid()
      ensures chosenBuilding == if hit.None? then None else LastOwner(objects, hit.value, owns)
    {
      chosenBuilding := None;
      if hit.Some? {
        var nearest := hit.value;
        var i := 0;
        while i < |objects|
          invariant 0 <= i <= |objects|
          invariant chosenBuilding == LastOwner(objects[..i], nearest, owns)
        {
          if objects[i].BuildingObject? && owns(objects[i].building, nearest) {
            chosenBuilding := Some(objects[i].building);
          }
          assert objects[..i + 1][..i] == objects[..i];
          i := i + 1;
        }
        assert objects[..i] == objects;
        LastOwnerListed(objects, nearest, owns);
        if chosenBuilding.Some? {
          var b := chosenBuilding.value;
          assert BuildingObject(b) in BuildingObjects(buildingGrid);
          BuildingObjectsInGrid(buildingGrid, buildingGridSpec, behaviour, b);
        }
      }
      UpdateChosenBuilding();
    }

    /** `upPress`: forwarded to the chosen building, if any; nothing else happens. */
    method UpPress() returns (calls: seq<BuildingCall>)
      ensures chosenBuilding.None? ==> calls == []
      ensures chosenBuilding.Some? ==> calls == [BuildingCall(chosenBuilding.value, Up)]
      ensures Valid() ==> forall c :: c in calls ==>
        GetBuildingFromGrid(c.target.gridX, c.target.gridZ) == Some(c.target) &&
        buildingCursor.inScene && buildingCursor.gridX == c.target.gridX && buildingCursor.gridZ == c.target.gridZ
    {
      calls := [];
      if chosenBuilding.Some? {
        calls := [BuildingCall(chosenBuilding.value, Up)];
      }
    }

    /** `downPress`: forwarded to the chosen building, if any; nothing else happens. */
    method DownPress() returns (calls: seq<BuildingCall>)
      ensures chosenBuilding.None? ==> calls == []
      ensures chosenBuilding.Some? ==> calls == [BuildingCall(chosenBuilding.value, Down)]
      ensures Valid() ==> forall c :: c in calls ==>
        GetBuildingFromGrid(c.target.gridX, c.target.gridZ) == Some(c.target) &&
        buildingCursor.inScene && buildingCursor.gridX == c.target.gridX && buildingCursor.gridZ == c.target.gridZ
    {
      calls := [];
      if chosenBuilding.Some? {
        calls := [BuildingCall(chosenBuilding.value, Down)];
      }
    }
  }

  /** One turn of the cell loop of `getSpec`: a quoted cell, then ", " unless it was the last. */
  lemma CellStep(ds: seq<string>, z: nat, before: string, after: string)
    requires z < |ds|
    requires before == "[" + CellsText(ds[..z]) + (if 0 < z < |ds| then ", " else "")
    requires after == before + "'" + ds[z] + "'" + (if z < |ds| - 1 then ", " else "")
    ensures after == "[" + CellsText(ds[..z + 1]) + (if 0 < z + 1 < |ds| then ", " else "")
  {
    var sep := if z == 0 then "" else ", ";
    assert ds[..z + 1] == ds[..z] + [ds[z]];
    CellsTextSnoc(ds[..z], ds[z]);
    Extend("[", CellsText(ds[..z]), sep, Quote(ds[z]), if z < |ds| - 1 then ", " else "", before, after);
  }

  /** Text built as open + items + separator, extended by an item and the next separator. */
  lemma Extend(open: string, acc: string, sep: string, item: string, next: string, before: string, after: string)
    requires before == open + acc + sep
    requires after == before + item + next
    ensures after == open + (acc + sep + item) + next
  {
  }

  /** Closing a finished row of `getSpec` gives its bracketed text. */
  lemma RowClose(ds: seq<string>, rowText: string)
    requires rowText == "[" + CellsText(ds)
    ensures rowText + "]" == "[" + CellsText(ds) + "]"
  {
  }

  /** Closing the finished grid text of `getSpec` gives the whole layout text. */
  lemma SpecClose(g: GridSpec, gridText: string)
    requires gridText == "[" + RowsText(g)
    ensures "{buildingGridSpec: " + (gridText + "]") + "}" == SpecText(g)
  {
  }

  /** One turn of the row loop of `getSpec`: a bracketed row, then "," unless it was the last. */
  lemma RowStep(g: GridSpec, x: nat, before: string, after: string)
    requires x < |g|
    requires before == "[" + RowsText(g[..x]) + (if 0 < x < |g| then "," else "")
    requires after == before + ("[" + CellsText(g[x]) + "]") + (if x < |g| - 1 then "," else "")
    ensures after == "[" + RowsText(g[..x + 1]) + (if 0 < x + 1 < |g| then "," else "")
  {
    var sep := if x == 0 then "" else ",";
    assert g[..x + 1] == g[..x] + [g[x]];
    RowsTextSnoc(g[..x], g[x]);
    Extend("[", RowsText(g[..x]), sep, RowText(g[x]), if x < |g| - 1 then "," else "", before, after);
  }

  /** The descriptors of the grid's buildings, cell by cell. */
  function Descriptors(grid: seq<seq<Building>>): (descs: GridSpec)
    ensures |descs| == |grid|
    ensures forall x :: 0 <= x < |grid| ==> |descs[x]| == |grid[x]|
    ensures forall x, z :: 0 <= x < |grid| && 0 <= z < |grid[x]| ==> descs[x][z] == grid[x][z].desc
  {
    seq(|grid|, x requires 0 <= x < |grid| =>
      seq(|grid[x]|, z requires 0 <= z < |grid[x]| => grid[x][z].desc))
  }

  /** A grid built from a layout gives that layout back as its descriptors. */
  lemma DescriptorsOfBuiltGrid(grid: seq<seq<Building>>, spec: GridSpec, behaviour: string -> LaserLoc -> Handling)
    requires BuiltFrom(grid, spec, behaviour)
    ensures Descriptors(grid) == spec
  {
    var descs := Descriptors(grid);
    forall x | 0 <= x < |spec| ensures descs[x] == spec[x] {
      assert |descs[x]| == |spec[x]|;
    }
  }

  // ---------------------------------------------------------------------------
  // Clients

  /** `new Level({})`: a 5 x 5 grid of stop blocks, the goal at (5, 2), in progress, with the goal cell open. */
  method DefaultLevel(behaviour: string -> LaserLoc -> Handling) returns (level: Level)
    ensures level.Valid() && level.width == 5 && level.depth == 5
    ensures |level.buildingGrid| == 5
    ensures forall x :: 0 <= x < 5 ==> |level.buildingGrid[x]| == 5
    ensures forall x, z :: 0 <= x < 5 && 0 <= z < 5 ==>
      level.buildingGrid[x][z].desc == STOP_BLOCK_SPEC &&
      level.buildingGrid[x][z].gridX == x && level.buildingGrid[x][z].gridZ == z
    ensures level.goal == Goal(5, 2) && level.state == InProgress
    ensures level.GetBuildingFromGrid(5, 2).None?
  {
    level := new Level(behaviour, false);
    level.GoalCellIsOpen();
  }

  /**
   * A 2 x 2 level of pass-through buildings with the goal at (2, 2): a beam
   * along z = 2 meets open space at (0, 2) and (1, 2) and reaches the goal at
   * (2, 2); a further hit keeps the level succeeded.
   */
  method GoalScenario() returns (outcomes: seq<Handling>, states: seq<State>)
    ensures outcomes == [Infinity, Infinity, Infinity, Infinity]
    ensures states == [InProgress, InProgress, Success, Success]
  {
    var level := new Level(d => loc => Infinity, false, 2, 2);
    var loc := LaserLoc(0);
    var h0 := level.HandleLaser(0, 2, loc);
    var s0 := level.state;
    var h1 := level.HandleLaser(1, 2, loc);
    var s1 := level.state;
    var h2 := level.HandleLaser(2, 2, loc);
    var s2 := level.state;
    var h3 := level.HandleLaser(2, 2, loc);
    var s3 := level.state;
    outcomes := [h0, h1, h2, h3];
    states := [s0, s1, s2, s3];
  }

  /** Writing a level's layout and reading it back builds a level with the same grid of buildings. */
  method RebuildFromSpec(level: Level) returns (copy: Option<Level>)
    requires level.Valid() && QuoteFree(level.buildingGridSpec)
    ensures copy.Some?
    ensures copy.value.buildingGrid == level.buildingGrid
    ensures Descriptors(copy.value.buildingGrid) == Descriptors(level.buildingGrid)
    ensures copy.value.state == InProgress && copy.value.chosenBuilding.None?
  {
    var text := level.GetSpec();
    copy := Level.FromSpec(level.behaviour, level.editor, text, level.width, level.depth);
    BuiltFromUnique(copy.value.buildingGrid, level.buildingGrid, level.buildingGridSpec, level.behaviour);
  }

}
