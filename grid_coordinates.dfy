/**
 * The grid coordinate system of a level: a grid cell index or a length
 * counted in cells is turned into world space by scaling with the fixed
 * grid spacing. No rounding, no clamping, any integer is accepted (the goal
 * sits one cell beyond the buildable grid).
 */
module GridCoordinates {

  /** World-space distance between the centres of neighbouring cells. */
  const GRID_SPACING: int := 3

  /** A cell index in x becomes a world x position. It is a whole multiple of the spacing and dividing by the spacing gives the input back. */
  function GridXToWorld(gridX: int): (w: int)
    ensures w % GRID_SPACING == 0 && w / GRID_SPACING == gridX
  {
    gridX * GRID_SPACING
  }

  /** A cell index in z becomes a world z position. It is a whole multiple of the spacing and dividing by the spacing gives the input back. */
  function GridZToWorld(gridZ: int): (w: int)
    ensures w % GRID_SPACING == 0 && w / GRID_SPACING == gridZ
  {
    gridZ * GRID_SPACING
  }

  /** A length counted in cells becomes a world length. It is a whole multiple of the spacing and dividing by the spacing gives the input back. */
  function GridLengthToWorld(gridLength: int): (w: int)
    ensures w % GRID_SPACING == 0 && w / GRID_SPACING == gridLength
  {
    gridLength * GRID_SPACING
  }

  /** The three conversions are the same scaling. */
  lemma ConversionsAgree(n: int)
    ensures GridXToWorld(n) == GridZToWorld(n) == GridLengthToWorld(n)
  {
  }

  /** Cell 0 sits at the world origin and the conversion has no offset. */
  lemma GridXToWorldLinear(a: int, b: int)
    ensures GridXToWorld(0) == 0
    ensures GridXToWorld(a + b) == GridXToWorld(a) + GridXToWorld(b)
  {
  }

  lemma GridZToWorldLinear(a: int, b: int)
    ensures GridZToWorld(0) == 0
    ensures GridZToWorld(a + b) == GridZToWorld(a) + GridZToWorld(b)
  {
  }

  /** Neighbouring cells are exactly one cell length apart in world space. */
  lemma NeighbourSpacing(gridX: int)
    ensures GridXToWorld(gridX + 1) - GridXToWorld(gridX) == GridLengthToWorld(1)
  {
  }

}
