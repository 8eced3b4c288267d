/** BlockBehaviorNetherPortal.spawnPortal: the destination portal written into a level,
    a cleared box with an obsidian base and a frame of obsidian around six portal blocks. */
module Portal {
  import opened Common

  /** A block position on one block layer of a level (layer 0 holds the block itself,
      layer 1 the extra block, such as water, that can share its position). */
  datatype Cell = Cell(x: int, y: int, z: int, layer: nat)

  type Grid = map<Cell, BlockState>

  /** The part of a level spawnPortal touches: the block at each written cell. */
  class Level {
    var blocks: Grid

    constructor (blocks: Grid)
      ensures this.blocks == blocks
    {
      this.blocks := blocks;
    }

    /** setBlockAt(x, y, z, layer, state): that one cell holds `b` afterwards. */
    method SetBlockAt(x: int, y: int, z: int, layer: nat, b: BlockState)
      modifies this
      ensures blocks == old(blocks)[Cell(x, y, z, layer) := b]
    {
      blocks := blocks[Cell(x, y, z, layer) := b];
    }
  }

  /** The cell `c` is the same (present with the same block, or absent) in both grids. */
  ghost predicate Same(before: Grid, after: Grid, c: Cell) {
    (c in before <==> c in after) && (c in before ==> before[c] == after[c])
  }

  /** The anchor of the portal: the position floored on every axis (getFloorX and friends). */
  function Anchor(pos: Vec3): (a: (int, int, int))
    ensures a.0 as real <= pos.x < a.0 as real + 1.0
    ensures a.1 as real <= pos.y < a.1 as real + 1.0
    ensures a.2 as real <= pos.z < a.2 as real + 1.0
  {
    (pos.x.Floor, pos.y.Floor, pos.z.Floor)
  }

  // ---------------------------------------------------------------------------
  // The layout, cell by cell
  // ---------------------------------------------------------------------------

  /** The box the three clearing loops empty, on both layers: x-1..x+3, y+1..y+3, z-1..z+2. */
  predicate InClearBox(c: Cell, x: int, y: int, z: int) {
    x - 1 <= c.x <= x + 3 && y + 1 <= c.y <= y + 3 && z - 1 <= c.z <= z + 2 && c.layer <= 1
  }

  /** The six portal blocks: x+1..x+2 across, y+1..y+3 high, in the plane z+1. */
  predicate IsPortalCell(c: Cell, x: int, y: int, z: int) {
    c.layer == 0 && c.z == z + 1 && y + 1 <= c.y <= y + 3 && x + 1 <= c.x <= x + 2
  }

  /** The obsidian frame in the plane z+1: the columns x and x+3 beside the portal blocks
      and the top row y+4 across x..x+3. */
  predicate IsFrameCell(c: Cell, x: int, y: int, z: int) {
    && c.layer == 0 && c.z == z + 1
    && ((y + 1 <= c.y <= y + 3 && (c.x == x || c.x == x + 3)) || (c.y == y + 4 && x <= c.x <= x + 3))
  }

  /** The obsidian base at height y: x..x+3 at z+1, and x+1..x+2 at z and at z+2. */
  predicate IsBaseCell(c: Cell, x: int, y: int, z: int) {
    && c.layer == 0 && c.y == y
    && ((c.z == z + 1 && x <= c.x <= x + 3) || ((c.z == z || c.z == z + 2) && x + 1 <= c.x <= x + 2))
  }

  /** What the builder anchored at (x, y, z) leaves at `c`; None where it writes nothing. */
  function Layout(c: Cell, x: int, y: int, z: int): Option<BlockState> {
    if IsPortalCell(c, x, y, z) then Some(PortalBlock)
    else if IsFrameCell(c, x, y, z) || IsBaseCell(c, x, y, z) then Some(Obsidian)
    else if InClearBox(c, x, y, z) then Some(Air)
    else None
  }

  /** `after` is `before` with the portal built at (x, y, z): every written cell holds its
      layout block and every other cell is as it was. */
  ghost predicate Built(before: Grid, after: Grid, x: int, y: int, z: int) {
    forall c :: if Layout(c, x, y, z).Some? then c in after && after[c] == Layout(c, x, y, z).value
                else Same(before, after, c)
  }

  // ---------------------------------------------------------------------------
  // The builder
  // ---------------------------------------------------------------------------

  /** spawnPortal(pos, level). */
  method SpawnPortal(pos: Vec3, level: Level)
    modifies level
    ensures var (x, y, z) := Anchor(pos); Built(old(level.blocks), level.blocks, x, y, z)
  {
    var x, y, z := pos.x.Floor, pos.y.Floor, pos.z.Floor;
    ClearBox(level, x, y, z);
    LayBase(level, x, y, z);
    RaiseFrame(level, x, y, z);
  }

  /** The cell lies in the clearing box and comes before the loop position (xx, yy, zz)
      in the order the three loops visit the box. */
  ghost predicate ClearedBefore(c: Cell, x: int, y: int, z: int, xx: int, yy: int, zz: int) {
    && InClearBox(c, x, y, z)
    && (c.x - x < xx || (c.x - x == xx && (c.y - y < yy || (c.y - y == yy && c.z - z < zz))))
  }

  /** The grid after the clearing loops have visited every cell before (xx, yy, zz). */
  ghost predicate ClearedUpTo(before: Grid, after: Grid, x: int, y: int, z: int, xx: int, yy: int, zz: int) {
    forall c :: if ClearedBefore(c, x, y, z, xx, yy, zz) then c in after && after[c] == Air
                else Same(before, after, c)
  }

  /** The clearing loops: both layers of the box x-1..x+3, y+1..y+3, z-1..z+2 become air. */
  method ClearBox(level: Level, x: int, y: int, z: int)
    modifies level
    ensures forall c :: if InClearBox(c, x, y, z) then c in level.blocks && level.blocks[c] == Air
                        else Same(old(level.blocks), level.blocks, c)
  {
    var xx := -1;
    while xx < 4
      invariant -1 <= xx <= 4
      invariant ClearedUpTo(old(level.blocks), level.blocks, x, y, z, xx, 1, -1)
    {
      var yy := 1;
      while yy < 4
        invariant 1 <= yy <= 4
        invariant ClearedUpTo(old(level.blocks), level.blocks, x, y, z, xx, yy, -1)
      {
        var zz := -1;
        while zz < 3
          invariant -1 <= zz <= 3
          invariant ClearedUpTo(old(level.blocks), level.blocks, x, y, z, xx, yy, zz)
        {
          level.SetBlockAt(x + xx, y + yy, z + zz, 0, Air);
          level.SetBlockAt(x + xx, y + yy, z + zz, 1, Air);
          zz := zz + 1;
        }
        yy := yy + 1;
      }
      xx := xx + 1;
    }
  }

  /** The eight base blocks, written row by row while z moves from the anchor to z+2. */
  method LayBase(level: Level, x: int, y: int, z: int)
    modifies level
    ensures forall c :: if IsBaseCell(c, x, y, z) then c in level.blocks && level.blocks[c] == Obsidian
                        else Same(old(level.blocks), level.blocks, c)
  {
    var z := z;
    level.SetBlockAt(x + 1, y, z, 0, Obsidian);
    level.SetBlockAt(x + 2, y, z, 0, Obsidian);
    z := z + 1;
    level.SetBlockAt(x, y, z, 0, Obsidian);
    level.SetBlockAt(x + 1, y, z, 0, Obsidian);
    level.SetBlockAt(x + 2, y, z, 0, Obsidian);
    level.SetBlockAt(x + 3, y, z, 0, Obsidian);
    z := z + 1;
    level.SetBlockAt(x + 1, y, z, 0, Obsidian);
    level.SetBlockAt(x + 2, y, z, 0, Obsidian);
  }

  /** The frame in the plane z+1: three rows of obsidian, portal, portal, obsidian as y
      climbs from y+1, then the obsidian top row at y+4. */
  method RaiseFrame(level: Level, x: int, y: int, z: int)
    modifies level
    ensures forall c ::
      if IsPortalCell(c, x, y, z) then c in level.blocks && level.blocks[c] == PortalBlock
      else if IsFrameCell(c, x, y, z) then c in level.blocks && level.blocks[c] == Obsidian
      else Same(old(level.blocks), level.blocks, c)
  {
    var y, z := y, z + 1;
    y := y + 1;
    PortalRow(level, x, y, z);
    y := y + 1;
    PortalRow(level, x, y, z);
    y := y + 1;
    PortalRow(level, x, y, z);
    y := y + 1;
    TopRow(level, x, y, z);
  }

  /** One row of the frame at height y: obsidian at x and x+3, portal blocks between. */
  method PortalRow(level: Level, x: int, y: int, z: int)
    modifies level
    ensures forall c: Cell ::
      if c.layer == 0 && c.y == y && c.z == z && x <= c.x <= x + 3 then
        c in level.blocks && level.blocks[c] == (if c.x == x || c.x == x + 3 then Obsidian else PortalBlock)
      else Same(old(level.blocks), level.blocks, c)
  {
    level.SetBlockAt(x, y, z, 0, Obsidian);
    level.SetBlockAt(x + 1, y, z, 0, PortalBlock);
    level.SetBlockAt(x + 2, y, z, 0, PortalBlock);
    level.SetBlockAt(x + 3, y, z, 0, Obsidian);
  }

  /** The top row of the frame at height y: obsidian across x..x+3. */
  method TopRow(level: Level, x: int, y: int, z: int)
    modifies level
    ensures forall c: Cell ::
      if c.layer == 0 && c.y == y && c.z == z && x <= c.x <= x + 3 then c in level.blocks && level.blocks[c] == Obsidian
      else Same(old(level.blocks), level.blocks, c)
  {
    level.SetBlockAt(x, y, z, 0, Obsidian);
    level.SetBlockAt(x + 1, y, z, 0, Obsidian);
    level.SetBlockAt(x + 2, y, z, 0, Obsidian);
    level.SetBlockAt(x + 3, y, z, 0, Obsidian);
  }

  // ---------------------------------------------------------------------------
  // What a built portal looks like
  // ---------------------------------------------------------------------------

  /** The portal blocks, listed. */
  function PortalBlocks(x: int, y: int, z: int): set<Cell> {
    {Cell(x + 1, y + 1, z + 1, 0), Cell(x + 2, y + 1, z + 1, 0),
     Cell(x + 1, y + 2, z + 1, 0), Cell(x + 2, y + 2, z + 1, 0),
     Cell(x + 1, y + 3, z + 1, 0), Cell(x + 2, y + 3, z + 1, 0)}
  }

  /** The frame blocks, listed: two columns of three, and the top row of four. */
  function FrameBlocks(x: int, y: int, z: int): set<Cell> {
    {Cell(x, y + 1, z + 1, 0), Cell(x + 3, y + 1, z + 1, 0),
     Cell(x, y + 2, z + 1, 0), Cell(x + 3, y + 2, z + 1, 0),
     Cell(x, y + 3, z + 1, 0), Cell(x + 3, y + 3, z + 1, 0),
     Cell(x, y + 4, z + 1, 0), Cell(x + 1, y + 4, z + 1, 0),
     Cell(x + 2, y + 4, z + 1, 0), Cell(x + 3, y + 4, z + 1, 0)}
  }

  /** The base blocks, listed. */
  function BaseBlocks(x: int, y: int, z: int): set<Cell> {
    {Cell(x + 1, y, z, 0), Cell(x + 2, y, z, 0),
     Cell(x, y, z + 1, 0), Cell(x + 1, y, z + 1, 0), Cell(x + 2, y, z + 1, 0), Cell(x + 3, y, z + 1, 0),
     Cell(x + 1, y, z + 2, 0), Cell(x + 2, y, z + 2, 0)}
  }

  /** Every cell spawnPortal writes: the clearing box, the base and the top row of the frame. */
  predicate InFootprint(c: Cell, x: int, y: int, z: int) {
    InClearBox(c, x, y, z) || IsBaseCell(c, x, y, z) || (c.layer == 0 && c.y == y + 4 && c.z == z + 1 && x <= c.x <= x + 3)
  }

  /** The listed blocks are the cells the layout predicates describe. */
  lemma ListedBlocks(c: Cell, x: int, y: int, z: int)
    ensures c in PortalBlocks(x, y, z) <==> IsPortalCell(c, x, y, z)
    ensures c in FrameBlocks(x, y, z) <==> IsFrameCell(c, x, y, z)
    ensures c in BaseBlocks(x, y, z) <==> IsBaseCell(c, x, y, z)
  {
  }

  lemma PortalCount(x: int, y: int, z: int)
    ensures |PortalBlocks(x, y, z)| == 6
  {
  }

  lemma FrameCount(x: int, y: int, z: int)
    ensures |FrameBlocks(x, y, z)| == 10
  {
  }

  lemma BaseCount(x: int, y: int, z: int)
    ensures |BaseBlocks(x, y, z)| == 8
  {
  }

  /** Within the cells it writes, a built portal has exactly the six listed portal blocks. */
  lemma PortalExactlySix(before: Grid, after: Grid, x: int, y: int, z: int)
    requires Built(before, after, x, y, z)
    ensures |PortalBlocks(x, y, z)| == 6
    ensures forall c :: InFootprint(c, x, y, z) ==> c in after && (after[c] == PortalBlock <==> c in PortalBlocks(x, y, z))
  {
    PortalCount(x, y, z);
    forall c | InFootprint(c, x, y, z)
      ensures c in after && (after[c] == PortalBlock <==> c in PortalBlocks(x, y, z))
    {
      ListedBlocks(c, x, y, z);
      assert Layout(c, x, y, z).Some?;
    }
  }

  /** The frame around the portal blocks is obsidian: ten blocks. */
  lemma FrameIsObsidian(before: Grid, after: Grid, x: int, y: int, z: int)
    requires Built(before, after, x, y, z)
    ensures |FrameBlocks(x, y, z)| == 10
    ensures forall c :: c in FrameBlocks(x, y, z) ==> c in after && after[c] == Obsidian
  {
    FrameCount(x, y, z);
    forall c | c in FrameBlocks(x, y, z)
      ensures c in after && after[c] == Obsidian
    {
      ListedBlocks(c, x, y, z);
      assert Layout(c, x, y, z) == Some(Obsidian);
    }
  }

  /** The base under the portal is obsidian: eight blocks at height y. */
  lemma BaseIsObsidian(before: Grid, after: Grid, x: int, y: int, z: int)
    requires Built(before, after, x, y, z)
    ensures |BaseBlocks(x, y, z)| == 8
    ensures forall c :: c in BaseBlocks(x, y, z) ==> c in after && after[c] == Obsidian
  {
    BaseCount(x, y, z);
    forall c | c in BaseBlocks(x, y, z)
      ensures c in after && after[c] == Obsidian
    {
      ListedBlocks(c, x, y, z);
      assert Layout(c, x, y, z) == Some(Obsidian);
    }
  }

  /** Layer 1 of the whole clearing box is air. */
  lemma LayerOneCleared(before: Grid, after: Grid, x: int, y: int, z: int)
    requires Built(before, after, x, y, z)
    ensures forall c :: InClearBox(c, x, y, z) && c.layer == 1 ==> c in after && after[c] == Air
  {
    forall c | InClearBox(c, x, y, z) && c.layer == 1
      ensures c in after && after[c] == Air
    {
      assert Layout(c, x, y, z) == Some(Air);
    }
  }

  /** A cell of the clearing box that the frame does not rewrite is air, on either layer. */
  lemma UnwrittenCleared(before: Grid, after: Grid, x: int, y: int, z: int)
    requires Built(before, after, x, y, z)
    ensures forall c :: InClearBox(c, x, y, z) && c !in PortalBlocks(x, y, z) && c !in FrameBlocks(x, y, z) ==>
      c in after && after[c] == Air
  {
    forall c | InClearBox(c, x, y, z) && c !in PortalBlocks(x, y, z) && c !in FrameBlocks(x, y, z)
      ensures c in after && after[c] == Air
    {
      ListedBlocks(c, x, y, z);
      assert !IsPortalCell(c, x, y, z) && !IsFrameCell(c, x, y, z) && !IsBaseCell(c, x, y, z);
    }
  }

  /** No cell outside the footprint changes. */
  lemma OutsideUntouched(before: Grid, after: Grid, x: int, y: int, z: int)
    requires Built(before, after, x, y, z)
    ensures forall c :: !InFootprint(c, x, y, z) ==> Same(before, after, c)
  {
    forall c | !InFootprint(c, x, y, z)
      ensures Same(before, after, c)
    {
      assert Layout(c, x, y, z).None?;
    }
  }

  /** The built grid is determined by the grid before. */
  lemma BuiltUnique(before: Grid, a1: Grid, a2: Grid, x: int, y: int, z: int)
    requires Built(before, a1, x, y, z) && Built(before, a2, x, y, z)
    ensures a1 == a2
  {
    assert a1.Keys == a2.Keys by {
      forall c | c in a1 ensures c in a2 {
        assert Layout(c, x, y, z).Some? || Same(before, a1, c);
      }
    }
    forall c | c in a1 ensures a1[c] == a2[c] {
      assert Layout(c, x, y, z).Some? || Same(before, a1, c);
    }
  }

  /** Building the same portal a second time changes nothing. */
  lemma BuildIdempotent(before: Grid, after: Grid, again: Grid, x: int, y: int, z: int)
    requires Built(before, after, x, y, z) && Built(after, again, x, y, z)
    ensures again == after
  {
    assert again.Keys == after.Keys by {
      forall c | c in again ensures c in after {
        assert Layout(c, x, y, z).Some? || Same(after, again, c);
      }
    }
    forall c | c in again ensures again[c] == after[c] {
      assert Layout(c, x, y, z).Some? || Same(after, again, c);
    }
  }
}
