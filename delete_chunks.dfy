/**
 * Island deletion by chunks (DeleteIslandChunk): the chunks around a
 * deleted island are either regenerated whole or, when islands sit closer
 * than a chunk apart, queued so that a timer can rewrite their columns
 * that lie in the island's space, a limited number of chunks per run. The
 * world's blocks are not modelled; regenerated chunks and rewritten
 * columns are recorded instead.
 */
module DeleteChunks {
  import opened Base
  import opened Config
  import opened Islands
  import opened Grid

  /** A chunk, by chunk coordinates. */
  datatype ChunkPos = ChunkPos(x: int, z: int)

  /** A column of blocks, by block coordinates. */
  datatype Column = Column(x: int, z: int)

  /** The chunk coordinate of a block coordinate (an arithmetic shift right by 4). */
  function ChunkCoord(b: int): int {
    b / 16
  }

  /** The column lies in the chunk: the chunk covers 16 by 16 columns from (16 x, 16 z). */
  predicate InChunk(col: Column, c: ChunkPos) {
    16 * c.x <= col.x < 16 * c.x + 16 && 16 * c.z <= col.z < 16 * c.z + 16
  }

  function ChunkOf(col: Column): ChunkPos {
    ChunkPos(ChunkCoord(col.x), ChunkCoord(col.z))
  }

  /** The chunk of a column is the one chunk that covers it. */
  lemma ChunkOfCovers(col: Column, c: ChunkPos)
    ensures InChunk(col, c) <==> ChunkOf(col) == c
  {
  }

  /**
   * What the deletion works out from the island: whether leftover blocks
   * are cleaned up, the chunks scanned (those from the chunk of the
   * protected box's low corner to that of its high corner) and the box of
   * blocks a regenerated chunk must lie in.
   */
  datatype Plan = Plan(cleanUpBlocks: bool,
                       minChunkX: int, maxChunkX: int, minChunkZ: int, maxChunkZ: int,
                       minxX: int, maxxX: int, minzZ: int, maxzZ: int)

  /**
   * The plan for an island centred on (cx, cz) with protection size
   * `protection` and protected corner (minProtectedX, minProtectedZ), when
   * islands are `distance` apart. The box reaches `range + spacing` from the
   * centre each way, where range is half the protection size and spacing is
   * the gap between two protected boxes.
   */
  function PlanOf(distance: int, protection: int, cx: int, cz: int, minProtectedX: int, minProtectedZ: int): (p: Plan)
    ensures p.cleanUpBlocks <==> distance - protection < 16
  {
    var range := JavaDiv(protection, 2);
    var spacing := distance - protection;
    Plan(distance - protection < 16,
      ChunkCoord(minProtectedX), ChunkCoord(minProtectedX + protection),
      ChunkCoord(minProtectedZ), ChunkCoord(minProtectedZ + protection),
      cx - range - spacing, cx + range + spacing, cz - range - spacing, cz + range + spacing)
  }

  /** The chunk is one the deletion looks at. */
  predicate InScan(p: Plan, c: ChunkPos) {
    p.minChunkX <= c.x <= p.maxChunkX && p.minChunkZ <= c.z <= p.maxChunkZ
  }

  /** The chunk is regenerated: its blocks (0, 0, 0) and (15, 0, 15) lie in the box. */
  predicate Regenerates(p: Plan, c: ChunkPos) {
    !(16 * c.x < p.minxX || 16 * c.z < p.minzZ || 16 * c.x + 15 > p.maxxX || 16 * c.z + 15 > p.maxzZ)
  }

  /** The corner test regenerates exactly the chunks whose every column lies in the box. */
  lemma RegeneratesWholeChunks(p: Plan, c: ChunkPos)
    ensures Regenerates(p, c) <==>
      forall col :: InChunk(col, c) ==> p.minxX <= col.x <= p.maxxX && p.minzZ <= col.z <= p.maxzZ
  {
    if !Regenerates(p, c) {
      var low, high := Column(16 * c.x, 16 * c.z), Column(16 * c.x + 15, 16 * c.z + 15);
      assert InChunk(low, c) && InChunk(high, c);
    }
  }

  /** The protected span of an island centred at `centre` along one axis. */
  predicate InProtectedSpan(b: int, centre: int, protection: int) {
    centre - JavaDiv(protection, 2) <= b < centre - JavaDiv(protection, 2) + protection
  }

  /**
   * As written, with islands 100 apart and protection size 100 centred on
   * (13, 13), chunk (3, 3) is regenerated although its column (63, 48) lies
   * in the protected box of the neighbouring island centred on (113, 13).
   */
  lemma RegenReachesNeighbour()
    ensures var p := PlanOf(100, 100, 13, 13, 13 - 50, 13 - 50);
      InScan(p, ChunkPos(3, 3)) && Regenerates(p, ChunkPos(3, 3)) &&
      InChunk(Column(63, 48), ChunkPos(3, 3)) &&
      InProtectedSpan(63, 113, 100) && InProtectedSpan(48, 13, 100)
  {
    JavaDivNonNeg(100, 2);
    assert ChunkCoord(13 - 50) == -3 && ChunkCoord(13 - 50 + 100) == 3;
  }

  /**
   * The plan as evidently intended: the box ends one block before the
   * protected box of the next island, as it already starts one block after
   * that of the previous one.
   */
  function IntendedPlanOf(distance: int, protection: int, cx: int, cz: int, minProtectedX: int, minProtectedZ: int): Plan {
    var p := PlanOf(distance, protection, cx, cz, minProtectedX, minProtectedZ);
    p.(maxxX := minProtectedX + protection + (distance - protection) - 1,
       maxzZ := minProtectedZ + protection + (distance - protection) - 1)
  }

  /**
   * With the intended box, no column of a regenerated chunk lies in the
   * protected span of either neighbour along x or along z, for islands with
   * the same protection size.
   */
  lemma IntendedRegenSparesNeighbours(distance: int, protection: int, cx: int, cz: int, c: ChunkPos, col: Column)
    requires protection >= 0
    requires Regenerates(IntendedPlanOf(distance, protection, cx, cz, cx - JavaDiv(protection, 2), cz - JavaDiv(protection, 2)), c)
    requires InChunk(col, c)
    ensures !InProtectedSpan(col.x, cx + distance, protection) && !InProtectedSpan(col.x, cx - distance, protection)
    ensures !InProtectedSpan(col.z, cz + distance, protection) && !InProtectedSpan(col.z, cz - distance, protection)
  {
    var r := JavaDiv(protection, 2);
    HalfRemainder(protection);
  }

  /** Half of a non-negative number, truncated, and the parity left over. */
  lemma HalfRemainder(n: int)
    requires n >= 0
    ensures 0 <= n - 2 * JavaDiv(n, 2) <= 1
  {
    JavaDivNonNeg(n, 2);
  }

  /**
   * The chunk classification loops of the DeleteIslandChunk constructor:
   * each scanned chunk is regenerated when it lies in the box, and
   * otherwise queued when leftover blocks are cleaned up.
   */
  method Classify(p: Plan) returns (regen: set<ChunkPos>, queue: set<ChunkPos>)
    ensures forall c :: c in regen <==> InScan(p, c) && Regenerates(p, c)
    ensures forall c :: c in queue <==> p.cleanUpBlocks && InScan(p, c) && !Regenerates(p, c)
  {
    regen, queue := {}, {};
    var x := p.minChunkX;
    while x <= p.maxChunkX
      invariant p.minChunkX <= x
      invariant forall c :: c in regen <==> InScan(p, c) && Regenerates(p, c) && c.x < x
      invariant forall c :: c in queue <==> p.cleanUpBlocks && InScan(p, c) && !Regenerates(p, c) && c.x < x
    {
      var z := p.minChunkZ;
      while z <= p.maxChunkZ
        invariant p.minChunkZ <= z
        invariant forall c :: c in regen <==> InScan(p, c) && Regenerates(p, c) && (c.x < x || (c.x == x && c.z < z))
        invariant forall c :: c in queue <==>
          p.cleanUpBlocks && InScan(p, c) && !Regenerates(p, c) && (c.x < x || (c.x == x && c.z < z))
      {
        var chunk := ChunkPos(x, z);
        if Regenerates(p, chunk) {
          regen := regen + {chunk};
        } else if p.cleanUpBlocks {
          queue := queue + {chunk};
        }
        z := z + 1;
      }
      x := x + 1;
    }
  }

  class DeleteIslandChunk {
    /** The island being deleted. */
    const island: Island
    /** Chunks whose columns in the island's space are still to be rewritten. */
    var chunksToClear: set<ChunkPos>
    /** Chunks regenerated (with their twins in the new nether when it is on). */
    var regenerated: set<ChunkPos>
    /** Columns the cleanup timer has rewritten. */
    var clearedColumns: set<Column>
    /** Whether the cleanup timer was started, and whether it has cancelled itself. */
    var scheduled: bool
    var cancelled: bool

    /**
     * The DeleteIslandChunk constructor. With no world loaded for the
     * island nothing happens. Otherwise the scanned chunks are regenerated
     * or queued, the island is deleted from the grid, and the cleanup timer
     * starts when chunks are queued and fast block access (`nmsAvailable`)
     * is there; without it the queued chunks are abandoned.
     */
    constructor(grid: GridManager, island: Island, worldLoaded: bool, nmsAvailable: bool)
      requires grid.Valid()
      modifies grid`islandGrid, grid`ownershipMap, Entries(grid.islandGrid)`owner, Entries(grid.islandGrid)`locked
      ensures this.island == island && clearedColumns == {} && !cancelled
      ensures !worldLoaded ==>
        chunksToClear == {} && regenerated == {} && !scheduled &&
        grid.islandGrid == old(grid.islandGrid) && grid.ownershipMap == old(grid.ownershipMap) &&
        forall j :: j in old(Entries(grid.islandGrid)) ==> j.owner == old(j.owner) && j.locked == old(j.locked)
      ensures worldLoaded ==>
        var p := old(PlanOf(grid.settings.islandDistance, island.protectionRange, island.cx, island.cz,
          island.minProtectedX, island.minProtectedZ));
        (forall c :: c in regenerated <==> InScan(p, c) && Regenerates(p, c)) &&
        (forall c :: c in chunksToClear <==> p.cleanUpBlocks && InScan(p, c) && !Regenerates(p, c)) &&
        (scheduled <==> chunksToClear != {} && nmsAvailable)
      ensures worldLoaded ==>
        var t := old(grid.GetIslandAt(Some(island.Center())));
        grid.islandGrid == (if t.Some? then Removed(old(grid.islandGrid), t.value.minX, t.value.minZ) else old(grid.islandGrid)) &&
        grid.ownershipMap == (if t.Some? then Dropped(old(grid.ownershipMap), old(t.value.owner), t.value) else old(grid.ownershipMap))
      ensures worldLoaded ==>
        var d := old(grid.DeletedEntry(Some(island.Center())));
        (d.Some? ==> d.value.owner.None? && !d.value.locked) &&
        forall j :: j in old(Entries(grid.islandGrid)) && d != Some(j) ==> j.owner == old(j.owner) && j.locked == old(j.locked)
      ensures worldLoaded ==>
        old(grid.OwnersAgree() && grid.DeletesFoundIsland(Some(island.Center()))) ==> grid.OwnersAgree()
    {
      this.island := island;
      clearedColumns := {};
      cancelled := false;
      if worldLoaded {
        var p := PlanOf(grid.settings.islandDistance, island.protectionRange, island.cx, island.cz,
          island.minProtectedX, island.minProtectedZ);
        var regen, queue := Classify(p);
        grid.DeleteIsland(Some(island.Center()));
        regenerated, chunksToClear := regen, queue;
        scheduled := queue != {} && nmsAvailable;
      } else {
        chunksToClear, regenerated, scheduled := {}, {}, false;
      }
    }

    /**
     * The columns of one queued chunk that the timer rewrites: those in the
     * island's space (the block rewriting itself is not modelled).
     */
    method ClearChunk(c: ChunkPos) returns (cols: set<Column>)
      ensures forall col :: col in cols <==> InChunk(col, c) && island.InIslandSpace(col.x, col.z)
    {
      cols := {};
      var x := 0;
      while x < 16
        invariant 0 <= x <= 16
        invariant forall col :: col in cols <==>
          InChunk(col, c) && col.x < 16 * c.x + x && island.InIslandSpace(col.x, col.z)
      {
        var z := 0;
        while z < 16
          invariant 0 <= z <= 16
          invariant forall col :: col in cols <==>
            InChunk(col, c) && (col.x < 16 * c.x + x || (col.x == 16 * c.x + x && col.z < 16 * c.z + z)) &&
            island.InIslandSpace(col.x, col.z)
        {
          var xCoord, zCoord := c.x * 16 + x, c.z * 16 + z;
          if island.InIslandSpace(xCoord, zCoord) {
            cols := cols + {Column(xCoord, zCoord)};
          }
          z := z + 1;
        }
        x := x + 1;
      }
    }

    /**
     * One run of the cleanup timer: at most `cleanRate` queued chunks are
     * taken off the queue and their columns in the island's space are
     * rewritten; the timer cancels itself once the queue is empty.
     */
    method Run(cleanRate: int)
      modifies this`chunksToClear, this`clearedColumns, this`cancelled
      ensures chunksToClear <= old(chunksToClear)
      ensures |old(chunksToClear)| - |chunksToClear| ==
        if cleanRate <= 0 then 0 else if |old(chunksToClear)| < cleanRate then |old(chunksToClear)| else cleanRate
      ensures forall col :: col in clearedColumns <==>
        col in old(clearedColumns) || (ChunkOf(col) in old(chunksToClear) && ChunkOf(col) !in chunksToClear && island.InIslandSpace(col.x, col.z))
      ensures cancelled <==> old(cancelled) || chunksToClear == {}
    {
      var count := 0;
      while chunksToClear != {} && count < cleanRate
        invariant chunksToClear <= old(chunksToClear)
        invariant 0 <= count == |old(chunksToClear)| - |chunksToClear|
        invariant count <= cleanRate || count == 0
        invariant cancelled == old(cancelled)
        invariant forall col :: col in clearedColumns <==>
          col in old(clearedColumns) || (ChunkOf(col) in old(chunksToClear) && ChunkOf(col) !in chunksToClear && island.InIslandSpace(col.x, col.z))
        decreases chunksToClear
      {
        ghost var somePair := Element(chunksToClear);
        var pair :| pair in chunksToClear;
        var cols := ClearChunk(pair);
        forall col ensures InChunk(col, pair) <==> ChunkOf(col) == pair {
          ChunkOfCovers(col, pair);
        }
        clearedColumns := clearedColumns + cols;
        chunksToClear := chunksToClear - {pair};
        count := count + 1;
      }
      if chunksToClear == {} {
        cancelled := true;
      }
    }
  }
}
