/**
 * The island grid (GridManager): islands filed by corner in a two-level
 * sorted map minX -> (minZ -> island), the map from owners to their
 * islands, and the spawn island.
 */
module Grid {
  import opened Base
  import opened Uuids
  import opened Locations
  import opened Config
  import opened Islands
  import opened Scan

  /** islandGrid: minX -> (minZ -> island). */
  type IslandGrid = map<int, map<int, Island>>

  /** Every island filed in the grid. */
  function Entries(g: IslandGrid): set<Island> {
    set kx, j | kx in g && j in g[kx].Values :: j
  }

  /** Every island is filed under its own corner (minX, minZ). */
  ghost predicate Keyed(g: IslandGrid) {
    forall kx, kz :: kx in g && kz in g[kx] ==> g[kx][kz].minX == kx && g[kx][kz].minZ == kz
  }

  /** Island `j` is the island filed under its corner. */
  predicate Filed(g: IslandGrid, j: Island) {
    j.minX in g && j.minZ in g[j.minX] && g[j.minX][j.minZ] == j
  }

  /**
   * A grid laid out on a lattice of spacing `d`: every x key is `ax` plus a
   * multiple of `d`, every z key `az` plus a multiple of `d`, and every
   * island has island distance `d`.
   */
  ghost predicate Aligned(g: IslandGrid, d: int, ax: int, az: int)
    requires d > 0
  {
    (forall kx :: kx in g ==> (kx - ax) % d == 0) &&
    (forall kx, kz :: kx in g && kz in g[kx] ==> (kz - az) % d == 0 && g[kx][kz].islandDistance == d)
  }

  /**
   * GridManager.getIslandAt(x, z): the floor entry on x, then the floor
   * entry on z in that column, kept only if its island space holds the
   * column.
   */
  function IslandAtColumn(g: IslandGrid, x: int, z: int): (r: Option<Island>)
    ensures r.Some? ==> r.value.InIslandSpace(x, z) && r.value in Entries(g)
    ensures r.Some? ==> exists kx, kz :: kx in g && kz in g[kx] && kx <= x && kz <= z && g[kx][kz] == r.value
  {
    match FloorKey(g.Keys, x)
    case None => None
    case Some(kx) =>
      match FloorKey(g[kx].Keys, z)
      case None => None
      case Some(kz) =>
        var j := g[kx][kz];
        if j.InIslandSpace(x, z) then
          assert j in g[kx].Values;
          Some(j)
        else None
  }

  /** Two lattice points less than `d` apart are the same. */
  lemma SameResidue(a: int, b: int, d: int, o: int)
    requires d > 0 && (a - o) % d == 0 && (b - o) % d == 0 && 0 <= a - b < d
    ensures a == b
  {
    var p, q := (a - o) / d, (b - o) / d;
    assert a - o == p * d && b - o == q * d;
    assert (p - q) * d == a - b;
    SmallMultiple(p - q, d);
  }

  /**
   * On an aligned grid the lookup is complete: every column in the space of
   * a filed island finds that island.
   */
  lemma {:induction false} LookupFindsAlignedIsland(g: IslandGrid, d: int, ax: int, az: int, j: Island, x: int, z: int)
    requires d > 0 && Keyed(g) && Aligned(g, d, ax, az)
    requires Filed(g, j) && j.InIslandSpace(x, z)
    ensures IslandAtColumn(g, x, z) == Some(j)
  {
    JavaDivNonNeg(d, 2);
    SpaceFromCorner(j, x, z);
    var kx := FloorKey(g.Keys, x).value;
    assert j.minX <= kx <= x;
    SameResidue(kx, j.minX, d, ax);
    var kz := FloorKey(g[kx].Keys, z).value;
    assert j.minZ <= kz <= z;
    SameResidue(kz, j.minZ, d, az);
  }

  /** On an aligned grid no two filed islands share a column. */
  lemma AlignedIslandsDisjoint(g: IslandGrid, d: int, ax: int, az: int, j: Island, k: Island, x: int, z: int)
    requires d > 0 && Keyed(g) && Aligned(g, d, ax, az)
    requires Filed(g, j) && Filed(g, k) && j.InIslandSpace(x, z) && k.InIslandSpace(x, z)
    ensures j == k
  {
    LookupFindsAlignedIsland(g, d, ax, az, j, x, z);
    LookupFindsAlignedIsland(g, d, ax, az, k, x, z);
  }

  /** The grid after addToGrids: `j` is filed under its corner unless that corner is taken. */
  function WithIsland(g: IslandGrid, j: Island): (r: IslandGrid)
    ensures j.minX in r && j.minZ in r[j.minX]
    ensures j.minX in g && j.minZ in g[j.minX] ==> r == g
    ensures !(j.minX in g && j.minZ in g[j.minX]) ==> Filed(r, j)
    ensures forall kx, kz :: kx != j.minX || kz != j.minZ ==>
      (kx in r && kz in r[kx] <==> kx in g && kz in g[kx]) && (kx in g && kz in g[kx] ==> r[kx][kz] == g[kx][kz])
  {
    if j.minX in g && j.minZ in g[j.minX] then g
    else
      var column: map<int, Island> := if j.minX in g then g[j.minX] else map[];
      g[j.minX := column[j.minZ := j]]
  }

  /** Filing an island keeps every island under its own corner. */
  lemma WithIslandKeyed(g: IslandGrid, j: Island)
    requires Keyed(g)
    ensures Keyed(WithIsland(g, j))
  {
  }

  /**
   * On an aligned grid, an island filed at a free lattice corner is found by
   * every column of its space.
   */
  lemma AddedIslandIsFound(g: IslandGrid, d: int, ax: int, az: int, j: Island, x: int, z: int)
    requires d > 0 && Keyed(g) && Aligned(g, d, ax, az)
    requires j.islandDistance == d && (j.minX - ax) % d == 0 && (j.minZ - az) % d == 0
    requires !(j.minX in g && j.minZ in g[j.minX])
    requires j.InIslandSpace(x, z)
    ensures IslandAtColumn(WithIsland(g, j), x, z) == Some(j)
  {
    var r := WithIsland(g, j);
    WithIslandKeyed(g, j);
    assert Aligned(r, d, ax, az);
    LookupFindsAlignedIsland(r, d, ax, az, j, x, z);
  }

  /** The grid after deleteIsland has dropped the entry under corner (x, z); an emptied column stays. */
  function Removed(g: IslandGrid, x: int, z: int): (r: IslandGrid)
    ensures r.Keys == g.Keys
    ensures !(x in r && z in r[x])
    ensures forall kx, kz :: kx != x || kz != z ==>
      (kx in r && kz in r[kx] <==> kx in g && kz in g[kx]) && (kx in g && kz in g[kx] ==> r[kx][kz] == g[kx][kz])
  {
    if x in g && z in g[x] then g[x := g[x] - {z}] else g
  }

  /**
   * Deleting an island's corner entry makes the island unreachable by the
   * lookup, and on an aligned grid every other filed island is still found.
   */
  lemma {:induction false} RemovedIslandIsGone(g: IslandGrid, j: Island, x: int, z: int)
    requires Keyed(g)
    ensures Keyed(Removed(g, j.minX, j.minZ))
    ensures IslandAtColumn(Removed(g, j.minX, j.minZ), x, z) != Some(j)
  {
  }

  lemma RemovedKeepsOthers(g: IslandGrid, d: int, ax: int, az: int, j: Island, k: Island, x: int, z: int)
    requires d > 0 && Keyed(g) && Aligned(g, d, ax, az)
    requires Filed(g, k) && k != j && Filed(g, j) && k.InIslandSpace(x, z)
    ensures IslandAtColumn(Removed(g, j.minX, j.minZ), x, z) == Some(k)
  {
    var r := Removed(g, j.minX, j.minZ);
    RemovedIslandIsGone(g, j, x, z);
    assert Aligned(r, d, ax, az);
    LookupFindsAlignedIsland(r, d, ax, az, k, x, z);
  }

  // ------------------------------------------------------ grid alignment

  /** GridManager.onGrid: both offsets from the grid origin divide by the island distance (Java `%`). */
  predicate OnGrid(s: Settings, x: int, z: int)
    requires s.islandDistance != 0
  {
    JavaRem(x - s.islandXOffset, s.islandDistance) == 0 && JavaRem(z - s.islandZOffset, s.islandDistance) == 0
  }

  /** Java's remainder is zero exactly when the value is a multiple. */
  lemma {:induction false} JavaRemZero(a: int, d: int)
    requires d != 0
    ensures JavaRem(a, d) == 0 <==> a % d == 0
  {
    var q := JavaDiv(a, d);
    if a % d == 0 {
      var m := a / d;
      assert a == m * d;
      assert (m - q) * d == JavaRem(a, d);
      SmallMultipleAbs(m - q, d);
    } else if JavaRem(a, d) == 0 {
      assert a == q * d;
      MultipleMod(q, d);
    }
  }

  /** A column is on the grid exactly when both offsets are multiples of the island distance. */
  lemma OnGridMultiples(s: Settings, x: int, z: int)
    requires s.islandDistance != 0
    ensures OnGrid(s, x, z) <==>
      (x - s.islandXOffset) % s.islandDistance == 0 && (z - s.islandZOffset) % s.islandDistance == 0
  {
    JavaRemZero(x - s.islandXOffset, s.islandDistance);
    JavaRemZero(z - s.islandZOffset, s.islandDistance);
  }

  /**
   * GridManager.getClosestIsland as written: the block coordinate divided by
   * the distance with Java's truncating `/` (so `Math.round` sees an integer
   * and changes nothing), times the distance, plus the offset; the height is
   * the island height.
   */
  function GetClosestIsland(s: Settings, l: Location): (r: Location)
    requires s.islandDistance != 0
    ensures OnGrid(s, r.x, r.z)
    ensures r.world == l.world && r.y == s.islandHeight && r.yawBits == 0 && r.pitchBits == 0
  {
    var d := s.islandDistance;
    var x := JavaDiv(l.x, d) * d + s.islandXOffset;
    var z := JavaDiv(l.z, d) * d + s.islandZOffset;
    MultipleMod(JavaDiv(l.x, d), d);
    MultipleMod(JavaDiv(l.z, d), d);
    JavaRemZero(x - s.islandXOffset, d);
    JavaRemZero(z - s.islandZOffset, d);
    Location(l.world, x, s.islandHeight, z, 0, 0)
  }

  /**
   * The slot getClosestIsland gives need not hold the location: with
   * distance 100 and no offset, block x 160 gets the slot at 100, whose
   * island space is [50, 150), while the slot at 200 holds it and is nearer.
   */
  lemma ClosestIslandMissesLocation(s: Settings, i: Island, l: Location)
    requires s.islandDistance == 100 && s.islandXOffset == 0 && s.islandZOffset == 0
    requires l.x == 160 && l.z == 0
    requires i.cx == GetClosestIsland(s, l).x && i.cz == GetClosestIsland(s, l).z && i.islandDistance == 100
    ensures i.cx == 100 && !i.InIslandSpace(l.x, l.z)
    ensures Abs(l.x - 200) < Abs(l.x - i.cx) && (200 - s.islandXOffset) % s.islandDistance == 0
  {
    assert JavaDiv(160, 100) == 1 by {
      JavaDivNonNeg(160, 100);
    }
    assert JavaDiv(0, 100) == 0;
    assert JavaDiv(100, 2) == 50 by {
      JavaDivNonNeg(100, 2);
    }
  }

  /**
   * The grid centre nearest to `b` on one axis, for distance `d` and offset
   * `o`: the centre whose slot [c - d/2, c - d/2 + d) holds `b`.
   */
  function ClosestSlot(b: int, d: int, o: int): (c: int)
    requires d > 0
    ensures (c - o) % d == 0
    ensures c - d / 2 <= b < c - d / 2 + d
  {
    var k := (b - o + d / 2) / d;
    assert k * d <= b - o + d / 2 < k * d + d;
    MultipleMod(k, d);
    assert o + k * d - o == k * d;
    o + k * d
  }

  /** ClosestSlot is nearest among all grid centres on the axis. */
  lemma {:induction false} ClosestSlotIsNearest(b: int, d: int, o: int, c': int)
    requires d > 0 && (c' - o) % d == 0
    ensures Abs(b - ClosestSlot(b, d, o)) <= Abs(b - c')
  {
    var c := ClosestSlot(b, d, o);
    var h := d / 2;
    assert 2 * h <= d <= 2 * h + 1;
    var p, q := (c' - o) / d, (c - o) / d;
    assert c' - o == p * d && c - o == q * d;
    var k := p - q;
    assert c' - c == k * d;
    if k >= 1 {
      MulAtLeast(k, d);
    } else if k <= -1 {
      MulAtLeast(-k, d);
      assert k * d == -((-k) * d);
    }
  }

  /**
   * The closest island the corrected way: the grid centre nearest the
   * location on each axis.
   */
  function ClosestIsland(s: Settings, l: Location): (r: Location)
    requires s.islandDistance > 0
    ensures OnGrid(s, r.x, r.z)
    ensures r.world == l.world && r.y == s.islandHeight && r.yawBits == 0 && r.pitchBits == 0
    ensures r.x - s.islandDistance / 2 <= l.x < r.x - s.islandDistance / 2 + s.islandDistance
    ensures r.z - s.islandDistance / 2 <= l.z < r.z - s.islandDistance / 2 + s.islandDistance
  {
    var x := ClosestSlot(l.x, s.islandDistance, s.islandXOffset);
    var z := ClosestSlot(l.z, s.islandDistance, s.islandZOffset);
    OnGridMultiples(s, x, z);
    Location(l.world, x, s.islandHeight, z, 0, 0)
  }

  /**
   * The corrected closest island is the nearest grid centre, and for an even
   * island distance an island there holds the location in its island space.
   */
  lemma ClosestIslandIsNearest(s: Settings, l: Location, x: int, z: int, i: Island)
    requires s.islandDistance > 0 && OnGrid(s, x, z)
    requires i.cx == ClosestIsland(s, l).x && i.cz == ClosestIsland(s, l).z && i.islandDistance == s.islandDistance
    ensures Abs(l.x - ClosestIsland(s, l).x) <= Abs(l.x - x) && Abs(l.z - ClosestIsland(s, l).z) <= Abs(l.z - z)
    ensures s.islandDistance % 2 == 0 ==> i.InIslandSpace(l.x, l.z)
  {
    OnGridMultiples(s, x, z);
    ClosestSlotIsNearest(l.x, s.islandDistance, s.islandXOffset, x);
    ClosestSlotIsNearest(l.z, s.islandDistance, s.islandZOffset, z);
    JavaDivNonNeg(s.islandDistance, 2);
  }

  /**
   * Why ClosestIslandIsNearest asks for an even distance: with an odd
   * distance the island space is one column short of the distance, so the
   * nearest centre's island can miss the location (distance 3, x = 1).
   */
  lemma OddDistanceClosestMisses(i: Island, z: int)
    requires i.cx == 0 && i.islandDistance == 3
    ensures ClosestSlot(1, 3, 0) == i.cx
    ensures !i.InIslandSpace(1, z)
  {
    SlotOfOne();
    HalfOfThree();
  }

  /** The nearest centre to x = 1 on a grid of distance 3 is 0. */
  lemma SlotOfOne()
    ensures ClosestSlot(1, 3, 0) == 0
  {
    assert (1 - 0 + 3 / 2) / 3 == 0;
  }

  /** Half of an odd distance 3 truncates to 1. */
  lemma HalfOfThree()
    ensures JavaDiv(3, 2) == 1
  {
  }

  // ------------------------------------------------------- the registry

  /** The owner-map entry deleteIsland drops: the owner's, when it is that very island. */
  function Dropped(m: map<Uuid, Island>, owner: Option<Uuid>, i: Island): (r: map<Uuid, Island>)
    ensures forall u :: u in r <==> u in m && !(owner.Some? && owner.value == u && m[u] == i)
    ensures forall u :: u in r ==> r[u] == m[u]
  {
    if owner.Some? && owner.value in m && m[owner.value] == i then m - {owner.value} else m
  }

  /** The owner's island in the ownership map, if the owner is in it. */
  function Previous(m: map<Uuid, Island>, owner: Option<Uuid>): (r: Option<Island>)
    ensures r.Some? <==> owner.Some? && owner.value in m
    ensures r.Some? ==> r.value == m[owner.value]
  {
    if owner.Some? && owner.value in m then Some(m[owner.value]) else None
  }

  /** The ownership map without the owner's entry. */
  function Without(m: map<Uuid, Island>, owner: Option<Uuid>): (r: map<Uuid, Island>)
    ensures forall u :: u in r <==> u in m && !(owner.Some? && owner.value == u)
    ensures forall u :: u in r ==> r[u] == m[u]
  {
    if owner.Some? then m - {owner.value} else m
  }

  /**
   * setIslandOwner's map edits: dropping the new owner's entry, then the
   * old owner's, then mapping the new owner to the island, leave the map
   * without the old owner's entry and with the new owner's.
   */
  lemma HandOver(m0: map<Uuid, Island>, n: Uuid, oldOwner: Option<Uuid>, i: Island, m: map<Uuid, Island>)
    requires var m1 := if n in m0 then m0 - {n} else m0;
             m == (if oldOwner.Some? && oldOwner.value in m1 then m1 - {oldOwner.value} else m1)[n := i]
    ensures m == Without(m0, oldOwner)[n := i]
  {
  }

  /** `j` is the island `n` owned before and loses when given another. */
  predicate Released(m: map<Uuid, Island>, n: Uuid, j: Island) {
    n in m && m[n] == j
  }

  /**
   * After setIslandOwner hands `i` to `n`, every owner still names its
   * island, given each island's owner before (`ob`) and after (`oa`): `i`
   * now names `n`, and every other listed island but the released one kept
   * its owner.
   */
  lemma OwnersStillAgree(before: map<Uuid, Island>, after: map<Uuid, Island>,
                         ob: map<Island, Option<Uuid>>, oa: map<Island, Option<Uuid>>,
                         i: Island, n: Uuid, oldOwner: Option<Uuid>)
    requires ob.Keys == before.Values + {i} && oa.Keys == ob.Keys
    requires forall u :: u in before ==> ob[before[u]].Some? && ob[before[u]].value == u
    requires ob[i] == oldOwner && oa[i].Some? && oa[i].value == n
    requires after == Without(before, oldOwner)[n := i]
    requires forall j :: j in ob && j != i && !Released(before, n, j) ==> oa[j] == ob[j]
    ensures forall u :: u in after ==> after[u] in oa && oa[after[u]].Some? && oa[after[u]].value == u
  {
    forall u | u in after
      ensures after[u] in oa && oa[after[u]].Some? && oa[after[u]].value == u
    {
      if u != n {
        var k := before[u];
        assert k in before.Values;
        assert after[u] == k && k != i && !Released(before, n, k);
      }
    }
  }

  /** The owner already has an island centred on (x, z). */
  predicate KeepsIsland(m: map<Uuid, Island>, owner: Option<Uuid>, x: int, z: int) {
    owner.Some? && owner.value in m && m[owner.value].cx == x && m[owner.value].cz == z
  }

  /** The island filed under the corner of `i`, if any. */
  function CornerEntry(g: IslandGrid, i: Island): (r: Option<Island>)
    ensures r.Some? <==> i.minX in g && i.minZ in g[i.minX]
    ensures r.Some? ==> r.value in Entries(g) && r.value == g[i.minX][i.minZ]
  {
    if i.minX in g && i.minZ in g[i.minX] then
      assert g[i.minX][i.minZ] in g[i.minX].Values;
      Some(g[i.minX][i.minZ])
    else None
  }

  /** An unowned island that is neither the spawn nor purge protected. */
  predicate Unowned(j: Island)
    reads j
  {
    j.owner.None? && !j.isSpawn && !j.purgeProtected
  }

  /** The key getUnownedIslands files an island under: "world:x:y:z" of its centre. */
  function CentreKey(j: Island): string {
    Join([j.world, IntToString(j.cx), IntToString(j.cy), IntToString(j.cz)], ':')
  }

  /** The key of an unowned island reads back, as a location, as the island's centre. */
  lemma CentreKeyReadsBack(j: Island, worlds: set<string>)
    requires j.world in worlds && ':' !in j.world
    requires IsInt32(j.cx) && IsInt32(j.cy) && IsInt32(j.cz)
    ensures GetLocationString(Some(CentreKey(j)), worlds) == Value(Some(j.Center()))
  {
    var fs := [j.world, IntToString(j.cx), IntToString(j.cy), IntToString(j.cz)];
    IntStringHasNo(j.cx, ':');
    IntStringHasNo(j.cy, ':');
    IntStringHasNo(j.cz, ':');
    assert forall k :: 0 <= k < 4 ==> ':' !in fs[k];
    SplitJoin(fs, ':');
    IntRoundTrip(j.cx);
    IntRoundTrip(j.cy);
    IntRoundTrip(j.cz);
  }

  /** A map that sends different keys to different islands has as many islands as keys. */
  lemma {:induction false} InjectiveSize(m: map<Uuid, Island>)
    requires forall u, v :: u in m && v in m && m[u] == m[v] ==> u == v
    ensures |m.Values| == |m|
    decreases |m|
  {
    if m != map[] {
      var u := Element(m.Keys);
      var rest := m - {u};
      InjectiveSize(rest);
      assert forall v :: v in rest ==> rest[v] != m[u];
      assert m[u] !in rest.Values;
      forall x | x in m.Values
        ensures x in rest.Values + {m[u]}
      {
        var v :| v in m && m[v] == x;
        if v != u {
          assert rest[v] == x;
        }
      }
      assert m.Values == rest.Values + {m[u]};
    }
  }

  class GridManager {
    const settings: Settings
    /** minX -> (minZ -> island). */
    var islandGrid: IslandGrid
    /** Owner -> the island they own. */
    var ownershipMap: map<Uuid, Island>
    var spawn: Island?

    /** Every island in the grid is filed under its own corner. */
    ghost predicate Valid()
      reads this
    {
      Keyed(islandGrid)
    }

    /** Every owner in the ownership map owns the island it maps to. */
    ghost predicate OwnersAgree()
      reads this, ownershipMap.Values
    {
      forall u :: u in ownershipMap ==> ownershipMap[u].owner.Some? && ownershipMap[u].owner.value == u
    }

    /** A grid with no islands and no spawn. */
    constructor(s: Settings)
      ensures settings == s && islandGrid == map[] && ownershipMap == map[] && spawn == null
      ensures Valid() && OwnersAgree()
    {
      settings := s;
      islandGrid := map[];
      ownershipMap := map[];
      spawn := null;
    }

    // ---------------------------------------------------------- lookups

    /**
     * GridManager.getIslandAt(Location): nothing outside the island world
     * (and new nether); the spawn when the location is on it; otherwise the
     * island whose space holds the column.
     */
    function GetIslandAt(l: Option<Location>): (r: Option<Island>)
      reads this, spawn
      ensures r.Some? ==> l.Some? && InWorld(settings, l.value.world)
      ensures r.Some? ==>
        (r.value == spawn && spawn.OnIsland(l.value, settings.newNether)) ||
        (r.value in Entries(islandGrid) && r.value.InIslandSpace(l.value.x, l.value.z))
      ensures l.Some? && InWorld(settings, l.value.world) && spawn != null && spawn.OnIsland(l.value, settings.newNether) ==>
        r.Some? && r.value == spawn
      ensures l.Some? && InWorld(settings, l.value.world) && !(spawn != null && spawn.OnIsland(l.value, settings.newNether)) ==>
        r == IslandAtColumn(islandGrid, l.value.x, l.value.z)
    {
      if l.None? || !InWorld(settings, l.value.world) then None
      else if spawn != null && spawn.OnIsland(l.value, settings.newNether) then
        var sp: Island := spawn;
        Some(sp)
      else IslandAtColumn(islandGrid, l.value.x, l.value.z)
    }

    /**
     * GridManager.getProtectedIslandAt: the spawn when the location is on
     * it, otherwise the island found at the location if the location is in
     * its protected box.
     */
    function GetProtectedIslandAt(l: Location): (r: Option<Island>)
      reads this, spawn, Entries(islandGrid)
      ensures r.Some? ==> r.value.OnIsland(l, settings.newNether)
      ensures r.Some? ==> r.value == spawn || r == GetIslandAt(Some(l))
      ensures spawn != null && spawn.OnIsland(l, settings.newNether) ==> r.Some? && r.value == spawn
      ensures GetIslandAt(Some(l)).Some? && GetIslandAt(Some(l)).value.OnIsland(l, settings.newNether) ==> r.Some?
    {
      if spawn != null && spawn.OnIsland(l, settings.newNether) then
        var sp: Island := spawn;
        Some(sp)
      else
        match GetIslandAt(Some(l))
        case None => None
        case Some(i) => if i.OnIsland(l, settings.newNether) then Some(i) else None
    }

    /** GridManager.isAtSpawn: there is a spawn and the location is on it. */
    function IsAtSpawn(l: Location): (b: bool)
      reads this, spawn, Entries(islandGrid)
      ensures b <==> spawn != null && spawn.OnIsland(l, settings.newNether)
      ensures b ==> GetProtectedIslandAt(l).Some? && GetProtectedIslandAt(l).value == spawn
    {
      spawn != null && spawn.OnIsland(l, settings.newNether)
    }

    /**
     * GridManager.getIsland(UUID): the player's own island, else their team
     * leader's (`leaders` is the player cache's team-leader map), following
     * one level only.
     */
    function GetIsland(p: Option<Uuid>, leaders: map<Uuid, Uuid>): (r: Option<Island>)
      reads this
      ensures r.Some? <==> p.Some? && (p.value in ownershipMap || (p.value in leaders && leaders[p.value] in ownershipMap))
      ensures r.Some? ==> r.value in ownershipMap.Values
      ensures p.Some? && p.value in ownershipMap ==> r == Some(ownershipMap[p.value])
    {
      if p.None? then None
      else if p.value in ownershipMap then Some(ownershipMap[p.value])
      else if p.value in leaders && leaders[p.value] in ownershipMap then Some(ownershipMap[leaders[p.value]])
      else None
    }

    /** While owners agree, getIsland finds an island owned by the player or by their team leader. */
    lemma GetIslandOwner(p: Option<Uuid>, leaders: map<Uuid, Uuid>)
      requires OwnersAgree()
      ensures var r := GetIsland(p, leaders);
        r.Some? ==> r.value.owner == p || (p.value in leaders && r.value.owner.Some? && r.value.owner.value == leaders[p.value])
    {
    }

    /** GridManager.getIslandCount: the size of the ownership map. */
    function GetIslandCount(): (n: nat)
      reads this
    {
      |ownershipMap|
    }

    /** While owners agree, getIslandCount is the number of distinct owned islands. */
    lemma IslandCountIsOwnedIslands()
      requires OwnersAgree()
      ensures GetIslandCount() == |ownershipMap.Values|
    {
      InjectiveSize(ownershipMap);
    }

    /**
     * When the spawn is filed under its own corner, the island deleteIsland
     * finds is the island under its corner.
     */
    predicate DeletesFoundIsland(l: Option<Location>)
      reads this, spawn
    {
      GetIslandAt(l).None? || CornerEntry(islandGrid, GetIslandAt(l).value).None? ||
      CornerEntry(islandGrid, GetIslandAt(l).value) == GetIslandAt(l)
    }

    /** The grid entry deleteIsland clears: the one under the corner of the island found at the location. */
    function DeletedEntry(l: Option<Location>): (r: Option<Island>)
      reads this, spawn
      ensures r.Some? ==> r.value in Entries(islandGrid)
    {
      if GetIslandAt(l).None? then None else CornerEntry(islandGrid, GetIslandAt(l).value)
    }

    lemma FoundIslandIsFiled(l: Option<Location>)
      requires Valid() && (spawn == null || Filed(islandGrid, spawn))
      ensures DeletesFoundIsland(l)
      ensures GetIslandAt(l).Some? ==> Filed(islandGrid, GetIslandAt(l).value)
    {
      if GetIslandAt(l).Some? && GetIslandAt(l).value != spawn {
        var j := GetIslandAt(l).value;
        var kx, kz :| kx in islandGrid && kz in islandGrid[kx] && kx <= l.value.x && kz <= l.value.z && islandGrid[kx][kz] == j;
      }
    }

    // -------------------------------------------------------- mutations

    /**
     * GridManager.addToGrids: the owner is mapped to the island first; the
     * island is then filed under its corner unless the corner is taken, in
     * which case the island already there stays.
     */
    method AddToGrids(j: Island)
      requires Valid()
      modifies this`islandGrid, this`ownershipMap
      ensures Valid()
      ensures islandGrid == WithIsland(old(islandGrid), j)
      ensures ownershipMap == if j.owner.Some? then old(ownershipMap)[j.owner.value := j] else old(ownershipMap)
      ensures old(OwnersAgree()) ==> OwnersAgree()
    {
      if j.owner.Some? {
        ownershipMap := ownershipMap[j.owner.value := j];
      }
      if j.minX in islandGrid {
        var column := islandGrid[j.minX];
        if j.minZ in column {
          // A duplicate or overlapping island: the registered one wins.
        } else {
          islandGrid := islandGrid[j.minX := column[j.minZ := j]];
        }
      } else {
        islandGrid := islandGrid[j.minX := map[j.minZ := j]];
      }
      WithIslandKeyed(old(islandGrid), j);
    }

    /**
     * GridManager.addIsland(x, z, owner): an owner whose island has the same
     * centre gets that island registered again; an owner whose island is
     * elsewhere loses it, and a new island centred on (x, z) is created and
     * registered.
     */
    method AddIsland(x: int, z: int, owner: Option<Uuid>) returns (r: Island)
      requires Valid()
      modifies this`islandGrid, this`ownershipMap, ownershipMap.Values`owner
      ensures Valid()
      ensures islandGrid == WithIsland(old(islandGrid), r)
      ensures KeepsIsland(old(ownershipMap), owner, x, z) ==>
        r == old(ownershipMap)[owner.value] && r.owner == old(r.owner) &&
        ownershipMap == if r.owner.Some? then old(ownershipMap)[r.owner.value := r] else old(ownershipMap)
      ensures !KeepsIsland(old(ownershipMap), owner, x, z) ==>
        ownershipMap == if owner.Some? then old(ownershipMap)[owner.value := r] else old(ownershipMap)
      ensures !KeepsIsland(old(ownershipMap), owner, x, z) ==>
        fresh(r) && r.cx == x && r.cz == z && r.cy == settings.islandHeight && r.world == settings.islandWorld &&
        r.islandDistance == settings.islandDistance && r.protectionRange == settings.islandProtectionRange &&
        r.Valid() && r.owner == owner && !r.locked && !r.isSpawn
      ensures owner.Some? && owner.value in old(ownershipMap) && r != old(ownershipMap)[owner.value] ==>
        old(ownershipMap)[owner.value].owner.None?
      ensures forall j :: j in old(ownershipMap.Values) && j != r && Previous(old(ownershipMap), owner) != Some(j) ==>
        j.owner == old(j.owner)
      ensures old(OwnersAgree()) ==> OwnersAgree()
    {
      if owner.Some? && owner.value in ownershipMap {
        var island := ownershipMap[owner.value];
        if island.cx != x || island.cz != z {
          island.owner := None;
          ownershipMap := ownershipMap - {owner.value};
        } else {
          AddToGrids(island);
          return island;
        }
      }
      r := new Island(settings, x, z, owner);
      AddToGrids(r);
    }

    /** GridManager.addIsland(x, z): a new unowned island centred on (x, z), unless one is filed there. */
    method AddUnownedIsland(x: int, z: int) returns (r: Island)
      requires Valid()
      modifies this`islandGrid, this`ownershipMap
      ensures Valid()
      ensures fresh(r) && r.cx == x && r.cz == z && r.cy == settings.islandHeight && r.world == settings.islandWorld &&
        r.islandDistance == settings.islandDistance && r.protectionRange == settings.islandProtectionRange &&
        r.Valid() && r.owner.None? && !r.locked && !r.isSpawn
      ensures islandGrid == WithIsland(old(islandGrid), r)
      ensures ownershipMap == old(ownershipMap)
    {
      r := new Island(settings, x, z, None);
      AddToGrids(r);
    }

    /**
     * GridManager.deleteIslandOwner: the owner's island (if they are in the
     * map) loses its owner and the owner leaves the map.
     */
    method DeleteIslandOwner(owner: Option<Uuid>)
      modifies this`ownershipMap, ownershipMap.Values`owner
      ensures owner.Some? && owner.value in old(ownershipMap) ==>
        ownershipMap == old(ownershipMap) - {owner.value} && old(ownershipMap)[owner.value].owner.None?
      ensures !(owner.Some? && owner.value in old(ownershipMap)) ==> ownershipMap == old(ownershipMap)
      ensures forall j :: j in old(ownershipMap.Values) && Previous(old(ownershipMap), owner) != Some(j) ==>
        j.owner == old(j.owner)
      ensures old(OwnersAgree()) ==> OwnersAgree()
    {
      if owner.Some? && owner.value in ownershipMap {
        var island := ownershipMap[owner.value];
        island.owner := None;
        ownershipMap := ownershipMap - {owner.value};
      }
    }

    /**
     * GridManager.deleteIsland: the island found at the location has the
     * entry under its corner removed (that entry's island losing its owner
     * and lock), and its owner leaves the map if the owner's entry is that
     * island. Nothing happens when no island is found.
     */
    method DeleteIsland(l: Option<Location>)
      requires Valid()
      modifies this`islandGrid, this`ownershipMap, Entries(islandGrid)`owner, Entries(islandGrid)`locked
      ensures Valid()
      ensures old(GetIslandAt(l)).None? ==> islandGrid == old(islandGrid) && ownershipMap == old(ownershipMap)
      ensures old(GetIslandAt(l)).Some? ==>
        var i := old(GetIslandAt(l)).value;
        islandGrid == Removed(old(islandGrid), i.minX, i.minZ) &&
        ownershipMap == Dropped(old(ownershipMap), old(i.owner), i)
      ensures old(DeletedEntry(l)).Some? ==> old(DeletedEntry(l)).value.owner.None? && !old(DeletedEntry(l)).value.locked
      ensures forall j :: j in old(Entries(islandGrid)) && old(DeletedEntry(l)) != Some(j) ==>
        j.owner == old(j.owner) && j.locked == old(j.locked)
      ensures old(OwnersAgree() && DeletesFoundIsland(l)) ==> OwnersAgree()
    {
      var found := GetIslandAt(l);
      if found.Some? {
        var island := found.value;
        var owner := island.owner;
        var x, z := island.minX, island.minZ;
        if x in islandGrid {
          var column := islandGrid[x];
          if z in column {
            var deleted := column[z];
            assert deleted in Entries(islandGrid) by {
              assert deleted in islandGrid[x].Values;
            }
            deleted.owner := None;
            deleted.locked := false;
            islandGrid := islandGrid[x := column - {z}];
          }
        }
        if owner.Some? && owner.value in ownershipMap && ownershipMap[owner.value] == island {
          ownershipMap := ownershipMap - {owner.value};
        }
        RemovedIslandIsGone(old(islandGrid), island, 0, 0);
      }
    }

    /** GridManager.deleteSpawn: delete the island at the spawn's centre, then forget the spawn. */
    method DeleteSpawn()
      requires Valid() && spawn != null
      modifies this`islandGrid, this`ownershipMap, this`spawn, Entries(islandGrid)`owner, Entries(islandGrid)`locked
      ensures Valid() && spawn == null
      ensures var t := old(GetIslandAt(Some(spawn.Center())));
        islandGrid == (if t.Some? then Removed(old(islandGrid), t.value.minX, t.value.minZ) else old(islandGrid)) &&
        ownershipMap == (if t.Some? then Dropped(old(ownershipMap), old(t.value.owner), t.value) else old(ownershipMap))
      ensures var d := old(DeletedEntry(Some(spawn.Center())));
        (d.Some? ==> d.value.owner.None? && !d.value.locked) &&
        forall j :: j in old(Entries(islandGrid)) && d != Some(j) ==> j.owner == old(j.owner) && j.locked == old(j.locked)
      ensures old(OwnersAgree() && DeletesFoundIsland(Some(spawn.Center()))) ==> OwnersAgree()
    {
      DeleteIsland(Some(spawn.Center()));
      spawn := null;
    }

    /**
     * A spawn in the island world with a protection range of at least one
     * lies on its own centre, so deleteSpawn deletes the spawn's own entry.
     */
    lemma SpawnFindsItself()
      requires spawn != null && spawn.Valid() && spawn.protectionRange >= 1 && spawn.world == settings.islandWorld
      ensures GetIslandAt(Some(spawn.Center())).Some? && GetIslandAt(Some(spawn.Center())).value == spawn
    {
      JavaDivNonNeg(spawn.protectionRange, 2);
    }

    /**
     * GridManager.setSpawn: the island becomes the spawn, with a protection
     * range equal to its island distance.
     */
    method SetSpawn(j: Island)
      modifies this`spawn, j`isSpawn, j`protectionRange, j`minProtectedX, j`minProtectedZ
      ensures spawn == j && j.isSpawn && j.protectionRange == j.islandDistance && j.Valid()
    {
      j.isSpawn := true;
      j.SetProtectionSize(j.islandDistance);
      spawn := j;
    }

    /**
     * GridManager.setIslandOwner: with no new owner the old owner leaves the
     * map and the island is unowned. Otherwise the new owner's previous
     * island (if any) is released, the island gets the new owner, the old
     * owner leaves the map and the new owner maps to the island.
     */
    method SetIslandOwner(i: Island, newOwner: Option<Uuid>)
      modifies this`ownershipMap, i`owner, ownershipMap.Values`owner
      ensures newOwner.None? ==> i.owner.None? && ownershipMap == Without(old(ownershipMap), old(i.owner))
      ensures newOwner.Some? ==> i.owner == newOwner && ownershipMap == Without(old(ownershipMap), old(i.owner))[newOwner.value := i]
      ensures newOwner.Some? && newOwner.value in old(ownershipMap) && old(ownershipMap)[newOwner.value] != i ==>
        old(ownershipMap)[newOwner.value].owner.None?
      ensures forall j :: j in old(ownershipMap.Values) && j != i && Previous(old(ownershipMap), newOwner) != Some(j) ==>
        j.owner == old(j.owner)
      ensures old(OwnersAgree()) ==> OwnersAgree()
    {
      var oldOwner := i.owner;
      ghost var before := ownershipMap;
      ghost var dom := before.Values + {i};
      ghost var ownersBefore := map j | j in dom :: j.owner;
      if newOwner.None? {
        if oldOwner.Some? {
          ownershipMap := ownershipMap - {oldOwner.value};
          i.owner := None;
        }
        // Otherwise the map has no null key and nothing changes.
        return;
      }
      var n := newOwner.value;
      var m := ownershipMap;
      if n in m {
        var oldIsland := m[n];
        oldIsland.owner := None;
        m := m - {n};
      }
      i.owner := newOwner;
      assert forall j :: j in dom && j != i && !Released(before, n, j) ==> j.owner == ownersBefore[j];
      if oldOwner.Some? && oldOwner.value in m {
        m := m - {oldOwner.value};
      }
      m := m[n := i];
      HandOver(before, n, oldOwner, i, m);
      ownershipMap := m;
      ghost var ownersAfter := map j | j in dom :: j.owner;
      if old(OwnersAgree()) {
        assert forall u :: u in before ==> before[u] in before.Values;
        OwnersStillAgree(before, m, ownersBefore, ownersAfter, i, n, oldOwner);
      }
    }

    // ----------------------------------------------------------- search

    /**
     * The bounds of bigScan's radii: a positive range `i` in all six
     * directions; otherwise the protection size of the island at `l`
     * sideways, down to y = 0 and up to `maxHeight`, the world's maximum
     * height. `None` when the range is not positive and no island is at `l`.
     */
    function ScanBounds(l: Location, i: int, maxHeight: int): Option<Radii>
      reads this, spawn, Entries(islandGrid)
    {
      if i > 0 then Some(Radii(i, i, i, i, i, i))
      else if GetIslandAt(Some(l)).None? then None
      else
        var r := GetIslandAt(Some(l)).value.protectionRange;
        Some(Radii(r, r, l.y, maxHeight - l.y, r, r))
    }

    /**
     * GridManager.bigScan: the first safe block found by growing boxes
     * around the block of `l`. As written the pass whose radii reach the
     * bounds is never run (see Scan.SearchAsWritten).
     */
    method BigScan(l: Location, i: int, maxHeight: int, safe: Pos -> bool) returns (found: Option<Pos>)
      ensures ScanBounds(l, i, maxHeight).None? ==> found.None?
      ensures ScanBounds(l, i, maxHeight).Some? ==>
        var b, c := ScanBounds(l, i, maxHeight).value, Pos(l.x, l.y, l.z);
        (found.Some? ==> safe(found.value) && InBox(found.value, c, Grown(b, LastPass(b)))) &&
        (found.Some? ==> exists k :: 0 <= k <= LastPass(b) && InBox(found.value, c, Grown(b, k)) && NoneSafeUpTo(c, b, k - 1, safe)) &&
        (found.None? ==> NoneSafeUpTo(c, b, LastPass(b), safe))
    {
      var bounds := ScanBounds(l, i, maxHeight);
      if bounds.None? {
        return None;
      }
      var b, c := bounds.value, Pos(l.x, l.y, l.z);
      ghost var pass;
      found, pass := SearchAsWritten(c, b, safe);
      if found.Some? {
        BoxesNest(b, pass, LastPass(b), c, found.value);
      }
      assert found.Some? ==> safe(found.value) && InBox(found.value, c, Grown(b, LastPass(b)));
    }

    /** bigScan as intended: the full box of radii equal to the bounds is searched. */
    method BigScanFull(l: Location, i: int, maxHeight: int, safe: Pos -> bool) returns (found: Option<Pos>)
      ensures ScanBounds(l, i, maxHeight).None? ==> found.None?
      ensures ScanBounds(l, i, maxHeight).Some? ==>
        var b, c := ScanBounds(l, i, maxHeight).value, Pos(l.x, l.y, l.z);
        (found.Some? ==> safe(found.value) && InBox(found.value, c, Grown(b, Reach(b)))) &&
        (found.Some? ==> exists k :: 0 <= k <= Reach(b) && InBox(found.value, c, Grown(b, k)) && NoneSafeUpTo(c, b, k - 1, safe)) &&
        (found.None? ==> NoneSafeUpTo(c, b, Reach(b), safe))
    {
      var bounds := ScanBounds(l, i, maxHeight);
      if bounds.None? {
        return None;
      }
      var b, c := bounds.value, Pos(l.x, l.y, l.z);
      ghost var pass;
      found, pass := SearchFull(c, b, safe);
      if found.Some? {
        BoxesNest(b, pass, Reach(b), c, found.value);
      }
      assert found.Some? ==> safe(found.value) && InBox(found.value, c, Grown(b, Reach(b)));
    }

    // ---------------------------------------------------------- queries

    /**
     * GridManager.getUnownedIslands: every grid island with no owner that is
     * neither the spawn nor purge protected, keyed by its centre.
     */
    method GetUnownedIslands() returns (result: map<string, Island>)
      ensures forall k :: k in result ==> result[k] in Entries(islandGrid) && Unowned(result[k]) && CentreKey(result[k]) == k
      ensures forall j :: j in Entries(islandGrid) && Unowned(j) ==> CentreKey(j) in result
    {
      result := map[];
      var columns := islandGrid.Keys;
      while columns != {}
        invariant columns <= islandGrid.Keys
        invariant forall k :: k in result ==> result[k] in Entries(islandGrid) && Unowned(result[k]) && CentreKey(result[k]) == k
        invariant forall kx, j :: kx in islandGrid && kx !in columns && j in islandGrid[kx].Values && Unowned(j) ==>
          CentreKey(j) in result
        decreases columns
      {
        ghost var someColumn := Element(columns);
        var kx :| kx in columns;
        var rest := islandGrid[kx].Values;
        while rest != {}
          invariant rest <= islandGrid[kx].Values
          invariant forall k :: k in result ==> result[k] in Entries(islandGrid) && Unowned(result[k]) && CentreKey(result[k]) == k
          invariant forall kx', j :: kx' in islandGrid && kx' !in columns && j in islandGrid[kx'].Values && Unowned(j) ==>
            CentreKey(j) in result
          invariant forall j :: j in islandGrid[kx].Values && j !in rest && Unowned(j) ==> CentreKey(j) in result
          decreases rest
        {
          ghost var someIsland := Element(rest);
          var j :| j in rest;
          if Unowned(j) {
            result := result[CentreKey(j) := j];
          }
          rest := rest - {j};
        }
        columns := columns - {kx};
      }
    }
  }
}
