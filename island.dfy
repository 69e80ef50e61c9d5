/**
 * One island (Island.java): its place on the grid, its protected box, its
 * owner, its protection flags, and the colon-separated record it is saved
 * as in islands.yml.
 */
module Islands {
  import opened Base
  import opened Uuids
  import opened Locations
  import opened Flags
  import opened Config

  /**
   * Every field that the record-reading constructor sets. Where the record
   * ends early or holds a malformed value the constructor stops, and the
   * fields it has not reached keep Java's initial values (see Unset).
   */
  datatype IslandRecord = IslandRecord(
    protectionRange: int, islandDistance: int, minX: int, minZ: int, y: int,
    minProtectedX: int, minProtectedZ: int, center: Option<Location>,
    locked: bool, purgeProtected: bool, isSpawn: bool, spawnPoint: Option<Location>,
    owner: Option<Uuid>, igs: map<Flag, bool>, biome: Option<string>, levelHandicap: int)

  /** The fields of a freshly allocated Island before the constructor body runs. */
  const Unset := IslandRecord(0, 0, 0, 0, 0, 0, 0, None, false, false, false, None, None, map[], None, 0)

  /** The fixed text that puts a spawn point at the end of the spawn record. */
  const SpawnPointMarker := ":SP:"

  class Island {
    /** The island world's name; the centre lies in it. */
    const world: string
    const cx: int
    const cy: int
    const cz: int
    const islandDistance: int
    /** The corner of the island's space, its key in the grid. */
    const minX: int := cx - JavaDiv(islandDistance, 2)
    const minZ: int := cz - JavaDiv(islandDistance, 2)

    var protectionRange: int
    var minProtectedX: int
    var minProtectedZ: int
    var owner: Option<Uuid>
    var locked: bool
    var isSpawn: bool
    var purgeProtected: bool
    var igs: map<Flag, bool>
    var biome: Option<string>
    var spawnPoint: Option<Location>
    var levelHandicap: int

    /** The protected box is centred on the island as setProtectionSize places it. */
    ghost predicate Valid()
      reads this
    {
      minProtectedX == cx - JavaDiv(protectionRange, 2) &&
      minProtectedZ == cz - JavaDiv(protectionRange, 2)
    }

    function Center(): Location {
      BlockLocation(world, cx, cy, cz)
    }

    /** All the fields the saved record can carry, as a value. */
    function Snapshot(): IslandRecord
      reads this
    {
      IslandRecord(protectionRange, islandDistance, minX, minZ, cy, minProtectedX, minProtectedZ,
        Some(Center()), locked, purgeProtected, isSpawn, spawnPoint, owner, igs, biome, levelHandicap)
    }

    /** A new island centred on (x, z) at the configured height (Island.java:186-203). */
    constructor(s: Settings, x: int, z: int, owner: Option<Uuid>)
      ensures world == s.islandWorld && cx == x && cy == s.islandHeight && cz == z
      ensures islandDistance == s.islandDistance && protectionRange == s.islandProtectionRange
      ensures Valid()
      ensures this.owner == owner && !locked && !isSpawn && !purgeProtected
      ensures igs == DefaultFlags(s.defaultIslandSettings)
      ensures biome.None? && spawnPoint.None? && levelHandicap == 0
    {
      world := s.islandWorld;
      cx := x;
      cy := s.islandHeight;
      cz := z;
      islandDistance := s.islandDistance;
      protectionRange := s.islandProtectionRange;
      minProtectedX := x - JavaDiv(s.islandProtectionRange, 2);
      minProtectedZ := z - JavaDiv(s.islandProtectionRange, 2);
      this.owner := owner;
      locked := false;
      isSpawn := false;
      purgeProtected := false;
      igs := map[];
      biome := None;
      spawnPoint := None;
      levelHandicap := 0;
      new;
      SetIgsDefaults(s.defaultIslandSettings);
    }

    /**
     * An island read from its saved record (Island.java:57-113), for a record
     * that gets at least as far as the centre.
     */
    constructor Load(s: Settings, worlds: set<string>, biomes: set<string>, serial: string, key: seq<string>)
      requires ParseSerial(s, worlds, biomes, serial, key).center.Some?
      ensures Snapshot() == ParseSerial(s, worlds, biomes, serial, key)
      ensures Valid()
    {
      var r := ParseSerial(s, worlds, biomes, serial, key);
      var c := r.center.value;
      world := s.islandWorld;
      cx := c.x;
      cy := c.y;
      cz := c.z;
      islandDistance := r.islandDistance;
      protectionRange := r.protectionRange;
      minProtectedX := r.minProtectedX;
      minProtectedZ := r.minProtectedZ;
      owner := r.owner;
      locked := r.locked;
      isSpawn := r.isSpawn;
      purgeProtected := r.purgeProtected;
      igs := r.igs;
      biome := r.biome;
      spawnPoint := r.spawnPoint;
      levelHandicap := r.levelHandicap;
    }

    // ------------------------------------------------------------ geometry

    /** Whether column (x, z) lies in the island's space, `[c - d/2, c + d/2)` on both axes. */
    predicate InIslandSpace(x: int, z: int) {
      cx - JavaDiv(islandDistance, 2) <= x < cx + JavaDiv(islandDistance, 2) &&
      cz - JavaDiv(islandDistance, 2) <= z < cz + JavaDiv(islandDistance, 2)
    }

    /** Whether column (x, z) lies in the protected box, `[minProtected, minProtected + range)` on both axes. */
    predicate Protects(x: int, z: int)
      reads this
    {
      minProtectedX <= x < minProtectedX + protectionRange &&
      minProtectedZ <= z < minProtectedZ + protectionRange
    }

    /**
     * Island.onIsland: the location is in the island world (or in the new
     * nether, when there is one) and inside the protected box.
     */
    predicate OnIsland(l: Location, newNether: Option<string>)
      reads this
    {
      (l.world == Some(world) || (newNether.Some? && l.world == newNether)) && Protects(l.x, l.z)
    }

    /** Island.setProtectionSize: a new range, with the box re-centred on the island. */
    method SetProtectionSize(size: int)
      modifies this`protectionRange, this`minProtectedX, this`minProtectedZ
      ensures protectionRange == size && Valid()
    {
      protectionRange := size;
      minProtectedX := cx - JavaDiv(size, 2);
      minProtectedZ := cz - JavaDiv(size, 2);
    }

    // --------------------------------------------------------------- flags

    /** Island.setIgsDefaults: every flag set to its default. */
    method SetIgsDefaults(defaults: map<Flag, Option<bool>>)
      modifies this`igs
      ensures igs == DefaultFlags(defaults)
    {
      var flags := AllFlags();
      for i := 0 to |flags|
        invariant forall k :: 0 <= k < i ==> flags[k] in igs && igs[flags[k]] == DefaultValue(defaults, flags[k])
        invariant forall f :: f !in flags[..i] ==> (f in igs <==> f in old(igs)) && (f in igs ==> igs[f] == old(igs)[f])
      {
        var flag := flags[i];
        assert flags[..i + 1] == flags[..i] + [flag];
        igs := igs[flag := DefaultValue(defaults, flag)];
      }
      forall f ensures f in igs && igs[f] == DefaultFlags(defaults)[f] {
        assert flags[FlagIndex(f)] == f;
      }
      FullMapsEqual(igs, DefaultFlags(defaults));
    }

    /** Island.setSpawnDefaults, whose body is the same as setIgsDefaults'. */
    method SetSpawnDefaults(defaults: map<Flag, Option<bool>>)
      modifies this`igs
      ensures igs == DefaultFlags(defaults)
    {
      SetIgsDefaults(defaults);
    }

    /** Island.setIgsFlag. */
    method SetIgsFlag(flag: Flag, value: bool)
      modifies this`igs
      ensures igs == old(igs)[flag := value]
    {
      igs := igs[flag := value];
    }

    /**
     * Island.setSettings: the defaults, then each flag the key names set
     * from the matching character, when the text is as long as the key.
     */
    method SetSettings(defaults: map<Flag, Option<bool>>, settings: Option<string>, key: seq<string>)
      modifies this`igs
      ensures igs == SettingsResult(defaults, settings, key)
    {
      if isSpawn {
        SetSpawnDefaults(defaults);
      } else {
        SetIgsDefaults(defaults);
      }
      if settings.None? || settings.value == "" {
        return;
      }
      var s := settings.value;
      if |key| != |s| {
        return;
      }
      for i := 0 to |key|
        invariant igs == ApplyPrefix(DefaultFlags(defaults), s, key, i)
      {
        var flag := FlagValueOf(key[i]);
        if s[i] == '0' {
          if flag.Some? {
            SetIgsFlag(flag.value, false);
          }
        } else {
          if flag.Some? {
            SetIgsFlag(flag.value, true);
          }
        }
      }
    }

    /** Island.getIgsFlag: an absent flag reads as false. */
    predicate GetIgsFlag(flag: Flag)
      reads this
    {
      flag in igs && igs[flag]
    }

    /** Island.toggleIgs: a present flag is flipped, an absent one stays absent. */
    method ToggleIgs(flag: Flag)
      modifies this`igs
      ensures igs == Toggled(old(igs), flag)
    {
      if flag in igs {
        igs := igs[flag := !igs[flag]];
      }
    }

    /** Island.getSettings: one character per flag, built up in declaration order. */
    method GetSettings() returns (r: string)
      ensures r == EncodeFlags(igs)
    {
      var flags := AllFlags();
      var all := EncodeFlags(igs);
      r := "";
      for i := 0 to |flags|
        invariant r == all[..i]
      {
        if flags[i] in igs {
          r := r + (if igs[flags[i]] then "1" else "0");
        } else {
          r := r + "0";
        }
        assert all[..i + 1] == all[..i] + [all[i]];
      }
      assert all[..|flags|] == all;
    }

    // -------------------------------------------------------------- saving

    /** The owner field of the record: the UUID, or "null" for an unowned island. */
    function OwnerString(): string
      reads this
    {
      if owner.Some? then UuidToString(owner.value) else "null"
    }

    /** The biome written by save(): the island's own, or the one of the world at its centre. */
    function BiomeName(worldBiome: string): string
      reads this
    {
      if biome.Some? then biome.value else worldBiome
    }

    /** The first five fields: centre x, y, z, protection range and island distance. */
    function HeadFields(): (fs: seq<string>)
      reads this
      ensures |fs| == 5 && forall k :: 0 <= k < 5 ==> ':' !in fs[k] && 'S' !in fs[k]
    {
      IntStringHasNo(cx, ':');
      IntStringHasNo(cy, ':');
      IntStringHasNo(cz, ':');
      IntStringHasNo(protectionRange, ':');
      IntStringHasNo(islandDistance, ':');
      IntStringHasNo(cx, 'S');
      IntStringHasNo(cy, 'S');
      IntStringHasNo(cz, 'S');
      IntStringHasNo(protectionRange, 'S');
      IntStringHasNo(islandDistance, 'S');
      [IntToString(cx), IntToString(cy), IntToString(cz), IntToString(protectionRange), IntToString(islandDistance)]
    }

    /** The eight fields of a spawn record. */
    function SpawnFields(): (fs: seq<string>)
      reads this
      ensures |fs| == 8 && forall k :: 0 <= k < 8 ==> ':' !in fs[k] && 'S' !in fs[k]
      ensures fs[5] == "spawn" && fs[6] == BoolToString(locked) && fs[7] == BoolToString(purgeProtected)
    {
      HeadFields() + ["spawn", BoolToString(locked), BoolToString(purgeProtected)]
    }

    /** The eleven fields of the record of an island that is not the spawn. */
    function IslandFields(worldBiome: string): (fs: seq<string>)
      reads this
      ensures |fs| == 11 && fs[..5] == HeadFields()
      ensures fs[5] == OwnerString() && fs[6] == BoolToString(locked) && fs[7] == BoolToString(purgeProtected)
      ensures fs[8] == EncodeFlags(igs) && fs[9] == BiomeName(worldBiome) && fs[10] == IntToString(levelHandicap)
      ensures forall k :: 0 <= k < 11 && k != 9 ==> ':' !in fs[k]
      ensures fs[10] != ""
    {
      OwnerHasNoColon();
      IntStringHasNo(levelHandicap, ':');
      HeadFields() + [OwnerString(), BoolToString(locked), BoolToString(purgeProtected),
        EncodeFlags(igs), BiomeName(worldBiome), IntToString(levelHandicap)]
    }

    /**
     * Island.save(): the record of the island. `worldBiome` is the biome of
     * the world block at the centre, used when the island has none of its own.
     */
    function Save(worldBiome: string): (s: string)
      reads this
      ensures isSpawn && spawnPoint.None? ==> Split(s, ':') == SpawnFields()
      ensures !isSpawn && ':' !in BiomeName(worldBiome) ==> Split(s, ':') == IslandFields(worldBiome)
    {
      if isSpawn then
        var head := Join(SpawnFields(), ':');
        SplitJoin(SpawnFields(), ':');
        if spawnPoint.Some? then head + SpawnPointMarker + GetStringLocation(spawnPoint) else head
      else
        var fs := IslandFields(worldBiome);
        if ':' !in BiomeName(worldBiome) then
          SplitJoin(fs, ':');
          Join(fs, ':')
        else
          Join(fs, ':')
    }

    lemma OwnerHasNoColon()
      ensures ':' !in OwnerString()
    {
      if owner.Some? {
        UuidHasNoSeparator(owner.value, ':');
      }
    }
  }

  /** The flag map after toggleIgs. */
  function Toggled(m: map<Flag, bool>, flag: Flag): (r: map<Flag, bool>)
    ensures r.Keys == m.Keys
    ensures forall f :: f in m && f != flag ==> r[f] == m[f]
    ensures flag in m ==> r[flag] == !m[flag]
  {
    if flag in m then m[flag := !m[flag]] else m
  }

  /** Toggling a flag twice gives the flags back. */
  lemma ToggleTwice(m: map<Flag, bool>, flag: Flag)
    ensures Toggled(Toggled(m, flag), flag) == m
  {
  }

  /** getIgsFlag reads the same value that getSettings writes for the flag. */
  lemma GetIgsFlagMatchesSettings(i: Island, flag: Flag)
    ensures i.GetIgsFlag(flag) <==> EncodeFlags(i.igs)[FlagIndex(flag)] == '1'
  {
  }

  // ------------------------------------------------------------ geometry

  /** The island space is the `2 * (d / 2)` columns from the corner (minX, minZ) on. */
  lemma SpaceFromCorner(i: Island, x: int, z: int)
    ensures i.InIslandSpace(x, z) <==>
      i.minX <= x < i.minX + 2 * JavaDiv(i.islandDistance, 2) && i.minZ <= z < i.minZ + 2 * JavaDiv(i.islandDistance, 2)
  {
  }

  /**
   * For an odd island distance the island space is one column narrower
   * than the distance: the last column before the next island's corner
   * belongs to neither island.
   */
  lemma OddDistanceLeavesGap(i: Island)
    requires i.islandDistance > 0 && i.islandDistance % 2 == 1
    ensures !i.InIslandSpace(i.minX + i.islandDistance - 1, i.minZ)
    ensures i.InIslandSpace(i.minX + i.islandDistance - 2, i.minZ) || i.islandDistance == 1
  {
    JavaDivNonNeg(i.islandDistance, 2);
  }

  /**
   * The protected box is exactly `protectionRange` columns wide. For an even
   * range it reaches one column further on the negative side than on the
   * positive side; for an odd range it is symmetric about the centre.
   */
  lemma ProtectedBoxShape(i: Island)
    requires i.Valid() && i.protectionRange > 0
    ensures var r, h := i.protectionRange, JavaDiv(i.protectionRange, 2);
      i.Protects(i.cx - h, i.cz) && !i.Protects(i.cx - h - 1, i.cz) &&
      i.Protects(i.cx - h + r - 1, i.cz) && !i.Protects(i.cx - h + r, i.cz) &&
      (r % 2 == 0 ==> !i.Protects(i.cx + h, i.cz)) &&
      (r % 2 == 1 ==> i.Protects(i.cx + h, i.cz) && !i.Protects(i.cx + h + 1, i.cz))
  {
    JavaDivNonNeg(i.protectionRange, 2);
  }

  /**
   * The protected box lies inside the island space exactly when the range is
   * at most `2 * (d / 2)`: for an odd distance, a range equal to the
   * distance already reaches one column out.
   */
  lemma {:induction false} ProtectionInsideSpace(i: Island)
    requires i.Valid() && i.protectionRange >= 0 && i.islandDistance >= 0
    ensures (forall x, z :: i.Protects(x, z) ==> i.InIslandSpace(x, z)) <==>
      i.protectionRange <= 2 * JavaDiv(i.islandDistance, 2)
  {
    var r, d := i.protectionRange, i.islandDistance;
    JavaDivNonNeg(r, 2);
    JavaDivNonNeg(d, 2);
    if r > 2 * JavaDiv(d, 2) {
      var x, z := i.minProtectedX + r - 1, i.minProtectedZ;
      assert i.Protects(x, z) && !i.InIslandSpace(x, z);
    }
  }

  /**
   * The spawn gets a protection range equal to its island distance
   * (GridManager.setSpawn); for an odd distance its protected box then
   * covers a column of the neighbouring island's space.
   */
  lemma SpawnProtectionOverhang(i: Island)
    requires i.Valid() && i.protectionRange == i.islandDistance
    requires i.islandDistance > 0 && i.islandDistance % 2 == 1
    ensures var x := i.cx + JavaDiv(i.islandDistance, 2);
      i.Protects(x, i.cz) && !i.InIslandSpace(x, i.cz)
  {
    JavaDivNonNeg(i.islandDistance, 2);
  }

  // ------------------------------------------------------------- reading

  /**
   * The island that `new Island(plugin, serial, settingsKey)` builds
   * (Island.java:57-113), as the record of the fields it sets. The stages
   * follow the constructor: protection range (field 3), island distance
   * (field 4), centre x and z (fields 0 and 2), minX, height (field 1),
   * the rest of the geometry, locked (field 6) and purge protection
   * (field 7), then owner or spawn (field 5), flags (field 8), biome
   * (field 9) and level handicap (field 10). A missing field or a malformed
   * number ends the constructor at that point.
   */
  function ParseSerial(s: Settings, worlds: set<string>, biomes: set<string>, serial: string, key: seq<string>): (r: IslandRecord)
    ensures r.center.Some? ==> GeometryOf(s, r)
    ensures r.center.None? ==> r.owner.None? && !r.isSpawn && r.igs == map[] && !r.locked && !r.purgeProtected
    ensures r.igs == map[] || Full(r.igs)
    ensures r.owner.Some? ==> !r.isSpawn
  {
    var split := Split(serial, ':');
    var head := ParseHead(s, split);
    if head.center.None? || |split| <= 5 then head
    else ParseOwnerOnwards(s, worlds, biomes, serial, key, split, head)
  }

  /**
   * The geometry of a record whose centre was read: the centre in the island
   * world, and the corners of the island space and of the protected box
   * computed from it.
   */
  ghost predicate GeometryOf(s: Settings, r: IslandRecord)
    requires r.center.Some?
  {
    var c := r.center.value;
    c == BlockLocation(s.islandWorld, c.x, c.y, c.z) && r.y == c.y &&
    r.minX == c.x - JavaDiv(r.islandDistance, 2) && r.minZ == c.z - JavaDiv(r.islandDistance, 2) &&
    r.minProtectedX == c.x - JavaDiv(r.protectionRange, 2) && r.minProtectedZ == c.z - JavaDiv(r.protectionRange, 2)
  }

  /** Fields 0 to 4, 6 and 7: the geometry, locked and purge protection. */
  function ParseHead(s: Settings, split: seq<string>): (r: IslandRecord)
    ensures r.center.Some? ==> |split| > 4 && GeometryOf(s, r)
    ensures r.center.Some? ==> r.locked == (|split| > 6 && EqualsIgnoreCase(split[6], "true"))
    ensures r.center.Some? ==> r.purgeProtected == (|split| > 7 && EqualsIgnoreCase(split[7], "true"))
    ensures r.center.None? ==> !r.locked && !r.purgeProtected
    ensures r == Unset.(protectionRange := r.protectionRange, islandDistance := r.islandDistance, minX := r.minX,
      minZ := r.minZ, y := r.y, minProtectedX := r.minProtectedX, minProtectedZ := r.minProtectedZ,
      center := r.center, locked := r.locked, purgeProtected := r.purgeProtected)
  {
    if |split| <= 4 then
      if |split| == 4 && ParseInt(split[3]).Some? then Unset.(protectionRange := ParseInt(split[3]).value) else Unset
    else
      var range, dist := ParseInt(split[3]), ParseInt(split[4]);
      if range.None? then Unset
      else if dist.None? then Unset.(protectionRange := range.value)
      else
        var r2 := Unset.(protectionRange := range.value, islandDistance := dist.value);
        var x, z := ParseInt(split[0]), ParseInt(split[2]);
        if x.None? || z.None? then r2
        else
          var r3 := r2.(minX := x.value - JavaDiv(dist.value, 2));
          var y := ParseInt(split[1]);
          if y.None? then r3
          else
            r3.(y := y.value, minZ := z.value - JavaDiv(dist.value, 2),
              minProtectedX := x.value - JavaDiv(range.value, 2),
              minProtectedZ := z.value - JavaDiv(range.value, 2),
              center := Some(BlockLocation(s.islandWorld, x.value, y.value, z.value)),
              locked := |split| > 6 && EqualsIgnoreCase(split[6], "true"),
              purgeProtected := |split| > 7 && EqualsIgnoreCase(split[7], "true"))
  }

  /** Field 5 onwards: the spawn marker with its spawn point, or the owner's UUID. */
  function ParseOwnerOnwards(s: Settings, worlds: set<string>, biomes: set<string>, serial: string,
                             key: seq<string>, split: seq<string>, r: IslandRecord): (r': IslandRecord)
    requires |split| > 5 && split == Split(serial, ':')
    requires r.owner.None? && !r.isSpawn && r.igs == map[]
    ensures r' == r.(owner := r'.owner, isSpawn := r'.isSpawn, spawnPoint := r'.spawnPoint, igs := r'.igs,
      biome := r'.biome, levelHandicap := r'.levelHandicap)
    ensures r'.igs == r.igs || Full(r'.igs)
    ensures r'.owner.Some? ==> !r'.isSpawn
  {
    if split[5] == "spawn" then
      var r6 := r.(isSpawn := true);
      if |split| > 8 then
        var at := IndexOfSub(serial, SpawnPointMarker) + 4;
        SplitShortensText(serial, ':');
        match GetLocationString(Some(serial[at..]), worlds)
        case Thrown => r6
        case Value(sp) => ParseSettingsOnwards(s, biomes, key, split, r6.(spawnPoint := sp))
      else
        ParseSettingsOnwards(s, biomes, key, split, r6)
    else
      match ParseUuid(split[5])
      case None => r
      case Some(o) => ParseSettingsOnwards(s, biomes, key, split, r.(owner := Some(o)))
  }

  /** Fields 8 to 10: the flags, the biome and the level handicap; none of these can end the constructor. */
  function ParseSettingsOnwards(s: Settings, biomes: set<string>, key: seq<string>, split: seq<string>, r: IslandRecord): (r': IslandRecord)
    ensures r' == r.(igs := r'.igs, biome := r'.biome, levelHandicap := r'.levelHandicap)
    ensures r'.igs == SettingsResult(s.defaultIslandSettings, if |split| > 8 then Some(split[8]) else None, key)
    ensures r'.biome == (if |split| > 9 && split[9] in biomes then Some(split[9]) else r.biome)
    ensures |split| <= 10 ==> r'.levelHandicap == r.levelHandicap
    ensures |split| > 10 ==> r'.levelHandicap == (if ParseInt(split[10]).Some? then ParseInt(split[10]).value else 0)
  {
    var r7 := r.(igs := SettingsResult(s.defaultIslandSettings, if |split| > 8 then Some(split[8]) else None, key));
    var r8 := if |split| > 9 && split[9] in biomes then r7.(biome := Some(split[9])) else r7;
    if |split| > 10 then
      r8.(levelHandicap := match ParseInt(split[10]) case Some(h) => h case None => 0)
    else r8
  }

  // -------------------------------------------------- saving and reading

  /** What a record of the island reads back as, up to field 7. */
  lemma {:induction false} HeadReadsBack(i: Island, s: Settings, fs: seq<string>)
    requires i.Valid() && i.world == s.islandWorld
    requires IsInt32(i.cx) && IsInt32(i.cy) && IsInt32(i.cz) && IsInt32(i.protectionRange) && IsInt32(i.islandDistance)
    requires |fs| >= 8 && fs[..5] == i.HeadFields()
    requires fs[6] == BoolToString(i.locked) && fs[7] == BoolToString(i.purgeProtected)
    ensures ParseHead(s, fs) == Unset.(protectionRange := i.protectionRange, islandDistance := i.islandDistance,
      minX := i.minX, minZ := i.minZ, y := i.cy, minProtectedX := i.minProtectedX, minProtectedZ := i.minProtectedZ,
      center := Some(i.Center()), locked := i.locked, purgeProtected := i.purgeProtected)
  {
    assert fs[0] == IntToString(i.cx) && fs[1] == IntToString(i.cy) && fs[2] == IntToString(i.cz);
    assert fs[3] == IntToString(i.protectionRange) && fs[4] == IntToString(i.islandDistance);
    IntRoundTrip(i.cx);
    IntRoundTrip(i.cy);
    IntRoundTrip(i.cz);
    IntRoundTrip(i.protectionRange);
    IntRoundTrip(i.islandDistance);
    BoolStringTrue(i.locked);
    BoolStringTrue(i.purgeProtected);
  }

  /**
   * Saving an owned island that is not the spawn and reading the record
   * back with the key saveGrid writes gives the same centre, ranges, owner,
   * locked and purge state, flags and level handicap; the biome comes back
   * as the one written.
   */
  lemma {:induction false} SaveThenLoad(i: Island, s: Settings, worlds: set<string>, biomes: set<string>, worldBiome: string)
    requires i.Valid() && !i.isSpawn && i.owner.Some? && Full(i.igs)
    requires i.world == s.islandWorld
    requires IsInt32(i.cx) && IsInt32(i.cy) && IsInt32(i.cz) && IsInt32(i.protectionRange) && IsInt32(i.islandDistance)
    requires IsInt32(i.levelHandicap)
    requires i.BiomeName(worldBiome) in biomes && ':' !in i.BiomeName(worldBiome)
    ensures ParseSerial(s, worlds, biomes, i.Save(worldBiome), FlagNames()) ==
      i.Snapshot().(biome := Some(i.BiomeName(worldBiome)), spawnPoint := None)
  {
    var serial := i.Save(worldBiome);
    var fs := i.IslandFields(worldBiome);
    assert Split(serial, ':') == fs;
    HeadReadsBack(i, s, fs);
    var head := ParseHead(s, fs);
    UuidRoundTrip(i.owner.value);
    assert fs[5] != "spawn" by {
      assert |fs[5]| == 36;
    }
    FlagsRoundTrip(s.defaultIslandSettings, i.igs);
    IntRoundTrip(i.levelHandicap);
  }

  /**
   * A record whose owner field is neither "spawn" nor a UUID (such as the
   * "null" written for an unowned island) stops the constructor at the
   * owner: the fields up to locked and purge protection are read, but the
   * flags stay empty, and there is no owner, biome or level handicap.
   */
  lemma BadOwnerStopsReading(s: Settings, worlds: set<string>, biomes: set<string>, serial: string, key: seq<string>)
    requires |Split(serial, ':')| > 5
    requires Split(serial, ':')[5] != "spawn" && ParseUuid(Split(serial, ':')[5]).None?
    ensures var r := ParseSerial(s, worlds, biomes, serial, key);
      r == ParseHead(s, Split(serial, ':')) &&
      r.igs == map[] && r.owner.None? && r.biome.None? && r.levelHandicap == 0
  {
  }

  /**
   * Saving an unowned island (owner field "null") and reading it back keeps
   * the geometry, locked and purge state but loses every flag, the biome and
   * the level handicap.
   */
  lemma {:induction false} UnownedSaveThenLoad(i: Island, s: Settings, worlds: set<string>, biomes: set<string>,
                                               worldBiome: string, key: seq<string>)
    requires i.Valid() && !i.isSpawn && i.owner.None?
    requires i.world == s.islandWorld
    requires IsInt32(i.cx) && IsInt32(i.cy) && IsInt32(i.cz) && IsInt32(i.protectionRange) && IsInt32(i.islandDistance)
    requires ':' !in i.BiomeName(worldBiome)
    ensures ParseSerial(s, worlds, biomes, i.Save(worldBiome), key) ==
      i.Snapshot().(igs := map[], biome := None, spawnPoint := None, levelHandicap := 0)
  {
    var serial := i.Save(worldBiome);
    var fs := i.IslandFields(worldBiome);
    assert Split(serial, ':') == fs;
    HeadReadsBack(i, s, fs);
    assert fs[5] == "null";
    MarkersAreNotUuids();
    BadOwnerStopsReading(s, worlds, biomes, serial, key);
  }

  /**
   * Saving the spawn without a spawn point and reading it back keeps the
   * geometry, locked and purge state; the flags come back as the defaults,
   * and no owner is read.
   */
  lemma {:induction false} SpawnSaveThenLoad(i: Island, s: Settings, worlds: set<string>, biomes: set<string>,
                                             worldBiome: string, key: seq<string>)
    requires i.Valid() && i.isSpawn && i.spawnPoint.None?
    requires i.world == s.islandWorld
    requires IsInt32(i.cx) && IsInt32(i.cy) && IsInt32(i.cz) && IsInt32(i.protectionRange) && IsInt32(i.islandDistance)
    ensures ParseSerial(s, worlds, biomes, i.Save(worldBiome), key) ==
      i.Snapshot().(owner := None, igs := DefaultFlags(s.defaultIslandSettings), biome := None, levelHandicap := 0)
  {
    var serial := i.Save(worldBiome);
    var fs := i.SpawnFields();
    assert Split(serial, ':') == fs;
    HeadReadsBack(i, s, fs);
  }

  /**
   * Saving the spawn with its spawn point and reading it back keeps the
   * geometry, locked and purge state and the spawn point. Fields 8 to 10 of
   * the record are then "SP", the spawn point's world and its x: the flags
   * come back as the defaults, the world's name is taken as a biome when it
   * names one, and the spawn point's x becomes the level handicap.
   */
  lemma {:induction false} SpawnPointSaveThenLoad(i: Island, s: Settings, worlds: set<string>, biomes: set<string>,
                                                  worldBiome: string)
    requires i.Valid() && i.isSpawn && i.spawnPoint.Some?
    requires i.world == s.islandWorld
    requires IsInt32(i.cx) && IsInt32(i.cy) && IsInt32(i.cz) && IsInt32(i.protectionRange) && IsInt32(i.islandDistance)
    requires var sp := i.spawnPoint.value;
      sp.world.Some? && sp.world.value in worlds && ':' !in sp.world.value && Storable(sp)
    ensures var sp := i.spawnPoint.value;
      ParseSerial(s, worlds, biomes, i.Save(worldBiome), FlagNames()) ==
      i.Snapshot().(owner := None, igs := DefaultFlags(s.defaultIslandSettings),
        biome := if sp.world.value in biomes then sp.world else None, levelHandicap := sp.x)
  {
    var sp := i.spawnPoint.value;
    var serial := i.Save(worldBiome);
    var fs := SpawnPointFields(i, worldBiome);
    HeadReadsBack(i, s, fs);
    var head := ParseHead(s, fs);
    assert fs[5] == "spawn" && |fs| > 8;
    var at := IndexOfSub(serial, SpawnPointMarker) + 4;
    LocationRoundTrip(sp, worlds);
    assert GetLocationString(Some(serial[at..]), worlds) == Value(Some(sp));
    var r := head.(isSpawn := true, spawnPoint := Some(sp));
    assert ParseSerial(s, worlds, biomes, serial, FlagNames()) == ParseSettingsOnwards(s, biomes, FlagNames(), fs, r);
    assert fs[8] == "SP" && fs[9] == sp.world.value && fs[10] == IntToString(sp.x);
    assert SettingsResult(s.defaultIslandSettings, Some(fs[8]), FlagNames()) == DefaultFlags(s.defaultIslandSettings);
    IntRoundTrip(sp.x);
  }

  /** A saved spawn with a spawn point is its fields, the marker and the spawn point's fields, joined by ':'. */
  lemma SpawnPointJoined(i: Island, worldBiome: string)
    requires i.isSpawn && i.spawnPoint.Some? && i.spawnPoint.value.world.Some?
    ensures var head, loc := i.SpawnFields(), LocationFields(i.spawnPoint.value);
      i.Save(worldBiome) == Join(head, ':') + SpawnPointMarker + Join(loc, ':') &&
      i.Save(worldBiome) == Join(head + ["SP"] + loc, ':')
  {
    var head, loc := i.SpawnFields(), LocationFields(i.spawnPoint.value);
    assert GetStringLocation(i.spawnPoint) == Join(loc, ':');
    JoinAppend(["SP"], loc, ':');
    assert Join(["SP"], ':') == "SP";
    JoinAppend(head, ["SP"] + loc, ':');
    assert head + ["SP"] + loc == head + (["SP"] + loc);
  }

  /** The fields of a saved spawn with a spawn point, and where the spawn point's text starts. */
  lemma {:induction false} SpawnPointFields(i: Island, worldBiome: string) returns (fs: seq<string>)
    requires i.isSpawn && i.spawnPoint.Some?
    requires var sp := i.spawnPoint.value; sp.world.Some? && ':' !in sp.world.value
    ensures fs == i.SpawnFields() + ["SP"] + LocationFields(i.spawnPoint.value)
    ensures Split(i.Save(worldBiome), ':') == fs
    ensures var serial := i.Save(worldBiome);
      0 <= IndexOfSub(serial, SpawnPointMarker) + 4 <= |serial| &&
      serial[IndexOfSub(serial, SpawnPointMarker) + 4..] == GetStringLocation(i.spawnPoint)
  {
    var serial := i.Save(worldBiome);
    var head := i.SpawnFields();
    var loc := LocationFields(i.spawnPoint.value);
    fs := head + ["SP"] + loc;
    SpawnPointJoined(i, worldBiome);
    assert forall k :: 0 <= k < |fs| ==> ':' !in fs[k];
    SplitJoin(fs, ':');
    var a, locText := Join(head, ':'), GetStringLocation(i.spawnPoint);
    assert locText == Join(loc, ':');
    NoCharInJoin(head, ':', 'S');
    IndexOfSubAfter(a, SpawnPointMarker, locText);
    assert serial[|a| + 4..] == locText;
  }
}
