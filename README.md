# ASkyBlock island core in Dafny

ASkyBlock is a Minecraft server plugin. It gives every player an island on a
regular grid in a void world. This project models the plugin's in-memory
island core and proves properties of it:

- **The island grid** (`GridManager`). Islands are filed by the corner of
  their island space in a two-level sorted map `minX -> (minZ -> island)`.
  The ownership map goes from owner to island, and there is a spawn island.
  The model covers point lookup by floor entries, registration and
  deletion, ownership transfer, grid alignment, the closest-slot
  calculation, the "unowned islands" query and the `bigScan` search for a
  safe block.
- **An island** (`Island`). This covers its island space and its protected
  box, the resize of the protected box, and the 47 protection flags with
  their configured defaults. It also covers the one-character-per-flag text
  and the colon-separated record that islands are saved as and read back
  from.
- **Coop grants** (`CoopPlay`). A grantee holds a map from island centres
  to the players who granted them coop rights there. Join and leave events
  may be cancelled by other plugins. The grants are written as
  `location|grantor` texts.
- **Text utilities** (`Util`). This covers the `world:x:y:z:yaw:pitch`
  location codec, line chopping, name prettifying, tab completion and the
  xorshift random generator.
- **Chunk deletion** (`DeleteIslandChunk`). A deleted island's chunks are
  either regenerated whole or queued. A timer then drains the queue at a
  fixed rate, rewriting the columns that lie in the island's space.

The modules follow the source. `Base` holds Java library behaviour:
truncating `/` and `%`, `String.split`, `Integer.parseInt`, ASCII case and
`TreeMap.floorEntry`. `Uuids` holds player identifiers and `Locations` the
location codec of `Util`. `TextUtil` holds the rest of `Util`, and `Flags`
holds `Island.SettingsFlag`. `Config` holds the values read from `Settings`.
`Islands` holds `Island`, `Grid` holds `GridManager` and `Scan` holds
`bigScan`'s search loop. `Coop` holds `CoopPlay` and `DeleteChunks` holds
`DeleteIslandChunk`.

State that the Java code updates in place is modelled as Dafny classes.
This covers `GridManager`, `Island`, `CoopPlay`, `DeleteIslandChunk` and
the random generator's state. Their methods have `modifies` clauses and
state their whole new state. Each method is tied to a specification
function, such as `WithIsland`, `Removed`, `SettingsResult`,
`ClearedAsWritten` or `ReadEntries`. Lemmas prove the promised properties
of those functions. Lookups, parsers and printers are functions.

Environment inputs become parameters:

- the loaded worlds and the biome names;
- `Settings`;
- the player cache: team leaders, team membership, island locations;
- event cancellations, given as booleans or sets of vetoed players;
- the clock seed;
- the safety test of a block;
- whether fast block access is available.

## Model

| member | source | states |
|---|---|---|
| Base.JavaDiv | src/main/java/com/wasteofplastic/askyblock/GridManager.java:777-778 | Java's `/` truncates toward zero: the remainder is smaller than the divisor and has the dividend's sign |
| Base.JavaRem | src/main/java/com/wasteofplastic/askyblock/GridManager.java:209 | Java's `%` is the remainder of the truncating quotient, smaller than the divisor |
| Base.FloorKey | src/main/java/com/wasteofplastic/askyblock/GridManager.java:536-538 | `TreeMap.floorEntry`: the greatest key at most `x`, or none when every key exceeds `x` |
| Base.Split | src/main/java/com/wasteofplastic/askyblock/util/Util.java:233 | `String.split` on one character: no field holds the separator, and a text without it splits into itself |
| Base.SplitJoin | src/main/java/com/wasteofplastic/askyblock/util/Util.java:229-272 | splitting joined fields gives them back when none holds the separator and the last is not empty |
| Base.ParseInt | src/main/java/com/wasteofplastic/askyblock/Island.java:61-66 | `Integer.parseInt` yields only 32-bit values and rejects the empty text |
| Base.IntRoundTrip | src/main/java/com/wasteofplastic/askyblock/Island.java:383-396 | a printed `int` parses back to itself |
| Base.IndexOfSubAfter | src/main/java/com/wasteofplastic/askyblock/Island.java:85 | `indexOf(":SP:")` finds the marker right after a head that holds no `S` |
| Base.BoolStringTrue | src/main/java/com/wasteofplastic/askyblock/Island.java:77-80 | a printed boolean equals "true" ignoring case exactly when it is true |
| Uuids.ParseUuid | src/main/java/com/wasteofplastic/askyblock/Island.java:88 | `UUID.fromString` on the 36-character 8-4-4-4-12 hex form succeeds and gives its lower-case form; other texts fail |
| Uuids.UuidRoundTrip | src/main/java/com/wasteofplastic/askyblock/CoopPlay.java:232-259 | a printed UUID parses back to itself |
| Uuids.UuidHasNoSeparator | src/main/java/com/wasteofplastic/askyblock/CoopPlay.java:232 | a printed UUID holds neither ':' nor '\|' |
| Uuids.MarkersAreNotUuids | src/main/java/com/wasteofplastic/askyblock/Island.java:82-88 | the owner markers "null" and "spawn" do not parse as UUIDs |
| Locations.GetStringLocation | src/main/java/com/wasteofplastic/askyblock/util/Util.java:265-272 | the text is empty exactly for no location or no world; otherwise it splits into the six fields world, x, y, z, yaw bits, pitch bits |
| Locations.GetLocationString | src/main/java/com/wasteofplastic/askyblock/util/Util.java:229-256 | no location for a null text, a field count other than 4 or 6, or an unknown world; a location read has 4 or 6 fields, the first field as its world, and values a stored location can have |
| Locations.LocationReadsFields | src/main/java/com/wasteofplastic/askyblock/util/Util.java:234-253 | a location read sits at the parsed x, y, z, with yaw and pitch 0 for 4 fields and the float bits of the parsed fields for 6; a known world with well-formed numbers always reads |
| Locations.LocationThrowsIffMalformed | src/main/java/com/wasteofplastic/askyblock/util/Util.java:239-252 | reading throws exactly when a known world comes with a non-numeric coordinate or angle |
| Locations.LocationRoundTrip | src/main/java/com/wasteofplastic/askyblock/util/Util.java:229-272 | writing then reading a location gives it back when its world is loaded and its name has no ':' |
| Locations.FloatBits | src/main/java/com/wasteofplastic/askyblock/util/Util.java:251-271 | the float bits round trip keeps every pattern except that NaNs become the canonical NaN |
| TextUtil.ChopStep | src/main/java/com/wasteofplastic/askyblock/util/Util.java:118-135 | one round of the chop loop cuts a line of at most `length` characters and always advances |
| TextUtil.Chop | src/main/java/com/wasteofplastic/askyblock/util/Util.java:107-144 | the loop computes `ChopResult`: a split on '\|' for text with '\|' or '§', otherwise coloured lines cut at word boundaries |
| TextUtil.ChopLinesFit | src/main/java/com/wasteofplastic/askyblock/util/Util.java:116-141 | no chopped line is longer than `length` |
| TextUtil.ChopKeepsText | src/main/java/com/wasteofplastic/askyblock/util/Util.java:116-141 | the chopped lines put together hold exactly the text's non-space characters, in order |
| TextUtil.ChopProperties | src/main/java/com/wasteofplastic/askyblock/util/Util.java:107-144 | for a positive length and text without '\|' or '§', chop succeeds, each line is the colour plus a line of at most `length`, and no non-space character is lost |
| TextUtil.PrettifyText | src/main/java/com/wasteofplastic/askyblock/util/Util.java:200-220 | the loop computes `PrettifyResult`: mixed-case text without '_' unchanged, otherwise lower-cased words capitalised and joined by spaces |
| TextUtil.PrettifyHasNoUnderscore | src/main/java/com/wasteofplastic/askyblock/util/Util.java:200-220 | a prettified name holds no '_' |
| TextUtil.PrettifyReadsBack | src/main/java/com/wasteofplastic/askyblock/util/Util.java:200-220 | read in lower case, the result is the lower-cased name with trailing '_' dropped and other '_' turned into spaces |
| TextUtil.PrettifyNotIdempotent | src/main/java/com/wasteofplastic/askyblock/util/Util.java:200-220 | "A_B" becomes "A B", which becomes "A b" on a second pass |
| TextUtil.TabLimit | src/main/java/com/wasteofplastic/askyblock/util/Util.java:282-294 | the loop returns `TabMatches`: the non-null entries starting with `start` ignoring case, in list order |
| TextUtil.TabMatchesMembers | src/main/java/com/wasteofplastic/askyblock/util/Util.java:282-294 | a string is offered exactly when it is in the list and starts with `start`, ignoring case |
| TextUtil.TabMatchesIgnoreCase | src/main/java/com/wasteofplastic/askyblock/util/Util.java:282-294 | upper-casing the typed prefix does not change the completions |
| TextUtil.AbsLong | src/main/java/com/wasteofplastic/askyblock/util/Util.java:373 | `Math.abs(long)` is the magnitude, except that MIN_VALUE stays negative |
| TextUtil.RandomSource.constructor | src/main/java/com/wasteofplastic/askyblock/util/Util.java:39 | the generator state starts as the clock value |
| TextUtil.RandomSource.RandomLong | src/main/java/com/wasteofplastic/askyblock/util/Util.java:369-374 | the state takes one xorshift step and the result is `Math.abs` of the new state |
| TextUtil.XorShiftNonZero | src/main/java/com/wasteofplastic/askyblock/util/Util.java:370-372 | a non-zero state never becomes zero |
| Flags.AllFlags | src/main/java/com/wasteofplastic/askyblock/Island.java:655-844 | `SettingsFlag.values()`: the 47 constants in declaration order |
| Flags.FlagIndex | src/main/java/com/wasteofplastic/askyblock/Island.java:655-844 | `ordinal()`: the flag's position in declaration order |
| Flags.NameRoundTrip | src/main/java/com/wasteofplastic/askyblock/Island.java:655-844 | `SettingsFlag.valueOf(f.name())` is `f` |
| Flags.IndexOfListed | src/main/java/com/wasteofplastic/askyblock/Island.java:655-844 | no constant is declared twice |
| Flags.FlagNames | src/main/java/com/wasteofplastic/askyblock/GridManager.java:435-438 | the settings key saved beside the records names every flag, in declaration order |
| Flags.DefaultFlags | src/main/java/com/wasteofplastic/askyblock/Island.java:149-157 | every flag is present, with its default value |
| Flags.DefaultsFollowConfiguration | src/main/java/com/wasteofplastic/askyblock/Island.java:149-157 | the defaults hold every flag: the configured value when one is configured and non-null, otherwise true for MOB_SPAWN and MONSTER_SPAWN only |
| Flags.EncodeFlags | src/main/java/com/wasteofplastic/askyblock/Island.java:402-417 | one '0'/'1' per flag in declaration order, '1' exactly when the flag is present and true |
| Flags.SettingsResult | src/main/java/com/wasteofplastic/askyblock/Island.java:118-144 | every flag present; the defaults for a null, empty or wrong-length text; otherwise each flag from the last key entry naming it (unknown names skipped) |
| Flags.ApplyPrefixValue | src/main/java/com/wasteofplastic/askyblock/Island.java:133-143 | after `n` turns of the loop a flag holds the character of the last key naming it, or its old value |
| Flags.FlagsRoundTrip | src/main/java/com/wasteofplastic/askyblock/Island.java:118-144 | reading the text of a full flag map with the saved key gives the map back, whatever the defaults |
| Islands.Island.constructor | src/main/java/com/wasteofplastic/askyblock/Island.java:186-203 | a new island centred on (x, z) at the island height, with the configured distance and range, a centred protected box, the owner, and default flags |
| Islands.Island.Load | src/main/java/com/wasteofplastic/askyblock/Island.java:57-113 | the island read from a record has exactly the fields `ParseSerial` gives |
| Islands.Island.SetProtectionSize | src/main/java/com/wasteofplastic/askyblock/Island.java:550-555 | the new range, with the protected box re-centred; the island space is unchanged |
| Islands.Island.SetIgsDefaults | src/main/java/com/wasteofplastic/askyblock/Island.java:149-157 | the flags become the defaults |
| Islands.Island.SetSpawnDefaults | src/main/java/com/wasteofplastic/askyblock/Island.java:162-170 | the flags become the defaults |
| Islands.Island.SetIgsFlag | src/main/java/com/wasteofplastic/askyblock/Island.java:175-177 | only that flag changes, to the value given |
| Islands.Island.SetSettings | src/main/java/com/wasteofplastic/askyblock/Island.java:118-144 | the flags become `SettingsResult` of the text and key |
| Islands.Island.ToggleIgs | src/main/java/com/wasteofplastic/askyblock/Island.java:630-635 | a present flag flips, an absent one stays absent |
| Islands.Island.GetSettings | src/main/java/com/wasteofplastic/askyblock/Island.java:402-417 | the loop builds `EncodeFlags` of the flags |
| Islands.Island.IslandFields | src/main/java/com/wasteofplastic/askyblock/Island.java:389-396 | the eleven fields of an island record: head, owner or "null", locked, purge, flags, biome, handicap |
| Islands.Island.SpawnFields | src/main/java/com/wasteofplastic/askyblock/Island.java:380-387 | the eight fields of a spawn record, with "spawn" as owner |
| Islands.Island.Save | src/main/java/com/wasteofplastic/askyblock/Island.java:377-397 | the record splits on ':' into the spawn fields or the island fields |
| Islands.Toggled | src/main/java/com/wasteofplastic/askyblock/Island.java:630-635 | the same keys; only a present toggled flag changes, to its negation |
| Islands.ToggleTwice | src/main/java/com/wasteofplastic/askyblock/Island.java:630-635 | toggling a flag twice gives the flags back |
| Islands.GetIgsFlagMatchesSettings | src/main/java/com/wasteofplastic/askyblock/Island.java:402-446 | `getIgsFlag` reads true exactly when `getSettings` writes '1' for the flag |
| Islands.SpaceFromCorner | src/main/java/com/wasteofplastic/askyblock/Island.java:226-229 | `InIslandSpace` is `[c - d/2, c + d/2)` on both axes, i.e. `2 * (d / 2)` columns from the corner |
| Islands.OddDistanceLeavesGap | src/main/java/com/wasteofplastic/askyblock/Island.java:226-229 | for an odd distance the last column before the next corner lies in no island space |
| Islands.ProtectedBoxShape | src/main/java/com/wasteofplastic/askyblock/Island.java:519-524 | the box of `Protects` (and so of `OnIsland`, which adds the world test) is exactly `protectionRange` wide, one column longer on the negative side when the range is even |
| Islands.ProtectionInsideSpace | src/main/java/com/wasteofplastic/askyblock/Island.java:519-555 | the protected box lies in the island space exactly when the range is at most `2 * (d / 2)` |
| Islands.SpawnProtectionOverhang | src/main/java/com/wasteofplastic/askyblock/GridManager.java:764-769 | a spawn with an odd distance protects a column outside its own island space |
| Islands.ParseSerial | src/main/java/com/wasteofplastic/askyblock/Island.java:57-113 | a record read up to the centre has consistent geometry; one stopped earlier has no owner, flags, lock or purge; flags are empty or full; an owner excludes spawn |
| Islands.ParseHead | src/main/java/com/wasteofplastic/askyblock/Island.java:59-80 | fields 0-4 give the geometry, locked and purge come from fields 6-7 ignoring case, and nothing else is set |
| Islands.ParseOwnerOnwards | src/main/java/com/wasteofplastic/askyblock/Island.java:82-92 | field 5 sets only owner, spawn, spawn point and flags, and an owner excludes spawn |
| Islands.ParseSettingsOnwards | src/main/java/com/wasteofplastic/askyblock/Island.java:92-109 | fields 8-10 give the flags, a known biome, and the handicap (0 when malformed) |
| Islands.SaveThenLoad | src/main/java/com/wasteofplastic/askyblock/Island.java:57-113 | reading back an owned non-spawn island's record gives its centre, ranges, owner, lock, purge, flags, biome and handicap |
| Islands.BadOwnerStopsReading | src/main/java/com/wasteofplastic/askyblock/Island.java:88-112 | an owner field that is neither "spawn" nor a UUID stops reading: no owner, flags, biome or handicap |
| Islands.UnownedSaveThenLoad | src/main/java/com/wasteofplastic/askyblock/Island.java:379-396 | an unowned island read back keeps geometry, lock and purge but loses flags, biome and handicap |
| Islands.SpawnSaveThenLoad | src/main/java/com/wasteofplastic/askyblock/Island.java:380-387 | the spawn read back keeps geometry, lock and purge, with default flags and no owner |
| Islands.SpawnPointSaveThenLoad | src/main/java/com/wasteofplastic/askyblock/Island.java:82-109 | the spawn point reads back; the fields after it are taken as settings, biome and handicap |
| Grid.IslandAtColumn | src/main/java/com/wasteofplastic/askyblock/GridManager.java:535-547 | a found island is filed under a key at or below the column and its island space holds the column |
| Grid.LookupFindsAlignedIsland | src/main/java/com/wasteofplastic/askyblock/GridManager.java:535-547 | on an aligned grid every column of a filed island's space finds that island |
| Grid.AlignedIslandsDisjoint | src/main/java/com/wasteofplastic/askyblock/GridManager.java:535-547 | on an aligned grid no two filed islands share a column |
| Grid.WithIsland | src/main/java/com/wasteofplastic/askyblock/GridManager.java:723-751 | the island is filed under its corner unless the corner is taken, and every other entry stays |
| Grid.WithIslandKeyed | src/main/java/com/wasteofplastic/askyblock/GridManager.java:723-751 | filing keeps every island under its own corner |
| Grid.AddedIslandIsFound | src/main/java/com/wasteofplastic/askyblock/GridManager.java:719-752 | on an aligned grid an island filed at a free lattice corner is found by every column of its space |
| Grid.Removed | src/main/java/com/wasteofplastic/askyblock/GridManager.java:622-629 | the entry under the corner is gone, every other entry stays, and an emptied column remains |
| Grid.RemovedIslandIsGone | src/main/java/com/wasteofplastic/askyblock/GridManager.java:616-640 | after removal the lookup never finds the island |
| Grid.RemovedKeepsOthers | src/main/java/com/wasteofplastic/askyblock/GridManager.java:616-640 | on an aligned grid every other filed island is still found |
| Grid.OnGridMultiples | src/main/java/com/wasteofplastic/askyblock/GridManager.java:208-210 | `OnGrid` (onGrid) holds for a column exactly when both offsets are multiples of the island distance |
| Grid.GetClosestIsland | src/main/java/com/wasteofplastic/askyblock/GridManager.java:776-781 | the result is on the grid, in the location's world, at the island height |
| Grid.ClosestIslandMissesLocation | src/main/java/com/wasteofplastic/askyblock/GridManager.java:776-781 | with distance 100, block x 160 gets the slot at 100, which does not hold it, while the slot at 200 does and is nearer |
| Grid.ClosestSlot | src/main/java/com/wasteofplastic/askyblock/GridManager.java:776-781 | a grid centre whose slot holds the coordinate |
| Grid.ClosestSlotIsNearest | src/main/java/com/wasteofplastic/askyblock/GridManager.java:776-781 | no grid centre on the axis is nearer |
| Grid.ClosestIsland | src/main/java/com/wasteofplastic/askyblock/GridManager.java:776-781 | the corrected result is on the grid, at the island height, and its slot holds the location |
| Grid.ClosestIslandIsNearest | src/main/java/com/wasteofplastic/askyblock/GridManager.java:776-781 | the corrected result is the nearest grid centre, and for an even distance an island there holds the location |
| Grid.OddDistanceClosestMisses | src/main/java/com/wasteofplastic/askyblock/Island.java:226-229 | with an odd island distance (3) and offset 0 the corrected nearest centre to x = 1 is 0, whose island space misses x = 1, which is why the space clause above needs an even distance |
| Grid.Dropped | src/main/java/com/wasteofplastic/askyblock/GridManager.java:633-637 | the owner's entry goes only if it maps to the deleted island |
| Grid.Without | src/main/java/com/wasteofplastic/askyblock/GridManager.java:1137-1139 | only the owner's entry leaves the ownership map |
| Grid.CentreKeyReadsBack | src/main/java/com/wasteofplastic/askyblock/GridManager.java:1335-1349 | the key `getUnownedIslands` uses reads back, as a location, as the island's centre |
| Grid.InjectiveSize | src/main/java/com/wasteofplastic/askyblock/GridManager.java:1372-1374 | a map sending different owners to different islands holds as many islands as owners |
| Grid.GridManager.constructor | src/main/java/com/wasteofplastic/askyblock/GridManager.java:60-63 | an empty grid and ownership map and no spawn, with the invariants holding |
| Grid.GridManager.GetIslandAt | src/main/java/com/wasteofplastic/askyblock/GridManager.java:502-515 | nothing for no location or a location outside the island worlds; the spawn when the location is on it; otherwise the grid lookup of its column |
| Grid.GridManager.GetProtectedIslandAt | src/main/java/com/wasteofplastic/askyblock/GridManager.java:946-960 | the spawn when the location is on it, otherwise the island found there exactly when the location is in its protected box |
| Grid.GridManager.IsAtSpawn | src/main/java/com/wasteofplastic/askyblock/GridManager.java:1179-1181 | true exactly when there is a spawn and the location is on it, and then the protected lookup gives the spawn |
| Grid.GridManager.GetIsland | src/main/java/com/wasteofplastic/askyblock/GridManager.java:585-597 | the player's own island, else the team leader's, else nothing (also for no player); one level only |
| Grid.GridManager.GetIslandOwner | src/main/java/com/wasteofplastic/askyblock/GridManager.java:585-597 | while owners agree, the island found is owned by the player or by their leader |
| Grid.GridManager.IslandCountIsOwnedIslands | src/main/java/com/wasteofplastic/askyblock/GridManager.java:1372-1374 | while owners agree, `GetIslandCount` (the size of the ownership map) is the number of distinct owned islands |
| Grid.GridManager.DeletedEntry | src/main/java/com/wasteofplastic/askyblock/GridManager.java:616-629 | the entry deleteIsland clears is a filed island |
| Grid.GridManager.FoundIslandIsFiled | src/main/java/com/wasteofplastic/askyblock/GridManager.java:616-629 | with the spawn filed under its corner, the island found at a location is the one under its own corner |
| Grid.GridManager.AddToGrids | src/main/java/com/wasteofplastic/askyblock/GridManager.java:719-752 | the owner is mapped to the island even on a clash; the grid becomes `WithIsland`, so on a clash the registered island stays |
| Grid.GridManager.AddIsland | src/main/java/com/wasteofplastic/askyblock/GridManager.java:700-714 | an owner whose island has this centre gets it re-registered; otherwise the old island loses its owner and a new island is created and registered |
| Grid.GridManager.AddUnownedIsland | src/main/java/com/wasteofplastic/askyblock/GridManager.java:693-695 | a fresh unowned, unlocked, non-spawn island centred on (x, z) at the island height, world, distance and protection range of the settings is filed unless the corner is taken; the ownership map is unchanged |
| Grid.GridManager.DeleteIslandOwner | src/main/java/com/wasteofplastic/askyblock/GridManager.java:566-574 | the owner's island loses its owner and the owner leaves the map; nothing changes for an owner not in the map |
| Grid.GridManager.DeleteIsland | src/main/java/com/wasteofplastic/askyblock/GridManager.java:616-640 | the found island's corner entry is removed and loses owner and lock; the owner's entry goes only if it maps to that island; nothing changes when no island is found |
| Grid.GridManager.DeleteSpawn | src/main/java/com/wasteofplastic/askyblock/GridManager.java:606-610 | the island at the spawn's centre is deleted as `DeleteIsland` deletes it (grid entry, owner's map entry, owner and lock cleared, other islands untouched, owners still agree) and the spawn is forgotten |
| Grid.GridManager.SpawnFindsItself | src/main/java/com/wasteofplastic/askyblock/GridManager.java:606-610 | a spawn with a positive range lies on its own centre, so deleteSpawn deletes the spawn itself |
| Grid.GridManager.SetSpawn | src/main/java/com/wasteofplastic/askyblock/GridManager.java:764-769 | the island becomes the spawn with a range equal to its distance and a re-centred box |
| Grid.GridManager.SetIslandOwner | src/main/java/com/wasteofplastic/askyblock/GridManager.java:1121-1142 | with no new owner the old owner leaves and the island is unowned; otherwise the new owner's previous island is released, the old owner's key is gone, the new owner maps to the island, every other island keeps its owner, and owners that named their islands still do |
| Grid.OwnersStillAgree | src/main/java/com/wasteofplastic/askyblock/GridManager.java:1130-1141 | when the new owner's old island is released and the island takes the new owner, every key of the edited map is its island's owner |
| Grid.GridManager.BigScan | src/main/java/com/wasteofplastic/askyblock/GridManager.java:790-847 | as written, over the bounds `ScanBounds` sets up: a block found is safe, lies in the box of the first pass that holds a safe block, and within the last box searched; none found means no safe block in that box; no bounds means nothing found |
| Grid.GridManager.BigScanFull | src/main/java/com/wasteofplastic/askyblock/GridManager.java:790-847 | corrected: a block found is safe and lies in the box of the first pass that holds a safe block, within the full box; none found means no safe block in the full box |
| Grid.GridManager.GetUnownedIslands | src/main/java/com/wasteofplastic/askyblock/GridManager.java:1335-1349 | exactly the unowned, non-spawn, non-purge-protected grid islands, each keyed by its centre's text |
| Scan.Clamp | src/main/java/com/wasteofplastic/askyblock/GridManager.java:827-844 | a radius grows by one until it reaches its bound and then stays |
| Scan.GrownClamped | src/main/java/com/wasteofplastic/askyblock/GridManager.java:827-844 | after k passes each radius is its bound clamped to k |
| Scan.Reach | src/main/java/com/wasteofplastic/askyblock/GridManager.java:845 | the loop's stop test: the largest bound, which every radius reaches |
| Scan.BoxesNest | src/main/java/com/wasteofplastic/askyblock/GridManager.java:827-845 | each pass's box contains the one before |
| Scan.InteriorWasScanned | src/main/java/com/wasteofplastic/askyblock/GridManager.java:814-825 | a block inside a box but not on its shell was in an earlier box |
| Scan.ShellCompletesBox | src/main/java/com/wasteofplastic/askyblock/GridManager.java:814-825 | no safe block inside the previous box and none on the shell means none in the box |
| Scan.ScanColumn | src/main/java/com/wasteofplastic/askyblock/GridManager.java:816-823 | the y loop finds a safe shell block of the column, or none of the column's shell blocks is safe |
| Scan.ScanSlice | src/main/java/com/wasteofplastic/askyblock/GridManager.java:815-824 | the z loop finds a safe shell block of the slice, or none of the slice's shell blocks is safe |
| Scan.ScanShell | src/main/java/com/wasteofplastic/askyblock/GridManager.java:814-825 | the triple loop finds a safe block on the shell of the box, or there is none on it |
| Scan.SearchAsWritten | src/main/java/com/wasteofplastic/askyblock/GridManager.java:809-846 | the do-while finds a safe block in the box of its last pass, or none is in that box |
| Scan.SearchFull | src/main/java/com/wasteofplastic/askyblock/GridManager.java:809-846 | corrected loop: a safe block in the full box, or none in it |
| Scan.OuterLayerSkipped | src/main/java/com/wasteofplastic/askyblock/GridManager.java:845 | for positive bounds some block of the full box is never tested |
| Scan.RangeOneTestsCentreOnly | src/main/java/com/wasteofplastic/askyblock/GridManager.java:790-846 | with range 1 only the centre block is tested |
| Coop.WithoutGrantsBy | src/main/java/com/wasteofplastic/askyblock/CoopPlay.java:201 | exactly the grants not made by the grantor are kept |
| Coop.GrantedBy | src/main/java/com/wasteofplastic/askyblock/CoopPlay.java:197-205 | exactly the grants made by one of the grantors are kept |
| Coop.LeavePass | src/main/java/com/wasteofplastic/askyblock/CoopPlay.java:197-205 | the grants left are those of vetoed grantors, and `anyVetoed` says whether some grant has a vetoed grantor |
| Coop.RevokeGrants | src/main/java/com/wasteofplastic/askyblock/CoopPlay.java:273-291 | without a veto every grant by the clearer goes and the others stay; a veto keeps all |
| Coop.HeldIslands | src/main/java/com/wasteofplastic/askyblock/CoopPlay.java:154-156 | the centres a grantee holds grants on, empty without an entry |
| Coop.ClearMyCoopsIgnoresVeto | src/main/java/com/wasteofplastic/askyblock/CoopPlay.java:191-211 | as written the player ends with no grants whatever is vetoed; other grantees keep theirs |
| Coop.VetoedGrantIsLost | src/main/java/com/wasteofplastic/askyblock/CoopPlay.java:191-211 | under `ClearedAsWritten` (the pass as the source has it) a single grant whose leave is vetoed is still lost |
| Coop.IntendedKeepsVetoedGrants | src/main/java/com/wasteofplastic/askyblock/CoopPlay.java:191-211 | under `ClearedIntended` (the corrected pass) exactly the vetoed grants stay; other grantees keep theirs |
| Coop.EntryText | src/main/java/com/wasteofplastic/askyblock/CoopPlay.java:232 | "location\|grantor" |
| Coop.EntrySplits | src/main/java/com/wasteofplastic/askyblock/CoopPlay.java:232-256 | an entry text splits on '\|' into the location text and the grantor |
| Coop.LocationTextHasNoBar | src/main/java/com/wasteofplastic/askyblock/CoopPlay.java:232-256 | a location text holds no '\|' when its world name has none |
| Coop.Restrict | src/main/java/com/wasteofplastic/askyblock/CoopPlay.java:254-262 | the grants whose keys occur in a list |
| Coop.CoopPlay.constructor | src/main/java/com/wasteofplastic/askyblock/CoopPlay.java:56-59 | no grants |
| Coop.CoopPlay.CoopQueriesAgree | src/main/java/com/wasteofplastic/askyblock/CoopPlay.java:154-170 | `GetCoopPlayers` of the island at a location holds a player exactly when `GetCoopIslands` of that player holds the island's centre |
| Coop.CoopPlay.AddCoopPlayer | src/main/java/com/wasteofplastic/askyblock/CoopPlay.java:73-123 | false and no change when refused, no island is found or the join is vetoed; otherwise the inverted test throws for a grantee without an entry and replaces an existing entry by the single new grant; nobody else changes |
| Coop.CoopPlay.RemoveCoopPlayer | src/main/java/com/wasteofplastic/askyblock/CoopPlay.java:134-147 | true exactly when the target has an entry, the requester has an island, the leave is not vetoed and the island's centre was granted; only that grant goes |
| Coop.CoopPlay.RemoveFromAll | src/main/java/com/wasteofplastic/askyblock/CoopPlay.java:181-184 | the key leaves every grantee's grants and nothing else changes |
| Coop.CoopPlay.ClearAllIslandCoops | src/main/java/com/wasteofplastic/askyblock/CoopPlay.java:175-185 | every grant on the centre of the player's island goes, vetoes ignored; nothing changes without an island |
| Coop.CoopPlay.ClearAllIslandCoopsAt | src/main/java/com/wasteofplastic/askyblock/CoopPlay.java:298-312 | when an island is at the location, the grant keyed by the location itself goes from every grantee |
| Coop.CoopPlay.ClearMyCoops | src/main/java/com/wasteofplastic/askyblock/CoopPlay.java:191-211 | as written: the map becomes `ClearedAsWritten` and the player holds no grants |
| Coop.CoopPlay.ClearMyCoopsIntended | src/main/java/com/wasteofplastic/askyblock/CoopPlay.java:191-211 | corrected: exactly the vetoed grants stay |
| Coop.CoopPlay.ClearMyInvitedCoops | src/main/java/com/wasteofplastic/askyblock/CoopPlay.java:270-293 | every grant by the clearer goes unless that grantee's leave is vetoed; other grants stay |
| Coop.CoopPlay.GetMyCoops | src/main/java/com/wasteofplastic/askyblock/CoopPlay.java:229-235 | one "location\|grantor" text per grant, each grant once; none without an entry |
| Coop.CoopPlay.SetMyCoops | src/main/java/com/wasteofplastic/askyblock/CoopPlay.java:254-263 | the player's grants become those read from the texts; when reading throws nothing changes |
| Coop.CoopPlay.ReadsStayThrown | src/main/java/com/wasteofplastic/askyblock/CoopPlay.java:254-263 | once a prefix of the texts throws, the whole list throws |
| Coop.CoopPlay.EntryReadsBack | src/main/java/com/wasteofplastic/askyblock/CoopPlay.java:256-260 | `ReadEntry` reads the text of a readable grant back as that grant |
| Coop.CoopPlay.EntriesReadBack | src/main/java/com/wasteofplastic/askyblock/CoopPlay.java:254-263 | `ReadEntries` reads the texts of readable grants, in any order, back as those grants |
| Coop.CoopPlay.SaveThenLoadCoops | src/main/java/com/wasteofplastic/askyblock/CoopPlay.java:229-263 | setMyCoops on what getMyCoops wrote gives the player's grants back when every centre is readable |
| DeleteChunks.ChunkOf | src/main/java/com/wasteofplastic/askyblock/DeleteIslandChunk.java:67-68 | the chunk holding a column, by the `>> 4` of its coordinates |
| DeleteChunks.ChunkOfCovers | src/main/java/com/wasteofplastic/askyblock/DeleteIslandChunk.java:67-76 | a column is in a chunk exactly when that chunk is `ChunkOf` it |
| DeleteChunks.PlanOf | src/main/java/com/wasteofplastic/askyblock/DeleteIslandChunk.java:53-68 | cleanup is on exactly when distance - protection < 16; the scan runs over the chunks of the protected box's corners; the regeneration box is `c ± (range + spacing)` |
| DeleteChunks.Regenerates | src/main/java/com/wasteofplastic/askyblock/DeleteIslandChunk.java:74-77 | a chunk is regenerated exactly when both corner columns lie in the regeneration box |
| DeleteChunks.RegeneratesWholeChunks | src/main/java/com/wasteofplastic/askyblock/DeleteIslandChunk.java:74-77 | a regenerated chunk lies wholly in the regeneration box |
| DeleteChunks.RegenReachesNeighbour | src/main/java/com/wasteofplastic/askyblock/DeleteIslandChunk.java:64-76 | distance = protection = 100 at centre (13, 13): chunk (3, 3) is regenerated although column (63, 48) is in the neighbour's protected box |
| DeleteChunks.IntendedPlanOf | src/main/java/com/wasteofplastic/askyblock/DeleteIslandChunk.java:64-65 | corrected plan: the upper edge of the regeneration box stops one column short |
| DeleteChunks.IntendedRegenSparesNeighbours | src/main/java/com/wasteofplastic/askyblock/DeleteIslandChunk.java:64-76 | corrected: no regenerated column is in a neighbour's protected box |
| DeleteChunks.Classify | src/main/java/com/wasteofplastic/askyblock/DeleteIslandChunk.java:70-94 | the nested loops regenerate exactly the scanned chunks passing the corner test, and queue the rest exactly when cleanup is on |
| DeleteChunks.DeleteIslandChunk.constructor | src/main/java/com/wasteofplastic/askyblock/DeleteIslandChunk.java:47-110 | nothing without a world, no island record touched; otherwise chunks regenerated or queued as `Classify`, the island deleted from the grid and the ownership map as `DeleteIsland` deletes it, and the timer started when chunks are queued and fast block access exists |
| DeleteChunks.DeleteIslandChunk.ClearChunk | src/main/java/com/wasteofplastic/askyblock/DeleteIslandChunk.java:117-121 | exactly the chunk's columns in the island's space are rewritten |
| DeleteChunks.DeleteIslandChunk.Run | src/main/java/com/wasteofplastic/askyblock/DeleteIslandChunk.java:112-185 | at most `cleanRate` chunks leave the queue (all when fewer are left); exactly their columns in the island space are cleared; the timer cancels once the queue is empty |

## Left out

- I/O is a parameter or is left out: YAML files (`loadGrid`, `saveGrid`, `convert`, `loadCoops`, `saveCoops`), logging, player messages and event objects. Per-record parsing and printing are modelled. The async save is concurrency.
- Java's 32-bit `int` and `long` overflow is not modelled in the grid and chunk arithmetic. Integers are unbounded there. Round-trip lemmas require values in the `int` range.
- Floating point is left out: the `+ 0.5` of the location `bigScan` returns (the model returns the block), `randomDouble` and `blockFaceToFloat`. Yaw and pitch are kept as their float bit patterns.
- Locations compare by world name and block coordinates. A location with no world is treated as outside the island worlds.
- Settings.java is not part of this model. The values the core reads from it are a `Settings` datatype parameter.
- Uuids.ParseUuid: accepts only the 36-character 8-4-4-4-12 form. `UUID.fromString` also accepts shorter hex groups.
- Case folding covers ASCII letters only.
- Base.ParseInt: accepts the ASCII digits `0`-`9` only. `Integer.parseInt` also accepts the other Unicode decimal digits.
- `HashMap`, `HashSet` and `TreeMap` iteration order is not modelled. `getCoopPlayers` is a set rather than a list. `getMyCoops` emits its texts in some order that lists every grant once, and `Classify` and `Run` pick chunks in any order.
- CoopPlay.clearMyCoops: the removal inside `values().forEach` is modelled as a pass over a snapshot of the grantors. The concurrent-modification hazard of the Java code is not modelled.
- Event cancellation is an input. `clearMyCoops` takes the set of grantors whose leave is vetoed and `clearMyInvitedCoops` the set of grantees whose leave is vetoed. `addCoopPlayer` and `removeCoopPlayer` take a boolean. The events fired by `clearAllIslandCoops` are ignored, as in the source.
- `isSafeLocation` is the abstract `safe` predicate of `bigScan`. `islandAtLocation`, `getSafeHomeLocation`, `homeTeleport`, `removeMobs` and `removePlayersFromIsland` are left out because they inspect blocks and entities.
- `transferIsland` is left out because it only drives the player cache and an event. Its grid effect is `SetIslandOwner`.
- `locationIsAtHome`, `locationIsOnIsland`, `isOnIsland` and `playerIsOnIsland` are left out because they compare double coordinates against the player cache.
- `getSpawnPoint`, `setSpawnPoint`, `getIslandName`, `setIslandName`, `homeSet` and `getOwnerOfIslandAt` are thin accessors over the player cache or the spawn and are left out.
- Islands.Island.Save: `getBiome` reads the world block at the centre and also stores that biome in the island's `biome` field. The model takes the biome as a parameter of `Save` and does not model that write.
- `getPopulation`, `getHopperCount`, `getTileEntityCount` and `getMembers` are left out because they are world and entity queries.
- Islands.Island.Load: requires a record that gets as far as the centre. A record that stops earlier leaves an island without a centre, which the class does not represent; `ParseSerial` still models it.
- Grid.OnGrid: requires a non-zero island distance. Java would throw on zero.
- Grid.GridManager.DeleteSpawn: requires a spawn. Java would throw without one.
- The nether twin that `DeleteIslandChunk` regenerates when the new nether is on is folded into the chunk set `regenerated`.
- Block rewriting in the chunk cleanup is recorded as the set of cleared columns. The block types written are not modelled.
- DeleteChunks.DeleteIslandChunk.Run: with `cleanRate <= 0` no chunk leaves the queue, so the timer never cancels itself (as in the source).
- The random generator's seed (`System.nanoTime`) is a constructor parameter.

## Findings

| source | as written | input that shows it | evidently intended | confidence | as-written member | corrected member |
|---|---|---|---|---|---|---|
| src/main/java/com/wasteofplastic/askyblock/GridManager.java:776-781 | `Math.round` gets an already truncated int quotient, and the offset is not subtracted first, so the "closest" island is the slot to the lower side | distance 100, offset 0, block x 160: result x 100, whose island space [50, 150) misses 160; the slot at 200 holds it | the grid centre nearest the location, whose slot holds it | not executed | Grid.ClosestIslandMissesLocation | Grid.ClosestIslandIsNearest |
| src/main/java/com/wasteofplastic/askyblock/GridManager.java:790-846 | the do-while grows the radii and then stops once every radius has reached its bound, so the box with radii equal to the bounds is never searched | range 1: only the centre block is tested, never its 26 neighbours | search up to and including the full box | not executed | Scan.OuterLayerSkipped | Grid.GridManager.BigScanFull |
| src/main/java/com/wasteofplastic/askyblock/CoopPlay.java:191-211 | the flag named `notCancelled` is set when a leave is cancelled, and then the player's whole entry is dropped | one grant whose leave is vetoed: it is lost anyway | keep the vetoed grants, and drop the entry when every leave went through | not executed | Coop.VetoedGrantIsLost | Coop.IntendedKeepsVetoedGrants |
| src/main/java/com/wasteofplastic/askyblock/DeleteIslandChunk.java:64-76 | the regeneration box `c ± (range + spacing)` is inclusive at its upper edge, which for an even protection range is the neighbour's first protected column | distance = protection = 100, centre (13, 13): chunk (3, 3) is regenerated and column (63, 48) is protected by the island at (113, 13) | stop one column short on the positive side | not executed | DeleteChunks.RegenReachesNeighbour | DeleteChunks.IntendedRegenSparesNeighbours |
