/**
 * The island protection flags (Island.SettingsFlag), their configured
 * defaults and the one-character-per-flag text form kept in islands.yml.
 */
module Flags {
  import opened Base

  /** The constants of Island.SettingsFlag, in declaration order. */
  datatype Flag =
    ACID_DAMAGE | ANVIL | ARMOR_STAND | BEACON
    | BED | BREAK_BLOCKS | BREEDING | BREWING
    | BUCKET | COLLECT_LAVA | COLLECT_WATER | CHEST
    | CHORUS_FRUIT | CRAFTING | CREEPER_PAIN | CROP_TRAMPLE
    | DOOR | EGGS | ENCHANTING | ENDER_PEARL
    | ENTER_EXIT_MESSAGES | FIRE | FIRE_EXTINGUISH | FIRE_SPREAD
    | FURNACE | GATE | HORSE_INVENTORY | HORSE_RIDING
    | HURT_MOBS | HURT_MONSTERS | LEASH | LEVER_BUTTON
    | MILKING | MOB_SPAWN | MONSTER_SPAWN | MUSIC
    | NETHER_PVP | PLACE_BLOCKS | PORTAL | PRESSURE_PLATE
    | PVP | REDSTONE | SPAWN_EGGS | SHEARING
    | VILLAGER_TRADING | VISITOR_ITEM_DROP | VISITOR_ITEM_PICKUP

  /** The flag declared at position `i`. */
  function FlagAt(i: nat): Flag
    requires i < FlagCount
  {
    match i
    case 0 => ACID_DAMAGE
    case 1 => ANVIL
    case 2 => ARMOR_STAND
    case 3 => BEACON
    case 4 => BED
    case 5 => BREAK_BLOCKS
    case 6 => BREEDING
    case 7 => BREWING
    case 8 => BUCKET
    case 9 => COLLECT_LAVA
    case 10 => COLLECT_WATER
    case 11 => CHEST
    case 12 => CHORUS_FRUIT
    case 13 => CRAFTING
    case 14 => CREEPER_PAIN
    case 15 => CROP_TRAMPLE
    case 16 => DOOR
    case 17 => EGGS
    case 18 => ENCHANTING
    case 19 => ENDER_PEARL
    case 20 => ENTER_EXIT_MESSAGES
    case 21 => FIRE
    case 22 => FIRE_EXTINGUISH
    case 23 => FIRE_SPREAD
    case 24 => FURNACE
    case 25 => GATE
    case 26 => HORSE_INVENTORY
    case 27 => HORSE_RIDING
    case 28 => HURT_MOBS
    case 29 => HURT_MONSTERS
    case 30 => LEASH
    case 31 => LEVER_BUTTON
    case 32 => MILKING
    case 33 => MOB_SPAWN
    case 34 => MONSTER_SPAWN
    case 35 => MUSIC
    case 36 => NETHER_PVP
    case 37 => PLACE_BLOCKS
    case 38 => PORTAL
    case 39 => PRESSURE_PLATE
    case 40 => PVP
    case 41 => REDSTONE
    case 42 => SPAWN_EGGS
    case 43 => SHEARING
    case 44 => VILLAGER_TRADING
    case 45 => VISITOR_ITEM_DROP
    case _ => VISITOR_ITEM_PICKUP
  }

  const FlagCount: nat := 47

  /** The flags in declaration order (`SettingsFlag.values()`). */
  function AllFlags(): (s: seq<Flag>)
    ensures |s| == FlagCount && forall i :: 0 <= i < FlagCount ==> s[i] == FlagAt(i)
  {
    seq(FlagCount, i requires 0 <= i < FlagCount => FlagAt(i))
  }

  /** The position of a flag in declaration order (`ordinal()`). */
  function FlagIndex(f: Flag): (i: nat)
    ensures i < |AllFlags()| && AllFlags()[i] == f
  {
    match f
    case ACID_DAMAGE => 0
    case ANVIL => 1
    case ARMOR_STAND => 2
    case BEACON => 3
    case BED => 4
    case BREAK_BLOCKS => 5
    case BREEDING => 6
    case BREWING => 7
    case BUCKET => 8
    case COLLECT_LAVA => 9
    case COLLECT_WATER => 10
    case CHEST => 11
    case CHORUS_FRUIT => 12
    case CRAFTING => 13
    case CREEPER_PAIN => 14
    case CROP_TRAMPLE => 15
    case DOOR => 16
    case EGGS => 17
    case ENCHANTING => 18
    case ENDER_PEARL => 19
    case ENTER_EXIT_MESSAGES => 20
    case FIRE => 21
    case FIRE_EXTINGUISH => 22
    case FIRE_SPREAD => 23
    case FURNACE => 24
    case GATE => 25
    case HORSE_INVENTORY => 26
    case HORSE_RIDING => 27
    case HURT_MOBS => 28
    case HURT_MONSTERS => 29
    case LEASH => 30
    case LEVER_BUTTON => 31
    case MILKING => 32
    case MOB_SPAWN => 33
    case MONSTER_SPAWN => 34
    case MUSIC => 35
    case NETHER_PVP => 36
    case PLACE_BLOCKS => 37
    case PORTAL => 38
    case PRESSURE_PLATE => 39
    case PVP => 40
    case REDSTONE => 41
    case SPAWN_EGGS => 42
    case SHEARING => 43
    case VILLAGER_TRADING => 44
    case VISITOR_ITEM_DROP => 45
    case VISITOR_ITEM_PICKUP => 46
  }

  /** The constant's name (`name()` / `toString()`). */
  function FlagName(f: Flag): string {
    match f
    case ACID_DAMAGE => "ACID_DAMAGE"
    case ANVIL => "ANVIL"
    case ARMOR_STAND => "ARMOR_STAND"
    case BEACON => "BEACON"
    case BED => "BED"
    case BREAK_BLOCKS => "BREAK_BLOCKS"
    case BREEDING => "BREEDING"
    case BREWING => "BREWING"
    case BUCKET => "BUCKET"
    case COLLECT_LAVA => "COLLECT_LAVA"
    case COLLECT_WATER => "COLLECT_WATER"
    case CHEST => "CHEST"
    case CHORUS_FRUIT => "CHORUS_FRUIT"
    case CRAFTING => "CRAFTING"
    case CREEPER_PAIN => "CREEPER_PAIN"
    case CROP_TRAMPLE => "CROP_TRAMPLE"
    case DOOR => "DOOR"
    case EGGS => "EGGS"
    case ENCHANTING => "ENCHANTING"
    case ENDER_PEARL => "ENDER_PEARL"
    case ENTER_EXIT_MESSAGES => "ENTER_EXIT_MESSAGES"
    case FIRE => "FIRE"
    case FIRE_EXTINGUISH => "FIRE_EXTINGUISH"
    case FIRE_SPREAD => "FIRE_SPREAD"
    case FURNACE => "FURNACE"
    case GATE => "GATE"
    case HORSE_INVENTORY => "HORSE_INVENTORY"
    case HORSE_RIDING => "HORSE_RIDING"
    case HURT_MOBS => "HURT_MOBS"
    case HURT_MONSTERS => "HURT_MONSTERS"
    case LEASH => "LEASH"
    case LEVER_BUTTON => "LEVER_BUTTON"
    case MILKING => "MILKING"
    case MOB_SPAWN => "MOB_SPAWN"
    case MONSTER_SPAWN => "MONSTER_SPAWN"
    case MUSIC => "MUSIC"
    case NETHER_PVP => "NETHER_PVP"
    case PLACE_BLOCKS => "PLACE_BLOCKS"
    case PORTAL => "PORTAL"
    case PRESSURE_PLATE => "PRESSURE_PLATE"
    case PVP => "PVP"
    case REDSTONE => "REDSTONE"
    case SPAWN_EGGS => "SPAWN_EGGS"
    case SHEARING => "SHEARING"
    case VILLAGER_TRADING => "VILLAGER_TRADING"
    case VISITOR_ITEM_DROP => "VISITOR_ITEM_DROP"
    case VISITOR_ITEM_PICKUP => "VISITOR_ITEM_PICKUP"
  }

  /** `SettingsFlag.valueOf`: `None` stands for the IllegalArgumentException on an unknown name. */
  function FlagValueOf(s: string): (r: Option<Flag>)
  {
    match s
    case "ACID_DAMAGE" => Some(ACID_DAMAGE)
    case "ANVIL" => Some(ANVIL)
    case "ARMOR_STAND" => Some(ARMOR_STAND)
    case "BEACON" => Some(BEACON)
    case "BED" => Some(BED)
    case "BREAK_BLOCKS" => Some(BREAK_BLOCKS)
    case "BREEDING" => Some(BREEDING)
    case "BREWING" => Some(BREWING)
    case "BUCKET" => Some(BUCKET)
    case "COLLECT_LAVA" => Some(COLLECT_LAVA)
    case "COLLECT_WATER" => Some(COLLECT_WATER)
    case "CHEST" => Some(CHEST)
    case "CHORUS_FRUIT" => Some(CHORUS_FRUIT)
    case "CRAFTING" => Some(CRAFTING)
    case "CREEPER_PAIN" => Some(CREEPER_PAIN)
    case "CROP_TRAMPLE" => Some(CROP_TRAMPLE)
    case "DOOR" => Some(DOOR)
    case "EGGS" => Some(EGGS)
    case "ENCHANTING" => Some(ENCHANTING)
    case "ENDER_PEARL" => Some(ENDER_PEARL)
    case "ENTER_EXIT_MESSAGES" => Some(ENTER_EXIT_MESSAGES)
    case "FIRE" => Some(FIRE)
    case "FIRE_EXTINGUISH" => Some(FIRE_EXTINGUISH)
    case "FIRE_SPREAD" => Some(FIRE_SPREAD)
    case "FURNACE" => Some(FURNACE)
    case "GATE" => Some(GATE)
    case "HORSE_INVENTORY" => Some(HORSE_INVENTORY)
    case "HORSE_RIDING" => Some(HORSE_RIDING)
    case "HURT_MOBS" => Some(HURT_MOBS)
    case "HURT_MONSTERS" => Some(HURT_MONSTERS)
    case "LEASH" => Some(LEASH)
    case "LEVER_BUTTON" => Some(LEVER_BUTTON)
    case "MILKING" => Some(MILKING)
    case "MOB_SPAWN" => Some(MOB_SPAWN)
    case "MONSTER_SPAWN" => Some(MONSTER_SPAWN)
    case "MUSIC" => Some(MUSIC)
    case "NETHER_PVP" => Some(NETHER_PVP)
    case "PLACE_BLOCKS" => Some(PLACE_BLOCKS)
    case "PORTAL" => Some(PORTAL)
    case "PRESSURE_PLATE" => Some(PRESSURE_PLATE)
    case "PVP" => Some(PVP)
    case "REDSTONE" => Some(REDSTONE)
    case "SPAWN_EGGS" => Some(SPAWN_EGGS)
    case "SHEARING" => Some(SHEARING)
    case "VILLAGER_TRADING" => Some(VILLAGER_TRADING)
    case "VISITOR_ITEM_DROP" => Some(VISITOR_ITEM_DROP)
    case "VISITOR_ITEM_PICKUP" => Some(VISITOR_ITEM_PICKUP)
    case _ => None
  }

  /** Each constant's name reads back as that constant. */
  lemma NameRoundTrip(f: Flag)
    ensures FlagValueOf(FlagName(f)) == Some(f)
  {
    if FlagIndex(f) < 6 {
      NamesReadBack0(f);
    } else if FlagIndex(f) < 12 {
      NamesReadBack1(f);
    } else if FlagIndex(f) < 18 {
      NamesReadBack2(f);
    } else if FlagIndex(f) < 24 {
      NamesReadBack3(f);
    } else if FlagIndex(f) < 30 {
      NamesReadBack4(f);
    } else if FlagIndex(f) < 36 {
      NamesReadBack5(f);
    } else if FlagIndex(f) < 42 {
      NamesReadBack6(f);
    } else {
      NamesReadBack7(f);
    }
  }

  lemma NamesReadBack0(f: Flag)
    requires 0 <= FlagIndex(f) < 6
    ensures FlagValueOf(FlagName(f)) == Some(f)
  {
    match f
    case ACID_DAMAGE => assert FlagValueOf("ACID_DAMAGE") == Some(ACID_DAMAGE);
    case ANVIL => assert FlagValueOf("ANVIL") == Some(ANVIL);
    case ARMOR_STAND => assert FlagValueOf("ARMOR_STAND") == Some(ARMOR_STAND);
    case BEACON => assert FlagValueOf("BEACON") == Some(BEACON);
    case BED => assert FlagValueOf("BED") == Some(BED);
    case BREAK_BLOCKS => assert FlagValueOf("BREAK_BLOCKS") == Some(BREAK_BLOCKS);
    case _ => assert false;
  }

  lemma NamesReadBack1(f: Flag)
    requires 6 <= FlagIndex(f) < 12
    ensures FlagValueOf(FlagName(f)) == Some(f)
  {
    match f
    case BREEDING => assert FlagValueOf("BREEDING") == Some(BREEDING);
    case BREWING => assert FlagValueOf("BREWING") == Some(BREWING);
    case BUCKET => assert FlagValueOf("BUCKET") == Some(BUCKET);
    case COLLECT_LAVA => assert FlagValueOf("COLLECT_LAVA") == Some(COLLECT_LAVA);
    case COLLECT_WATER => assert FlagValueOf("COLLECT_WATER") == Some(COLLECT_WATER);
    case CHEST => assert FlagValueOf("CHEST") == Some(CHEST);
    case _ => assert false;
  }

  lemma NamesReadBack2(f: Flag)
    requires 12 <= FlagIndex(f) < 18
    ensures FlagValueOf(FlagName(f)) == Some(f)
  {
    match f
    case CHORUS_FRUIT => assert FlagValueOf("CHORUS_FRUIT") == Some(CHORUS_FRUIT);
    case CRAFTING => assert FlagValueOf("CRAFTING") == Some(CRAFTING);
    case CREEPER_PAIN => assert FlagValueOf("CREEPER_PAIN") == Some(CREEPER_PAIN);
    case CROP_TRAMPLE => assert FlagValueOf("CROP_TRAMPLE") == Some(CROP_TRAMPLE);
    case DOOR => assert FlagValueOf("DOOR") == Some(DOOR);
    case EGGS => assert FlagValueOf("EGGS") == Some(EGGS);
    case _ => assert false;
  }

  lemma NamesReadBack3(f: Flag)
    requires 18 <= FlagIndex(f) < 24
    ensures FlagValueOf(FlagName(f)) == Some(f)
  {
    match f
    case ENCHANTING => assert FlagValueOf("ENCHANTING") == Some(ENCHANTING);
    case ENDER_PEARL => assert FlagValueOf("ENDER_PEARL") == Some(ENDER_PEARL);
    case ENTER_EXIT_MESSAGES => assert FlagValueOf("ENTER_EXIT_MESSAGES") == Some(ENTER_EXIT_MESSAGES);
    case FIRE => assert FlagValueOf("FIRE") == Some(FIRE);
    case FIRE_EXTINGUISH => assert FlagValueOf("FIRE_EXTINGUISH") == Some(FIRE_EXTINGUISH);
    case FIRE_SPREAD => assert FlagValueOf("FIRE_SPREAD") == Some(FIRE_SPREAD);
    case _ => assert false;
  }

  lemma NamesReadBack4(f: Flag)
    requires 24 <= FlagIndex(f) < 30
    ensures FlagValueOf(FlagName(f)) == Some(f)
  {
    match f
    case FURNACE => assert FlagValueOf("FURNACE") == Some(FURNACE);
    case GATE => assert FlagValueOf("GATE") == Some(GATE);
    case HORSE_INVENTORY => assert FlagValueOf("HORSE_INVENTORY") == Some(HORSE_INVENTORY);
    case HORSE_RIDING => assert FlagValueOf("HORSE_RIDING") == Some(HORSE_RIDING);
    case HURT_MOBS => assert FlagValueOf("HURT_MOBS") == Some(HURT_MOBS);
    case HURT_MONSTERS => assert FlagValueOf("HURT_MONSTERS") == Some(HURT_MONSTERS);
    case _ => assert false;
  }

  lemma NamesReadBack5(f: Flag)
    requires 30 <= FlagIndex(f) < 36
    ensures FlagValueOf(FlagName(f)) == Some(f)
  {
    match f
    case LEASH => assert FlagValueOf("LEASH") == Some(LEASH);
    case LEVER_BUTTON => assert FlagValueOf("LEVER_BUTTON") == Some(LEVER_BUTTON);
    case MILKING => assert FlagValueOf("MILKING") == Some(MILKING);
    case MOB_SPAWN => assert FlagValueOf("MOB_SPAWN") == Some(MOB_SPAWN);
    case MONSTER_SPAWN => assert FlagValueOf("MONSTER_SPAWN") == Some(MONSTER_SPAWN);
    case MUSIC => assert FlagValueOf("MUSIC") == Some(MUSIC);
    case _ => assert false;
  }

  lemma NamesReadBack6(f: Flag)
    requires 36 <= FlagIndex(f) < 42
    ensures FlagValueOf(FlagName(f)) == Some(f)
  {
    match f
    case NETHER_PVP => assert FlagValueOf("NETHER_PVP") == Some(NETHER_PVP);
    case PLACE_BLOCKS => assert FlagValueOf("PLACE_BLOCKS") == Some(PLACE_BLOCKS);
    case PORTAL => assert FlagValueOf("PORTAL") == Some(PORTAL);
    case PRESSURE_PLATE => assert FlagValueOf("PRESSURE_PLATE") == Some(PRESSURE_PLATE);
    case PVP => assert FlagValueOf("PVP") == Some(PVP);
    case REDSTONE => assert FlagValueOf("REDSTONE") == Some(REDSTONE);
    case _ => assert false;
  }

  lemma NamesReadBack7(f: Flag)
    requires 42 <= FlagIndex(f) < 47
    ensures FlagValueOf(FlagName(f)) == Some(f)
  {
    match f
    case SPAWN_EGGS => assert FlagValueOf("SPAWN_EGGS") == Some(SPAWN_EGGS);
    case SHEARING => assert FlagValueOf("SHEARING") == Some(SHEARING);
    case VILLAGER_TRADING => assert FlagValueOf("VILLAGER_TRADING") == Some(VILLAGER_TRADING);
    case VISITOR_ITEM_DROP => assert FlagValueOf("VISITOR_ITEM_DROP") == Some(VISITOR_ITEM_DROP);
    case VISITOR_ITEM_PICKUP => assert FlagValueOf("VISITOR_ITEM_PICKUP") == Some(VISITOR_ITEM_PICKUP);
    case _ => assert false;
  }

  /** No constant occurs twice in the declaration order. */
  lemma IndexOfListed(i: nat)
    requires i < |AllFlags()|
    ensures FlagIndex(AllFlags()[i]) == i
  {
    if i < 6 {
      IndexOfListed0(i);
    } else if i < 12 {
      IndexOfListed1(i);
    } else if i < 18 {
      IndexOfListed2(i);
    } else if i < 24 {
      IndexOfListed3(i);
    } else if i < 30 {
      IndexOfListed4(i);
    } else if i < 36 {
      IndexOfListed5(i);
    } else if i < 42 {
      IndexOfListed6(i);
    } else {
      IndexOfListed7(i);
    }
  }

  lemma IndexOfListed0(i: nat)
    requires 0 <= i < 6
    ensures FlagIndex(FlagAt(i)) == i
  {
    match i
    case 0 =>
    case 1 =>
    case 2 =>
    case 3 =>
    case 4 =>
    case 5 =>
    case _ => assert false;
  }

  lemma IndexOfListed1(i: nat)
    requires 6 <= i < 12
    ensures FlagIndex(FlagAt(i)) == i
  {
    match i
    case 6 =>
    case 7 =>
    case 8 =>
    case 9 =>
    case 10 =>
    case 11 =>
    case _ => assert false;
  }

  lemma IndexOfListed2(i: nat)
    requires 12 <= i < 18
    ensures FlagIndex(FlagAt(i)) == i
  {
    match i
    case 12 =>
    case 13 =>
    case 14 =>
    case 15 =>
    case 16 =>
    case 17 =>
    case _ => assert false;
  }

  lemma IndexOfListed3(i: nat)
    requires 18 <= i < 24
    ensures FlagIndex(FlagAt(i)) == i
  {
    match i
    case 18 =>
    case 19 =>
    case 20 =>
    case 21 =>
    case 22 =>
    case 23 =>
    case _ => assert false;
  }

  lemma IndexOfListed4(i: nat)
    requires 24 <= i < 30
    ensures FlagIndex(FlagAt(i)) == i
  {
    match i
    case 24 =>
    case 25 =>
    case 26 =>
    case 27 =>
    case 28 =>
    case 29 =>
    case _ => assert false;
  }

  lemma IndexOfListed5(i: nat)
    requires 30 <= i < 36
    ensures FlagIndex(FlagAt(i)) == i
  {
    match i
    case 30 =>
    case 31 =>
    case 32 =>
    case 33 =>
    case 34 =>
    case 35 =>
    case _ => assert false;
  }

  lemma IndexOfListed6(i: nat)
    requires 36 <= i < 42
    ensures FlagIndex(FlagAt(i)) == i
  {
    match i
    case 36 =>
    case 37 =>
    case 38 =>
    case 39 =>
    case 40 =>
    case 41 =>
    case _ => assert false;
  }

  lemma IndexOfListed7(i: nat)
    requires 42 <= i < 47
    ensures FlagIndex(FlagAt(i)) == i
  {
    match i
    case 42 =>
    case 43 =>
    case 44 =>
    case 45 =>
    case 46 =>
    case _ => assert false;
  }

  /**
   * The settings key that is written next to the island records: the name of
   * every flag, in declaration order.
   */
  function FlagNames(): (key: seq<string>)
    ensures |key| == |AllFlags()|
    ensures forall i :: 0 <= i < |key| ==> FlagValueOf(key[i]) == Some(AllFlags()[i])
  {
    var key := seq(|AllFlags()|, i requires 0 <= i < |AllFlags()| => FlagName(AllFlags()[i]));
    assert forall i :: 0 <= i < |key| ==> FlagValueOf(key[i]) == Some(AllFlags()[i]) by {
      forall i | 0 <= i < |key| ensures FlagValueOf(key[i]) == Some(AllFlags()[i]) {
        NameRoundTrip(AllFlags()[i]);
      }
    }
    key
  }

  // ------------------------------------------------------------ defaults

  /**
   * The default of one flag: the value configured for it when there is one
   * and it is not null, otherwise true for MOB_SPAWN and MONSTER_SPAWN only.
   */
  function DefaultValue(defaults: map<Flag, Option<bool>>, f: Flag): bool {
    if f in defaults && defaults[f].Some? then defaults[f].value
    else f == MOB_SPAWN || f == MONSTER_SPAWN
  }

  /** The flag map that setIgsDefaults (and setSpawnDefaults) leave behind. */
  function DefaultFlags(defaults: map<Flag, Option<bool>>): (m: map<Flag, bool>)
    ensures forall f :: f in m && m[f] == DefaultValue(defaults, f)
  {
    var m := map f | f in AllFlags() :: DefaultValue(defaults, f);
    assert forall f :: f in m by {
      forall f ensures f in m {
        assert AllFlags()[FlagIndex(f)] == f;
      }
    }
    m
  }

  /** A flag map that holds every flag. */
  predicate Full(igs: map<Flag, bool>) {
    forall f :: f in igs
  }

  /** The defaults hold every flag and follow the configuration exactly where it has a value. */
  lemma DefaultsFollowConfiguration(defaults: map<Flag, Option<bool>>, f: Flag)
    ensures Full(DefaultFlags(defaults))
    ensures f in defaults && defaults[f].Some? ==> DefaultFlags(defaults)[f] == defaults[f].value
    ensures !(f in defaults && defaults[f].Some?) ==>
      (DefaultFlags(defaults)[f] <==> f == MOB_SPAWN || f == MONSTER_SPAWN)
  {
  }

  // ------------------------------------------------------- text form

  /**
   * The text of a flag map: one character per flag in declaration order,
   * '1' exactly when the flag is present and true.
   */
  function EncodeFlags(igs: map<Flag, bool>): (s: string)
    ensures |s| == |AllFlags()|
    ensures forall i :: 0 <= i < |s| ==> (s[i] == '0' || s[i] == '1')
    ensures forall i :: 0 <= i < |s| ==> (s[i] == '1' <==> AllFlags()[i] in igs && igs[AllFlags()[i]])
  {
    seq(|AllFlags()|, i requires 0 <= i < |AllFlags()| => if AllFlags()[i] in igs && igs[AllFlags()[i]] then '1' else '0')
  }

  /** One turn of setSettings' loop: the flag named `key[i]` becomes `s[i] != '0'`; an unknown name is skipped. */
  function ApplyAt(m: map<Flag, bool>, s: string, key: seq<string>, i: nat): map<Flag, bool>
    requires i < |s| && i < |key|
  {
    match FlagValueOf(key[i])
    case None => m
    case Some(f) => m[f := s[i] != '0']
  }

  /** The first `n` turns of setSettings' loop, starting from `m`. */
  function ApplyPrefix(m: map<Flag, bool>, s: string, key: seq<string>, n: nat): map<Flag, bool>
    requires n <= |s| && n <= |key|
  {
    if n == 0 then m else ApplyAt(ApplyPrefix(m, s, key, n - 1), s, key, n - 1)
  }

  /** The last index below `n` whose key names `f`, or -1 when none does. */
  function LastNaming(key: seq<string>, f: Flag, n: nat): (j: int)
    requires n <= |key|
    ensures -1 <= j < n
    ensures j >= 0 ==> FlagValueOf(key[j]) == Some(f)
    ensures forall i :: j < i < n ==> FlagValueOf(key[i]) != Some(f)
  {
    if n == 0 then -1
    else if FlagValueOf(key[n - 1]) == Some(f) then n - 1
    else LastNaming(key, f, n - 1)
  }

  /** After the first `n` turns, a flag holds the character of the last key naming it, or its old value. */
  lemma {:induction false} ApplyPrefixValue(m: map<Flag, bool>, s: string, key: seq<string>, n: nat, f: Flag)
    requires n <= |s| && n <= |key|
    ensures var r, j := ApplyPrefix(m, s, key, n), LastNaming(key, f, n);
      (j >= 0 ==> f in r && r[f] == (s[j] != '0')) &&
      (j < 0 ==> (f in r <==> f in m) && (f in m ==> r[f] == m[f]))
  {
    if n > 0 {
      ApplyPrefixValue(m, s, key, n - 1, f);
    }
  }

  /** A key that is the only one naming its flag among the first `n`. */
  lemma {:induction false} LastNamingUnique(key: seq<string>, f: Flag, j: nat, n: nat)
    requires j < n <= |key|
    requires FlagValueOf(key[j]) == Some(f)
    requires forall i :: j < i < n ==> FlagValueOf(key[i]) != Some(f)
    ensures LastNaming(key, f, n) == j
  {
    if n - 1 > j {
      LastNamingUnique(key, f, j, n - 1);
    }
  }

  /**
   * What setSettings makes of flag `f` for a settings text as long as the
   * key: the character of the last key entry naming `f`, or the default when
   * no entry names it.
   */
  function NamedSetting(defaults: map<Flag, Option<bool>>, s: string, key: seq<string>, f: Flag): bool
    requires |key| == |s|
  {
    var j := LastNaming(key, f, |key|);
    if j >= 0 then s[j] != '0' else DefaultValue(defaults, f)
  }

  /**
   * The flag map after setSettings(s, key) (Island.setSettings): the
   * defaults, then, when `s` is present, not empty and exactly as long as
   * the key, each flag named in the key set from its character.
   */
  function SettingsResult(defaults: map<Flag, Option<bool>>, s: Option<string>, key: seq<string>): (r: map<Flag, bool>)
    ensures Full(r)
    ensures s.None? || s.value == "" || |key| != |s.value| ==> r == DefaultFlags(defaults)
    ensures s.Some? && |key| == |s.value| ==> forall f :: r[f] == NamedSetting(defaults, s.value, key, f)
  {
    var base := DefaultFlags(defaults);
    if s.None? || s.value == "" || |key| != |s.value| then base
    else
      var r := ApplyPrefix(base, s.value, key, |key|);
      assert forall f :: f in r && r[f] == NamedSetting(defaults, s.value, key, f) by {
        forall f ensures f in r && r[f] == NamedSetting(defaults, s.value, key, f) {
          ApplyPrefixValue(base, s.value, key, |key|, f);
        }
      }
      r
  }

  /** In the saved key, the entry naming a flag is the one at the flag's own index. */
  lemma KeyNamesOnce(f: Flag)
    ensures LastNaming(FlagNames(), f, |FlagNames()|) == FlagIndex(f)
  {
    var key, j := FlagNames(), FlagIndex(f);
    forall i | j < i < |key| ensures FlagValueOf(key[i]) != Some(f) {
      IndexOfListed(i);
    }
    LastNamingUnique(key, f, j, |key|);
  }

  /** Reading back the text of a full flag map restores each flag. */
  lemma FlagReadBack(defaults: map<Flag, Option<bool>>, igs: map<Flag, bool>, f: Flag)
    requires Full(igs)
    ensures SettingsResult(defaults, Some(EncodeFlags(igs)), FlagNames())[f] == igs[f]
  {
    var key, s, j := FlagNames(), EncodeFlags(igs), FlagIndex(f);
    KeyNamesOnce(f);
    assert NamedSetting(defaults, s, key, f) == (s[j] != '0');
  }

  /** Two full flag maps that agree on every flag are equal. */
  lemma FullMapsEqual(a: map<Flag, bool>, b: map<Flag, bool>)
    requires Full(a) && Full(b)
    requires forall f :: a[f] == b[f]
    ensures a == b
  {
    assert a.Keys == b.Keys;
  }

  /**
   * Writing a full flag map and reading it back with the saved key gives the
   * same map, whatever the defaults are.
   */
  lemma FlagsRoundTrip(defaults: map<Flag, Option<bool>>, igs: map<Flag, bool>)
    requires Full(igs)
    ensures SettingsResult(defaults, Some(EncodeFlags(igs)), FlagNames()) == igs
  {
    var r := SettingsResult(defaults, Some(EncodeFlags(igs)), FlagNames());
    forall f ensures r[f] == igs[f] {
      FlagReadBack(defaults, igs, f);
    }
    FullMapsEqual(r, igs);
  }
}
