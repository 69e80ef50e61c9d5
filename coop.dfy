/**
 * Coop play (CoopPlay): a player can be granted coop rights on other
 * players' islands. Each grantee has a map from the centre of an island to
 * the player who granted the rights there. Joining and leaving fire events
 * that other plugins may cancel; the cancellations are inputs here.
 */
module Coop {
  import opened Base
  import opened Uuids
  import opened Locations
  import opened Islands
  import opened Grid

  /** The grants one grantee holds: island centre to grantor. */
  type Grants = map<Location, Uuid>

  /** The grants without those made by `grantor` (removeIf on the grantor). */
  function WithoutGrantsBy(g: Grants, grantor: Uuid): (r: Grants)
    ensures forall l :: l in r <==> l in g && g[l] != grantor
    ensures forall l :: l in r ==> r[l] == g[l]
  {
    map l | l in g && g[l] != grantor :: g[l]
  }

  /** The grants made by one of `grantors`. */
  function GrantedBy(g: Grants, grantors: set<Uuid>): (r: Grants)
    ensures forall l :: l in r <==> l in g && g[l] in grantors
    ensures forall l :: l in r ==> r[l] == g[l]
  {
    map l | l in g && g[l] in grantors :: g[l]
  }

  /**
   * The leave pass of CoopPlay.clearMyCoops over one grantee's grants: for
   * each grantor a leave event fires; unless it is vetoed every grant by
   * that grantor goes. `anyVetoed` records whether some leave was vetoed.
   */
  method LeavePass(grants: Grants, vetoed: set<Uuid>) returns (rest: Grants, anyVetoed: bool)
    ensures rest == GrantedBy(grants, vetoed)
    ensures anyVetoed <==> exists l :: l in grants && grants[l] in vetoed
  {
    rest := grants;
    anyVetoed := false;
    var pending := grants.Values;
    while pending != {}
      invariant pending <= grants.Values
      invariant forall l :: l in rest <==> l in grants && (grants[l] in vetoed || grants[l] in pending)
      invariant forall l :: l in rest ==> rest[l] == grants[l]
      invariant anyVetoed <==> exists l :: l in grants && grants[l] in vetoed && grants[l] !in pending
      decreases pending
    {
      ghost var someGrantor := Element(pending);
      var grantor :| grantor in pending;
      if grantor !in vetoed {
        rest := WithoutGrantsBy(rest, grantor);
      } else {
        assert grantor in grants.Values;
        ghost var l :| l in grants && grants[l] == grantor;
        anyVetoed := true;
      }
      pending := pending - {grantor};
    }
  }

  /**
   * The inner loop of CoopPlay.clearMyInvitedCoops over one grantee's
   * grants: each grant made by `clearer` is removed unless the grantee's
   * leave is vetoed.
   */
  method RevokeGrants(grants: Grants, clearer: Uuid, vetoed: bool) returns (rest: Grants)
    ensures rest == if vetoed then grants else WithoutGrantsBy(grants, clearer)
  {
    rest := grants;
    var pending := grants.Keys;
    while pending != {}
      invariant pending <= grants.Keys
      invariant forall l :: l in rest <==> l in grants && (l in pending || grants[l] != clearer || vetoed)
      invariant forall l :: l in rest ==> rest[l] == grants[l]
      decreases pending
    {
      ghost var someKey := Element(pending);
      var l :| l in pending;
      if grants[l] == clearer {
        if !vetoed {
          rest := rest - {l};
        }
      }
      pending := pending - {l};
    }
  }

  /**
   * The coop map after CoopPlay.clearMyCoops as written: the grants whose
   * grantors' leaves went through are gone, and the grantee's whole entry
   * is dropped when some leave was vetoed.
   */
  function ClearedAsWritten(m: map<Uuid, Grants>, p: Uuid, vetoed: set<Uuid>): map<Uuid, Grants> {
    if p !in m then m
    else if exists l :: l in m[p] && m[p][l] in vetoed then m - {p}
    else m[p := GrantedBy(m[p], vetoed)]
  }

  /**
   * clearMyCoops as evidently intended: the entry is dropped when every
   * leave went through, and a vetoed leave keeps its grants.
   */
  function ClearedIntended(m: map<Uuid, Grants>, p: Uuid, vetoed: set<Uuid>): map<Uuid, Grants> {
    if p !in m then m
    else if exists l :: l in m[p] && m[p][l] in vetoed then m[p := GrantedBy(m[p], vetoed)]
    else m - {p}
  }

  /** The islands a grantee holds grants on in the coop map `m`. */
  function HeldIslands(m: map<Uuid, Grants>, p: Uuid): set<Location> {
    if p in m then m[p].Keys else {}
  }

  /**
   * As written, clearMyCoops leaves the player with no grants whatever is
   * vetoed, and other grantees keep theirs.
   */
  lemma ClearMyCoopsIgnoresVeto(m: map<Uuid, Grants>, p: Uuid, vetoed: set<Uuid>)
    ensures HeldIslands(ClearedAsWritten(m, p, vetoed), p) == {}
    ensures forall q :: q != p ==> HeldIslands(ClearedAsWritten(m, p, vetoed), q) == HeldIslands(m, q)
  {
    if p in m && !(exists l :: l in m[p] && m[p][l] in vetoed) {
      assert GrantedBy(m[p], vetoed).Keys == {};
    }
  }

  /** A single grant whose leave is vetoed is still lost by clearMyCoops as written. */
  lemma VetoedGrantIsLost(p: Uuid, c: Location, g: Uuid)
    ensures var m := map[p := map[c := g]];
      c in HeldIslands(m, p) && HeldIslands(ClearedAsWritten(m, p, {g}), p) == {} &&
      HeldIslands(ClearedIntended(m, p, {g}), p) == {c}
  {
    var m := map[p := map[c := g]];
    assert c in m[p] && m[p][c] in {g};
  }

  /**
   * clearMyCoops as intended keeps exactly the grants whose leaves were
   * vetoed, and other grantees keep theirs.
   */
  lemma IntendedKeepsVetoedGrants(m: map<Uuid, Grants>, p: Uuid, vetoed: set<Uuid>)
    ensures forall l :: l in HeldIslands(ClearedIntended(m, p, vetoed), p) <==>
      l in HeldIslands(m, p) && m[p][l] in vetoed
    ensures forall q :: q != p ==> HeldIslands(ClearedIntended(m, p, vetoed), q) == HeldIslands(m, q)
  {
  }

  /** The text getMyCoops writes for one grant: "location|grantor". */
  function EntryText(l: Location, u: Uuid): string {
    GetStringLocation(Some(l)) + "|" + UuidToString(u)
  }

  /** The texts for the grants at `keys`, in that order. */
  function EntryTexts(keys: seq<Location>, g: Grants): (r: seq<string>)
    requires forall i :: 0 <= i < |keys| ==> keys[i] in g
    ensures |r| == |keys|
  {
    if keys == [] then [] else EntryTexts(keys[..|keys| - 1], g) + [EntryText(keys[|keys| - 1], g[keys[|keys| - 1]])]
  }

  /** `keys` lists every key of `g` exactly once. */
  predicate Listing(keys: seq<Location>, g: Grants) {
    (forall i :: 0 <= i < |keys| ==> keys[i] in g) &&
    (forall l :: l in g ==> l in keys) &&
    (forall i, j :: 0 <= i < j < |keys| ==> keys[i] != keys[j])
  }

  /** The grants of `g` whose keys occur in `keys`. */
  function Restrict(g: Grants, keys: seq<Location>): (r: Grants)
    ensures forall l :: l in r <==> l in g && l in keys
  {
    map l | l in g && l in keys :: g[l]
  }

  /** Restricting to one more key adds that key's grant. */
  lemma RestrictAppend(g: Grants, keys: seq<Location>)
    requires keys != [] && keys[|keys| - 1] in g
    ensures var front, last := keys[..|keys| - 1], keys[|keys| - 1];
      Restrict(g, keys) == Restrict(g, front)[last := g[last]]
  {
    var front, last := keys[..|keys| - 1], keys[|keys| - 1];
    forall l | l in keys ensures l in front || l == last {
      var i :| 0 <= i < |keys| && keys[i] == l;
      if i < |front| { assert front[i] == l; }
    }
    forall l | l in front ensures l in keys {
      var i :| 0 <= i < |front| && front[i] == l;
      assert keys[i] == l;
    }
  }

  /** A text form of a location that holds no '|'. */
  lemma LocationTextHasNoBar(l: Location)
    requires l.world.Some? && ':' !in l.world.value && '|' !in l.world.value
    ensures '|' !in GetStringLocation(Some(l))
  {
    var fs := LocationFields(l);
    IntStringHasNo(l.x, '|');
    IntStringHasNo(l.y, '|');
    IntStringHasNo(l.z, '|');
    IntStringHasNo(l.yawBits, '|');
    IntStringHasNo(l.pitchBits, '|');
    NoCharInJoin(fs, ':', '|');
  }

  /** An entry text splits on '|' into the location text and the grantor. */
  lemma EntrySplits(l: Location, u: Uuid)
    requires l.world.Some? && ':' !in l.world.value && '|' !in l.world.value
    ensures Split(EntryText(l, u), '|') == [GetStringLocation(Some(l)), UuidToString(u)]
  {
    var a, b := GetStringLocation(Some(l)), UuidToString(u);
    LocationTextHasNoBar(l);
    UuidHasNoSeparator(u, '|');
    assert Join([a, b], '|') == EntryText(l, u);
    SplitJoin([a, b], '|');
  }

  class CoopPlay {
    /** The island registry the coop grants refer to. */
    const grid: GridManager
    /** Grantee to their grants. */
    var coopPlayers: map<Uuid, Grants>

    constructor(grid: GridManager)
      ensures this.grid == grid && coopPlayers == map[]
    {
      this.grid := grid;
      coopPlayers := map[];
    }

    /** CoopPlay.getCoopIslands: the centres the player holds grants on. */
    function GetCoopIslands(p: Uuid): set<Location>
      reads this
    {
      HeldIslands(coopPlayers, p)
    }

    /**
     * CoopPlay.getCoopPlayers: the grantees holding a grant on the centre of
     * the island at `l`; none when no island is there.
     */
    function GetCoopPlayers(l: Option<Location>): set<Uuid>
      reads this, grid, grid.spawn
    {
      var i := grid.GetIslandAt(l);
      if i.None? then {} else set u | u in coopPlayers && i.value.Center() in coopPlayers[u]
    }

    /** The two queries agree: a grantee of the island at `l` holds a grant on its centre. */
    lemma CoopQueriesAgree(l: Option<Location>, u: Uuid)
      ensures u in GetCoopPlayers(l) <==>
        grid.GetIslandAt(l).Some? && grid.GetIslandAt(l).value.Center() in GetCoopIslands(u)
    {
    }

    /** The island a coop request is for: the team's island for a team member, else the requester's own. */
    function RequestedIsland(inTeam: bool, teamIslandLocation: Option<Location>, islandLocation: Option<Location>): Option<Island>
      reads grid, grid.spawn
    {
      grid.GetIslandAt(if inTeam then teamIslandLocation else islandLocation)
    }

    /**
     * CoopPlay.addCoopPlayer. The requester's team state, leader and island
     * locations come from the player cache; `vetoed` is the cancellation of
     * the join event. As written, the test at the end is inverted: a
     * grantee with no entry makes the code dereference a missing map
     * (Thrown), and a grantee with an entry has it replaced by the new
     * single grant.
     */
    method AddCoopPlayer(requester: Uuid, newPlayer: Uuid, inTeam: bool, leader: Option<Uuid>,
                         teamIslandLocation: Option<Location>, islandLocation: Option<Location>, vetoed: bool)
      returns (r: Outcome<bool>)
      modifies this`coopPlayers
      ensures var refused := (inTeam && grid.settings.onlyLeaderCanCoop && leader != Some(requester)) ||
          RequestedIsland(inTeam, teamIslandLocation, islandLocation).None? || vetoed;
        (r == Value(false) <==> refused) &&
        (r.Thrown? <==> !refused && newPlayer !in old(coopPlayers)) &&
        (r != Value(true) ==> coopPlayers == old(coopPlayers))
      ensures r == Value(true) ==>
        var c := RequestedIsland(inTeam, teamIslandLocation, islandLocation).value.Center();
        newPlayer in old(coopPlayers) && coopPlayers == old(coopPlayers)[newPlayer := map[c := requester]] &&
        GetCoopIslands(newPlayer) == {c} && coopPlayers[newPlayer][c] == requester
      ensures forall p :: p != newPlayer ==> GetCoopIslands(p) == old(GetCoopIslands(p))
    {
      var islandLoc := if inTeam then teamIslandLocation else islandLocation;
      if inTeam && grid.settings.onlyLeaderCanCoop && leader != Some(requester) {
        return Value(false);
      }
      var coopIsland := grid.GetIslandAt(islandLoc);
      if coopIsland.None? {
        return Value(false);
      }
      if vetoed {
        return Value(false);
      }
      if newPlayer !in coopPlayers {
        // coopPlayers.get(newPlayer) is null here.
        return Thrown;
      }
      coopPlayers := coopPlayers[newPlayer := map[coopIsland.value.Center() := requester]];
      return Value(true);
    }

    /**
     * CoopPlay.removeCoopPlayer: the requester's island (through the team
     * leader if need be) is revoked from the target's grants unless the
     * leave is vetoed; the result says whether a grant was removed.
     */
    method RemoveCoopPlayer(requester: Uuid, target: Uuid, leaders: map<Uuid, Uuid>, vetoed: bool)
      returns (removed: bool)
      modifies this`coopPlayers
      ensures var i := grid.GetIsland(Some(requester), leaders);
        removed <==> target in old(coopPlayers) && i.Some? && !vetoed && i.value.Center() in old(coopPlayers)[target]
      ensures var i := grid.GetIsland(Some(requester), leaders);
        coopPlayers == if target in old(coopPlayers) && i.Some? && !vetoed
          then old(coopPlayers)[target := old(coopPlayers)[target] - {i.value.Center()}]
          else old(coopPlayers)
      ensures var i := grid.GetIsland(Some(requester), leaders);
        GetCoopIslands(target) == if removed then old(GetCoopIslands(target)) - {i.value.Center()} else old(GetCoopIslands(target))
      ensures forall p :: p != target ==> GetCoopIslands(p) == old(GetCoopIslands(p))
    {
      removed := false;
      if target in coopPlayers {
        var coopIsland := grid.GetIsland(Some(requester), leaders);
        if coopIsland.Some? {
          if !vetoed {
            var c := coopIsland.value.Center();
            removed := c in coopPlayers[target];
            coopPlayers := coopPlayers[target := coopPlayers[target] - {c}];
          }
        }
      }
    }

    /** Removes the grant on `key` from every grantee, vetoes or not. */
    method RemoveFromAll(key: Location)
      modifies this`coopPlayers
      ensures coopPlayers.Keys == old(coopPlayers).Keys
      ensures forall u :: u in coopPlayers ==> coopPlayers[u] == old(coopPlayers)[u] - {key}
    {
      var pending := coopPlayers.Keys;
      while pending != {}
        invariant pending <= coopPlayers.Keys
        invariant coopPlayers.Keys == old(coopPlayers).Keys
        invariant forall u :: u in coopPlayers ==>
          coopPlayers[u] == if u in pending then old(coopPlayers)[u] else old(coopPlayers)[u] - {key}
        decreases pending
      {
        ghost var someGrantee := Element(pending);
        var u :| u in pending;
        coopPlayers := coopPlayers[u := coopPlayers[u] - {key}];
        pending := pending - {u};
      }
    }

    /**
     * CoopPlay.clearAllIslandCoops(UUID): every grant on the centre of the
     * player's island (through the team leader if need be) is removed;
     * nothing happens when the player has no island.
     */
    method ClearAllIslandCoops(player: Uuid, leaders: map<Uuid, Uuid>)
      modifies this`coopPlayers
      ensures coopPlayers.Keys == old(coopPlayers).Keys
      ensures var i := grid.GetIsland(Some(player), leaders);
        forall u :: u in coopPlayers ==>
          coopPlayers[u] == if i.Some? then old(coopPlayers)[u] - {i.value.Center()} else old(coopPlayers)[u]
      ensures var i := grid.GetIsland(Some(player), leaders);
        i.Some? ==> forall u :: i.value.Center() !in GetCoopIslands(u)
    {
      var island := grid.GetIsland(Some(player), leaders);
      if island.None? {
        return;
      }
      RemoveFromAll(island.value.Center());
    }

    /**
     * CoopPlay.clearAllIslandCoops(Location): when an island is at the
     * location, the grant keyed by the location itself (not the island's
     * centre) is removed from every grantee.
     */
    method ClearAllIslandCoopsAt(island: Option<Location>)
      modifies this`coopPlayers
      ensures coopPlayers.Keys == old(coopPlayers).Keys
      ensures forall u :: u in coopPlayers ==>
        coopPlayers[u] == if grid.GetIslandAt(island).Some? then old(coopPlayers)[u] - {island.value} else old(coopPlayers)[u]
    {
      if island.None? {
        return;
      }
      var coopIsland := grid.GetIslandAt(island);
      if coopIsland.None? {
        return;
      }
      RemoveFromAll(island.value);
    }

    /**
     * CoopPlay.clearMyCoops: `vetoed` holds the grantors whose leave events
     * are cancelled. The entry is dropped when some leave was vetoed, after
     * the grants whose leaves went through were removed.
     */
    method ClearMyCoops(player: Uuid, vetoed: set<Uuid>)
      modifies this`coopPlayers
      ensures coopPlayers == ClearedAsWritten(old(coopPlayers), player, vetoed)
      ensures GetCoopIslands(player) == {}
    {
      if player in coopPlayers {
        var rest, anyVetoed := LeavePass(coopPlayers[player], vetoed);
        coopPlayers := coopPlayers[player := rest];
        if anyVetoed {
          coopPlayers := coopPlayers - {player};
        }
      }
      ClearMyCoopsIgnoresVeto(old(coopPlayers), player, vetoed);
    }

    /** clearMyCoops as intended: vetoed grants stay, and an emptied entry is dropped. */
    method ClearMyCoopsIntended(player: Uuid, vetoed: set<Uuid>)
      modifies this`coopPlayers
      ensures coopPlayers == ClearedIntended(old(coopPlayers), player, vetoed)
      ensures forall l :: l in GetCoopIslands(player) <==> l in old(GetCoopIslands(player)) && old(coopPlayers)[player][l] in vetoed
    {
      if player in coopPlayers {
        var rest, anyVetoed := LeavePass(coopPlayers[player], vetoed);
        if anyVetoed {
          coopPlayers := coopPlayers[player := rest];
        } else {
          coopPlayers := coopPlayers - {player};
        }
      }
      IntendedKeepsVetoedGrants(old(coopPlayers), player, vetoed);
    }

    /**
     * CoopPlay.clearMyInvitedCoops: every grant made by `clearer` is removed
     * unless the grantee's leave is vetoed (`vetoed` holds those grantees);
     * grants by others are untouched.
     */
    method ClearMyInvitedCoops(clearer: Uuid, vetoed: set<Uuid>)
      modifies this`coopPlayers
      ensures coopPlayers.Keys == old(coopPlayers).Keys
      ensures forall u :: u in coopPlayers ==>
        coopPlayers[u] == if u in vetoed then old(coopPlayers)[u] else WithoutGrantsBy(old(coopPlayers)[u], clearer)
    {
      var pending := coopPlayers.Keys;
      while pending != {}
        invariant pending <= coopPlayers.Keys
        invariant coopPlayers.Keys == old(coopPlayers).Keys
        invariant forall u :: u in coopPlayers ==>
          coopPlayers[u] == if u in pending || u in vetoed then old(coopPlayers)[u] else WithoutGrantsBy(old(coopPlayers)[u], clearer)
        decreases pending
      {
        ghost var someGrantee := Element(pending);
        var u :| u in pending;
        var rest := RevokeGrants(coopPlayers[u], clearer, u in vetoed);
        coopPlayers := coopPlayers[u := rest];
        pending := pending - {u};
      }
    }

    /**
     * CoopPlay.getMyCoops: one "location|grantor" text per grant of the
     * player, in the map's iteration order (`keys`).
     */
    method GetMyCoops(u: Uuid) returns (result: seq<string>, ghost keys: seq<Location>)
      ensures u !in coopPlayers ==> result == [] && keys == []
      ensures u in coopPlayers ==> Listing(keys, coopPlayers[u]) && result == EntryTexts(keys, coopPlayers[u])
    {
      result, keys := [], [];
      if u !in coopPlayers {
        return;
      }
      var g := coopPlayers[u];
      var pending := g.Keys;
      while pending != {}
        invariant pending <= g.Keys
        invariant forall i :: 0 <= i < |keys| ==> keys[i] in g && keys[i] !in pending
        invariant forall l :: l in g && l !in pending ==> l in keys
        invariant forall i, j :: 0 <= i < j < |keys| ==> keys[i] != keys[j]
        invariant result == EntryTexts(keys, g)
        decreases pending
      {
        ghost var someKey := Element(pending);
        var l :| l in pending;
        result := result + [EntryText(l, g[l])];
        keys := keys + [l];
        pending := pending - {l};
      }
    }

    /**
     * One text of CoopPlay.setMyCoops applied to the grants read so far: a
     * text that does not split on '|' into two parts, or whose location
     * finds no island, is skipped; a malformed number or grantor throws.
     */
    function ReadEntry(acc: Grants, s: string, worlds: set<string>): Outcome<Grants>
      reads grid, grid.spawn
    {
      var parts := Split(s, '|');
      if |parts| != 2 then Value(acc)
      else
        var loc := GetLocationString(Some(parts[0]), worlds);
        if loc.Thrown? then Thrown
        else
          var island := grid.GetIslandAt(loc.value);
          if island.None? then Value(acc)
          else
            var grantor := ParseUuid(parts[1]);
            if grantor.None? then Thrown else Value(acc[island.value.Center() := grantor.value])
    }

    /** The grants setMyCoops reads from `texts`, in order, later texts overriding earlier ones. */
    function ReadEntries(texts: seq<string>, worlds: set<string>): Outcome<Grants>
      reads grid, grid.spawn
    {
      if texts == [] then Value(map[])
      else
        var prefix := ReadEntries(texts[..|texts| - 1], worlds);
        if prefix.Thrown? then Thrown else ReadEntry(prefix.value, texts[|texts| - 1], worlds)
    }

    /**
     * CoopPlay.setMyCoops: the player's grants are replaced by those read
     * from `texts`; when reading throws, nothing changes.
     */
    method SetMyCoops(u: Uuid, texts: seq<string>, worlds: set<string>) returns (thrown: bool)
      modifies this`coopPlayers
      ensures thrown <==> ReadEntries(texts, worlds).Thrown?
      ensures thrown ==> coopPlayers == old(coopPlayers)
      ensures !thrown ==> coopPlayers == old(coopPlayers)[u := ReadEntries(texts, worlds).value]
    {
      var temp: Grants := map[];
      var i := 0;
      while i < |texts|
        invariant 0 <= i <= |texts|
        invariant ReadEntries(texts[..i], worlds) == Value(temp)
      {
        assert texts[..i + 1][..i] == texts[..i];
        var next := ReadEntry(temp, texts[i], worlds);
        if next.Thrown? {
          ReadsStayThrown(texts, i + 1, worlds);
          assert texts[..|texts|] == texts;
          return true;
        }
        temp := next.value;
        i := i + 1;
      }
      assert texts[..i] == texts;
      coopPlayers := coopPlayers[u := temp];
      return false;
    }

    /** Once a prefix of the texts throws, so does every longer prefix. */
    lemma {:induction false} ReadsStayThrown(texts: seq<string>, n: nat, worlds: set<string>)
      requires n <= |texts| && ReadEntries(texts[..n], worlds).Thrown?
      ensures ReadEntries(texts[..|texts|], worlds).Thrown?
      decreases |texts| - n
    {
      if n < |texts| {
        assert texts[..n + 1][..n] == texts[..n];
        ReadsStayThrown(texts, n + 1, worlds);
      }
    }

    /**
     * A grant centre that setMyCoops can read back: a loaded world whose
     * name holds neither ':' nor '|', a location as read from text, and the
     * island found there has this centre.
     */
    predicate Readable(l: Location, worlds: set<string>)
      reads grid, grid.spawn
    {
      l.world.Some? && l.world.value in worlds && ':' !in l.world.value && '|' !in l.world.value &&
      Storable(l) && grid.GetIslandAt(Some(l)).Some? && grid.GetIslandAt(Some(l)).value.Center() == l
    }

    /** Reading the text of one readable grant adds that grant. */
    lemma EntryReadsBack(acc: Grants, l: Location, u: Uuid, worlds: set<string>)
      requires Readable(l, worlds)
      ensures ReadEntry(acc, EntryText(l, u), worlds) == Value(acc[l := u])
    {
      EntrySplits(l, u);
      LocationRoundTrip(l, worlds);
      UuidRoundTrip(u);
    }

    /** Reading the texts of readable grants in any order gives back those grants. */
    lemma {:induction false} EntriesReadBack(keys: seq<Location>, g: Grants, worlds: set<string>)
      requires forall i :: 0 <= i < |keys| ==> keys[i] in g
      requires forall acc, l :: l in g ==> ReadEntry(acc, EntryText(l, g[l]), worlds) == Value(acc[l := g[l]])
      ensures ReadEntries(EntryTexts(keys, g), worlds) == Value(Restrict(g, keys))
    {
      if keys != [] {
        var n := |keys| - 1;
        var front, last := keys[..n], keys[n];
        EntriesReadBack(front, g, worlds);
        var texts := EntryTexts(keys, g);
        assert texts[..n] == EntryTexts(front, g);
        assert texts[n] == EntryText(last, g[last]);
        var acc := Restrict(g, front);
        assert ReadEntries(texts, worlds) == ReadEntry(acc, texts[n], worlds);
        RestrictAppend(g, keys);
      }
    }

    /**
     * Round trip of the coop file: setMyCoops on the texts getMyCoops wrote
     * for a player gives the player's grants back, when every centre is
     * readable.
     */
    lemma SaveThenLoadCoops(u: Uuid, texts: seq<string>, keys: seq<Location>, worlds: set<string>)
      requires u in coopPlayers && Listing(keys, coopPlayers[u]) && texts == EntryTexts(keys, coopPlayers[u])
      requires forall l :: l in coopPlayers[u] ==> Readable(l, worlds)
      ensures ReadEntries(texts, worlds) == Value(coopPlayers[u])
    {
      var g := coopPlayers[u];
      forall acc, l | l in g
        ensures ReadEntry(acc, EntryText(l, g[l]), worlds) == Value(acc[l := g[l]])
      {
        EntryReadsBack(acc, l, g[l], worlds);
      }
      EntriesReadBack(keys, g, worlds);
      assert Restrict(g, keys) == g;
    }
  }
}
