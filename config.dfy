/**
 * The configuration values the island core reads from Settings, and the
 * worlds of the server.
 */
module Config {
  import opened Base
  import opened Flags

  /**
   * `newNether` is the name of the nether world when both createNether and
   * newNether are switched on and that world exists; `None` otherwise.
   */
  datatype Settings = Settings(
    islandWorld: string,
    newNether: Option<string>,
    islandDistance: int,
    islandProtectionRange: int,
    islandHeight: int,
    islandXOffset: int,
    islandZOffset: int,
    defaultIslandSettings: map<Flag, Option<bool>>,
    onlyLeaderCanCoop: bool,
    cleanRate: int)

  /** Whether a location lies in the island world or in the new-style nether. */
  predicate InWorld(s: Settings, world: Option<string>) {
    world == Some(s.islandWorld) || (s.newNether.Some? && world == s.newNether)
  }
}
