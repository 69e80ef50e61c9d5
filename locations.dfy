/**
 * Locations and their one-line text form "world:x:y:z:yaw:pitch"
 * (Util.getStringLocation / Util.getLocationString).
 */
module Locations {
  import opened Base

  /**
   * A block location. `world` is the world's name (`None` for a location
   * without a world); yaw and pitch are kept as the bit patterns that
   * `Float.floatToIntBits` gives for them.
   */
  datatype Location = Location(world: Option<string>, x: int, y: int, z: int, yawBits: int, pitchBits: int)

  /** A location at block coordinates facing yaw 0, pitch 0. */
  function BlockLocation(world: string, x: int, y: int, z: int): Location {
    Location(Some(world), x, y, z, 0, 0)
  }

  const CanonicalNaN: int := 0x7fc0_0000

  /** Whether the 32-bit pattern `bits` encodes a NaN float. */
  predicate IsNaNBits(bits: int) {
    var u := bits % 0x1_0000_0000;
    (u / 0x80_0000) % 0x100 == 0xff && u % 0x80_0000 != 0
  }

  /**
   * `Float.floatToIntBits(Float.intBitsToFloat(bits))`: the bits come back
   * unchanged except that every NaN becomes the canonical NaN.
   */
  function FloatBits(bits: int): (r: int)
    requires IsInt32(bits)
    ensures IsInt32(r) && (!IsNaNBits(r) || r == CanonicalNaN)
    ensures !IsNaNBits(bits) ==> r == bits
  {
    if IsNaNBits(bits) then CanonicalNaN else bits
  }

  /** What a location read back from its text form looks like. */
  predicate Storable(l: Location) {
    IsInt32(l.x) && IsInt32(l.y) && IsInt32(l.z) &&
    IsInt32(l.yawBits) && IsInt32(l.pitchBits) &&
    (!IsNaNBits(l.yawBits) || l.yawBits == CanonicalNaN) &&
    (!IsNaNBits(l.pitchBits) || l.pitchBits == CanonicalNaN)
  }

  /** The text of a location; "" for no location or a location without a world. */
  function GetStringLocation(l: Option<Location>): (r: string)
    ensures r == "" <==> l.None? || l.value.world.None?
    ensures l.Some? && l.value.world.Some? && ':' !in l.value.world.value ==>
      |Split(r, ':')| == 6 && Split(r, ':')[0] == l.value.world.value
  {
    if l.None? || l.value.world.None? then ""
    else
      var loc := l.value;
      var fs := LocationFields(loc);
      if ':' in loc.world.value then Join(fs, ':')
      else SplitJoin(fs, ':'); Join(fs, ':')
  }

  function LocationFields(l: Location): (fs: seq<string>)
    requires l.world.Some?
    ensures |fs| == 6 && fs[0] == l.world.value
    ensures forall i :: 1 <= i < 6 ==> ':' !in fs[i] && fs[i] != ""
  {
    [l.world.value, IntToString(l.x), IntToString(l.y), IntToString(l.z),
     IntToString(l.yawBits), IntToString(l.pitchBits)]
  }

  /** A text with a known world whose coordinate or angle fields are not all numbers. */
  predicate NumbersMalformed(parts: seq<string>, worlds: set<string>) {
    (|parts| == 4 || |parts| == 6) && parts[0] in worlds &&
    !(forall i :: 1 <= i < |parts| ==> ParseInt(parts[i]).Some?)
  }

  /**
   * Reads a location back. `worlds` are the names of the loaded worlds.
   * `None` covers a null or blank text, a field count other than 4 or 6,
   * and an unknown world; a malformed number is a NumberFormatException.
   */
  function GetLocationString(s: Option<string>, worlds: set<string>): (r: Outcome<Option<Location>>)
    ensures s.None? ==> r == Value(None)
    ensures r.Value? && r.value.Some? ==>
      var parts := Split(s.value, ':');
      (|parts| == 4 || |parts| == 6) && parts[0] in worlds && r.value.value.world == Some(parts[0]) &&
      Storable(r.value.value)
    ensures s.Some? && |Split(s.value, ':')| != 4 && |Split(s.value, ':')| != 6 ==> r == Value(None)
    ensures s.Some? && |Split(s.value, ':')| > 0 && Split(s.value, ':')[0] !in worlds ==> r == Value(None)
  {
    if s.None? then Value(None)
    else
      var parts := Split(s.value, ':');
      if |parts| != 4 && |parts| != 6 then Value(None)
      else if parts[0] !in worlds then Value(None)
      else
        var x, y, z := ParseInt(parts[1]), ParseInt(parts[2]), ParseInt(parts[3]);
        if x.None? || y.None? || z.None? then Thrown
        else if |parts| == 4 then
          Value(Some(Location(Some(parts[0]), x.value, y.value, z.value, 0, 0)))
        else
          var yaw, pitch := ParseInt(parts[4]), ParseInt(parts[5]);
          if yaw.None? || pitch.None? then Thrown
          else Value(Some(Location(Some(parts[0]), x.value, y.value, z.value, FloatBits(yaw.value), FloatBits(pitch.value))))
  }

  /**
   * The values of a location read back: x, y and z are the parsed fields,
   * yaw and pitch are 0 for 4 fields and the float bits of the parsed
   * fields for 6; and with a known world and every number well formed the
   * reading succeeds.
   */
  lemma LocationReadsFields(s: string, worlds: set<string>)
    ensures var r := GetLocationString(Some(s), worlds);
      r.Value? && r.value.Some? ==>
      var parts, l := Split(s, ':'), r.value.value;
      Some(l.x) == ParseInt(parts[1]) && Some(l.y) == ParseInt(parts[2]) && Some(l.z) == ParseInt(parts[3]) &&
      (|parts| == 4 ==> l.yawBits == 0 && l.pitchBits == 0) &&
      (|parts| == 6 ==>
        ParseInt(parts[4]).Some? && ParseInt(parts[5]).Some? &&
        l.yawBits == FloatBits(ParseInt(parts[4]).value) && l.pitchBits == FloatBits(ParseInt(parts[5]).value))
    ensures var parts := Split(s, ':');
      (|parts| == 4 || |parts| == 6) && parts[0] in worlds && !NumbersMalformed(parts, worlds) ==>
      GetLocationString(Some(s), worlds).Value? && GetLocationString(Some(s), worlds).value.Some?
  {
  }

  /** Reading a location throws exactly when a known world comes with a malformed number. */
  lemma LocationThrowsIffMalformed(s: string, worlds: set<string>)
    ensures GetLocationString(Some(s), worlds).Thrown? <==> NumbersMalformed(Split(s, ':'), worlds)
  {
    var parts := Split(s, ':');
    if (|parts| == 4 || |parts| == 6) && parts[0] in worlds {
      var allNumbers := forall i :: 1 <= i < |parts| ==> ParseInt(parts[i]).Some?;
      if |parts| == 4 {
        assert allNumbers <==> ParseInt(parts[1]).Some? && ParseInt(parts[2]).Some? && ParseInt(parts[3]).Some?;
      } else {
        assert allNumbers <==> (ParseInt(parts[1]).Some? && ParseInt(parts[2]).Some? && ParseInt(parts[3]).Some?
          && ParseInt(parts[4]).Some? && ParseInt(parts[5]).Some?);
      }
    }
  }

  /**
   * Writing a location and reading it back gives the same location, when its
   * world is loaded and the world's name has no ':' in it.
   */
  lemma LocationRoundTrip(l: Location, worlds: set<string>)
    requires l.world.Some? && l.world.value in worlds && ':' !in l.world.value
    requires Storable(l)
    ensures GetLocationString(Some(GetStringLocation(Some(l))), worlds) == Value(Some(l))
  {
    var fs := LocationFields(l);
    SplitJoin(fs, ':');
    IntRoundTrip(l.x);
    IntRoundTrip(l.y);
    IntRoundTrip(l.z);
    IntRoundTrip(l.yawBits);
    IntRoundTrip(l.pitchBits);
  }
}
