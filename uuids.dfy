/** Player identifiers (java.util.UUID) in their canonical text form. */
module Uuids {
  import opened Base

  predicate IsLowerHex(c: char) {
    '0' <= c <= '9' || 'a' <= c <= 'f'
  }

  predicate IsHex(c: char) {
    IsLowerHex(c) || 'A' <= c <= 'F'
  }

  /** Positions of the dashes in the 8-4-4-4-12 layout. */
  predicate IsDashAt(i: int) {
    i == 8 || i == 13 || i == 18 || i == 23
  }

  /** The 8-4-4-4-12 layout, hex digits of either case. */
  predicate UuidShaped(s: string) {
    |s| == 36 && forall i :: 0 <= i < 36 ==> if IsDashAt(i) then s[i] == '-' else IsHex(s[i])
  }

  /** What `UUID.toString` prints: the layout with lower-case hex digits. */
  predicate Canonical(s: string) {
    |s| == 36 && forall i :: 0 <= i < 36 ==> if IsDashAt(i) then s[i] == '-' else IsLowerHex(s[i])
  }

  /** A UUID, represented by its canonical text. */
  type Uuid = s: string | Canonical(s) witness "00000000-0000-0000-0000-000000000000"

  function UuidToString(u: Uuid): string {
    u
  }

  /**
   * `UUID.fromString` on well-formed input; `None` stands for the
   * IllegalArgumentException it throws otherwise.
   */
  function ParseUuid(s: string): (r: Option<Uuid>)
    ensures r.Some? <==> UuidShaped(s)
    ensures r.Some? ==> Lower(s) == r.value
  {
    if UuidShaped(s) then
      var l := Lower(s);
      assert Canonical(l) by {
        forall i | 0 <= i < 36 ensures if IsDashAt(i) then l[i] == '-' else IsLowerHex(l[i]) {
          assert l[i] == LowerChar(s[i]);
        }
      }
      var u: Uuid := l;
      Some(u)
    else
      None
  }

  /** Printing a UUID and parsing the text gives the same UUID back. */
  lemma UuidRoundTrip(u: Uuid)
    ensures ParseUuid(UuidToString(u)) == Some(u)
  {
    assert UuidShaped(u);
    assert Lower(u) == u by {
      forall i | 0 <= i < |u| ensures Lower(u)[i] == u[i] {
        assert IsDashAt(i) || IsLowerHex(u[i]);
      }
    }
  }

  /** The printed form holds none of the separators used in saved data. */
  lemma UuidHasNoSeparator(u: Uuid, c: char)
    requires c == ':' || c == '|'
    ensures c !in UuidToString(u)
  {
  }

  /** The owner markers written for unowned islands and the spawn are not UUIDs. */
  lemma MarkersAreNotUuids()
    ensures ParseUuid("null").None? && ParseUuid("spawn").None?
  {
  }
}
