/**
 * The outward search of GridManager.bigScan: boxes around a block grow one
 * block per pass in each of six directions until each direction reaches
 * its bound, and each pass tests the blocks on the surface of its box with
 * a safety predicate. Whether a block is safe depends on the world's
 * blocks, so it is a parameter here.
 */
module Scan {
  import opened Base

  /** A block position. */
  datatype Pos = Pos(x: int, y: int, z: int)

  /**
   * How far a box reaches from its centre block in each direction (the
   * six radii of bigScan), or the bounds those radii grow towards.
   */
  datatype Radii = Radii(minX: int, maxX: int, minY: int, maxY: int, minZ: int, maxZ: int)

  predicate NonNegative(r: Radii) {
    r.minX >= 0 && r.maxX >= 0 && r.minY >= 0 && r.maxY >= 0 && r.minZ >= 0 && r.maxZ >= 0
  }

  /** The block lies in the box of radii `r` around `c`, faces included. */
  predicate InBox(p: Pos, c: Pos, r: Radii) {
    c.x - r.minX <= p.x <= c.x + r.maxX &&
    c.y - r.minY <= p.y <= c.y + r.maxY &&
    c.z - r.minZ <= p.z <= c.z + r.maxZ
  }

  /** The block lies strictly inside the box on all three axes. */
  predicate Interior(p: Pos, c: Pos, r: Radii) {
    c.x - r.minX < p.x < c.x + r.maxX &&
    c.y - r.minY < p.y < c.y + r.maxY &&
    c.z - r.minZ < p.z < c.z + r.maxZ
  }

  /** The blocks a pass tests: those of the box that are not interior. */
  predicate OnShell(p: Pos, c: Pos, r: Radii) {
    InBox(p, c, r) && !Interior(p, c, r)
  }

  /** One radius after `k` passes: it grows by one per pass while it is below its bound. */
  function Clamp(bound: int, k: nat): (r: nat)
    ensures r <= k && (bound >= 0 ==> r <= bound)
    ensures r < k ==> r == bound || (bound <= 0 && r == 0)
  {
    if bound <= 0 then 0 else if bound < k then bound else k
  }

  /**
   * The radii of pass `k`: pass 0 is the single centre block, and each
   * later pass grows the radii of the one before by one step.
   */
  function Grown(b: Radii, k: nat): (r: Radii)
    ensures NonNegative(r)
  {
    if k == 0 then Radii(0, 0, 0, 0, 0, 0) else GrowOnce(Grown(b, k - 1), b)
  }

  /** One more pass grows a clamped radius by one exactly while it is below its bound. */
  lemma ClampStep(bound: int, k: nat)
    ensures Clamp(bound, k + 1) == if Clamp(bound, k) < bound then Clamp(bound, k) + 1 else Clamp(bound, k)
  {
  }

  /** After `k` passes each radius is its bound clamped to `k`, and to 0 for a bound below 0. */
  lemma {:induction false} GrownClamped(b: Radii, k: nat)
    ensures Grown(b, k) ==
      Radii(Clamp(b.minX, k), Clamp(b.maxX, k), Clamp(b.minY, k), Clamp(b.maxY, k), Clamp(b.minZ, k), Clamp(b.maxZ, k))
  {
    if k > 0 {
      GrownClamped(b, k - 1);
      ClampStep(b.minX, k - 1); ClampStep(b.maxX, k - 1);
      ClampStep(b.minY, k - 1); ClampStep(b.maxY, k - 1);
      ClampStep(b.minZ, k - 1); ClampStep(b.maxZ, k - 1);
    }
  }

  /** The largest bound, or 0 when no bound is positive. */
  function Reach(b: Radii): (m: nat)
    ensures m >= b.minX && m >= b.maxX && m >= b.minY && m >= b.maxY && m >= b.minZ && m >= b.maxZ
    ensures m == 0 || m == b.minX || m == b.maxX || m == b.minY || m == b.maxY || m == b.minZ || m == b.maxZ
  {
    var m1 := if b.minX > 0 then b.minX else 0;
    var m2 := if b.maxX > m1 then b.maxX else m1;
    var m3 := if b.minY > m2 then b.minY else m2;
    var m4 := if b.maxY > m3 then b.maxY else m3;
    var m5 := if b.minZ > m4 then b.minZ else m4;
    if b.maxZ > m5 then b.maxZ else m5
  }

  /**
   * The last pass of bigScan as written: its loop test runs after the radii
   * have grown, so the pass whose radii reach the bounds never runs.
   */
  function LastPass(b: Radii): nat {
    if Reach(b) == 0 then 0 else Reach(b) - 1
  }

  /** After Reach(b) passes every radius equals its bound, or 0 for a bound below 0. */
  lemma ReachGrowsToBounds(b: Radii)
    ensures var r := Grown(b, Reach(b));
      r.minX == (if b.minX > 0 then b.minX else 0) && r.maxX == (if b.maxX > 0 then b.maxX else 0) &&
      r.minY == (if b.minY > 0 then b.minY else 0) && r.maxY == (if b.maxY > 0 then b.maxY else 0) &&
      r.minZ == (if b.minZ > 0 then b.minZ else 0) && r.maxZ == (if b.maxZ > 0 then b.maxZ else 0)
  {
    GrownClamped(b, Reach(b));
  }

  /**
   * Passes only add blocks: the box of pass `k` contains the box of every
   * earlier pass.
   */
  lemma BoxesNest(b: Radii, j: nat, k: nat, c: Pos, p: Pos)
    requires j <= k && InBox(p, c, Grown(b, j))
    ensures InBox(p, c, Grown(b, k))
  {
    GrownClamped(b, j);
    GrownClamped(b, k);
  }

  /**
   * The blocks a pass skips as interior were all in the previous pass's box,
   * so testing only the surface of each box tests every block of the last box.
   */
  lemma InteriorWasScanned(b: Radii, k: nat, c: Pos, p: Pos)
    requires Interior(p, c, Grown(b, k + 1))
    ensures InBox(p, c, Grown(b, k))
  {
    GrownClamped(b, k);
    GrownClamped(b, k + 1);
  }

  /** All safe blocks are outside the box of pass `k`; for k < 0, no claim. */
  ghost predicate NoneSafeUpTo(c: Pos, b: Radii, k: int, safe: Pos -> bool) {
    k >= 0 ==> forall p {:trigger InBox(p, c, Grown(b, k))} :: InBox(p, c, Grown(b, k)) ==> !safe(p)
  }

  /** One growth step of bigScan: every radius below its bound grows by one. */
  function GrowOnce(r: Radii, b: Radii): Radii {
    Radii(
      if r.minX < b.minX then r.minX + 1 else r.minX, if r.maxX < b.maxX then r.maxX + 1 else r.maxX,
      if r.minY < b.minY then r.minY + 1 else r.minY, if r.maxY < b.maxY then r.maxY + 1 else r.maxY,
      if r.minZ < b.minZ then r.minZ + 1 else r.minZ, if r.maxZ < b.maxZ then r.maxZ + 1 else r.maxZ)
  }

  /** The loop test of bigScan: some radius is still below its bound. */
  predicate Growing(r: Radii, b: Radii) {
    r.minX < b.minX || r.maxX < b.maxX || r.minY < b.minY || r.maxY < b.maxY || r.minZ < b.minZ || r.maxZ < b.maxZ
  }

  /** Some radius of pass `k` is still below its bound exactly when k < Reach(b). */
  lemma BelowBound(b: Radii, k: nat)
    ensures Growing(Grown(b, k), b) <==> k < Reach(b)
  {
    GrownClamped(b, k);
  }

  /** As written, the loop goes on after pass `k` exactly when a pass after `k` is still due. */
  lemma NextPass(b: Radii, k: nat)
    requires k <= LastPass(b)
    ensures Growing(Grown(b, k + 1), b) ==> k + 1 <= LastPass(b)
    ensures !Growing(Grown(b, k + 1), b) ==> k == LastPass(b)
  {
    BelowBound(b, k + 1);
  }

  /**
   * A pass that finds no safe block on its surface, after passes that found
   * none in their boxes, leaves no safe block in its whole box.
   */
  lemma ShellCompletesBox(c: Pos, b: Radii, k: nat, safe: Pos -> bool)
    requires NoneSafeUpTo(c, b, k - 1, safe)
    requires forall p {:trigger OnShell(p, c, Grown(b, k))} :: OnShell(p, c, Grown(b, k)) ==> !safe(p)
    ensures NoneSafeUpTo(c, b, k, safe)
  {
    forall p | InBox(p, c, Grown(b, k))
      ensures !safe(p)
    {
      if Interior(p, c, Grown(b, k)) {
        InteriorWasScanned(b, k - 1, c, p);
      } else {
        assert OnShell(p, c, Grown(b, k));
      }
    }
  }

  /**
   * One column of a pass (the innermost loop of bigScan): the blocks at
   * (x, z) from the bottom of the box to its top, lowest first.
   */
  method ScanColumn(c: Pos, r: Radii, x: int, z: int, safe: Pos -> bool) returns (found: Option<Pos>)
    requires NonNegative(r)
    requires c.x - r.minX <= x <= c.x + r.maxX && c.z - r.minZ <= z <= c.z + r.maxZ
    ensures found.Some? ==> safe(found.value) && OnShell(found.value, c, r) && found.value.x == x && found.value.z == z
    ensures found.None? ==> forall p {:trigger OnShell(p, c, r)} :: OnShell(p, c, r) && p.x == x && p.z == z ==> !safe(p)
  {
    var y := c.y - r.minY;
    while y <= c.y + r.maxY
      invariant c.y - r.minY <= y <= c.y + r.maxY + 1
      invariant forall p {:trigger OnShell(p, c, r)} :: OnShell(p, c, r) && p.x == x && p.z == z && p.y < y ==> !safe(p)
    {
      var p := Pos(x, y, z);
      if !Interior(p, c, r) {
        if safe(p) {
          return Some(p);
        }
      }
      y := y + 1;
    }
    return None;
  }

  /** One x-slice of a pass: its columns from the smallest z to the largest. */
  method ScanSlice(c: Pos, r: Radii, x: int, safe: Pos -> bool) returns (found: Option<Pos>)
    requires NonNegative(r)
    requires c.x - r.minX <= x <= c.x + r.maxX
    ensures found.Some? ==> safe(found.value) && OnShell(found.value, c, r) && found.value.x == x
    ensures found.None? ==> forall p {:trigger OnShell(p, c, r)} :: OnShell(p, c, r) && p.x == x ==> !safe(p)
  {
    var z := c.z - r.minZ;
    while z <= c.z + r.maxZ
      invariant c.z - r.minZ <= z <= c.z + r.maxZ + 1
      invariant forall p {:trigger OnShell(p, c, r)} :: OnShell(p, c, r) && p.x == x && p.z < z ==> !safe(p)
    {
      found := ScanColumn(c, r, x, z, safe);
      if found.Some? {
        return;
      }
      z := z + 1;
    }
    return None;
  }

  /**
   * One pass of bigScan: the surface blocks of the box of radii `r`
   * around `c`, by increasing x, then z, then y; the first safe one wins.
   */
  method ScanShell(c: Pos, r: Radii, safe: Pos -> bool) returns (found: Option<Pos>)
    requires NonNegative(r)
    ensures found.Some? ==> safe(found.value) && OnShell(found.value, c, r)
    ensures found.None? ==> forall p {:trigger OnShell(p, c, r)} :: OnShell(p, c, r) ==> !safe(p)
  {
    var x := c.x - r.minX;
    while x <= c.x + r.maxX
      invariant c.x - r.minX <= x <= c.x + r.maxX + 1
      invariant forall p {:trigger OnShell(p, c, r)} :: OnShell(p, c, r) && p.x < x ==> !safe(p)
    {
      found := ScanSlice(c, r, x, safe);
      if found.Some? {
        return;
      }
      x := x + 1;
    }
    return None;
  }

  /**
   * The do-while loop of bigScan as written: a pass, then every radius
   * below its bound grows by one, and the loop goes on while some radius is
   * still below its bound. The result is a safe block of the box of pass
   * `pass`, every block of the box of the pass before being unsafe; `None`
   * means no block of the box of LastPass(b) is safe.
   */
  method SearchAsWritten(c: Pos, b: Radii, safe: Pos -> bool) returns (found: Option<Pos>, ghost pass: nat)
    ensures found.Some? ==>
      safe(found.value) && pass <= LastPass(b) && InBox(found.value, c, Grown(b, pass)) &&
      NoneSafeUpTo(c, b, pass - 1, safe)
    ensures found.None? ==> NoneSafeUpTo(c, b, LastPass(b), safe)
  {
    ghost var last := LastPass(b);
    var minXradius, maxXradius, minYradius, maxYradius, minZradius, maxZradius := 0, 0, 0, 0, 0, 0;
    pass := 0;
    while true
      invariant pass <= last
      invariant Radii(minXradius, maxXradius, minYradius, maxYradius, minZradius, maxZradius) == Grown(b, pass)
      invariant NoneSafeUpTo(c, b, pass - 1, safe)
      decreases last - pass
    {
      var r := Radii(minXradius, maxXradius, minYradius, maxYradius, minZradius, maxZradius);
      found := ScanShell(c, r, safe);
      if found.Some? {
        return;
      }
      assert NoneSafeUpTo(c, b, pass, safe) by {
        ShellCompletesBox(c, b, pass, safe);
      }
      ghost var next := GrowOnce(r, b);
      assert next == Grown(b, pass + 1);
      assert (Growing(next, b) ==> pass + 1 <= last) && (!Growing(next, b) ==> pass == last) by {
        NextPass(b, pass);
      }
      minXradius := if minXradius < b.minX then minXradius + 1 else minXradius;
      maxXradius := if maxXradius < b.maxX then maxXradius + 1 else maxXradius;
      minZradius := if minZradius < b.minZ then minZradius + 1 else minZradius;
      maxZradius := if maxZradius < b.maxZ then maxZradius + 1 else maxZradius;
      minYradius := if minYradius < b.minY then minYradius + 1 else minYradius;
      maxYradius := if maxYradius < b.maxY then maxYradius + 1 else maxYradius;
      assert Radii(minXradius, maxXradius, minYradius, maxYradius, minZradius, maxZradius) == next;
      if !(minXradius < b.minX || maxXradius < b.maxX || minZradius < b.minZ || maxZradius < b.maxZ ||
           minYradius < b.minY || maxYradius < b.maxY) {
        assert !Growing(next, b);
        return None, pass;
      }
      pass := pass + 1;
    }
  }

  /**
   * The search as intended: the loop stops once the pass whose radii equal
   * the bounds has run, so the box of Reach(b) is searched in full.
   */
  method SearchFull(c: Pos, b: Radii, safe: Pos -> bool) returns (found: Option<Pos>, ghost pass: nat)
    ensures found.Some? ==>
      safe(found.value) && pass <= Reach(b) && InBox(found.value, c, Grown(b, pass)) &&
      NoneSafeUpTo(c, b, pass - 1, safe)
    ensures found.None? ==> NoneSafeUpTo(c, b, Reach(b), safe)
  {
    ghost var reach := Reach(b);
    var minXradius, maxXradius, minYradius, maxYradius, minZradius, maxZradius := 0, 0, 0, 0, 0, 0;
    pass := 0;
    while true
      invariant pass <= reach
      invariant Radii(minXradius, maxXradius, minYradius, maxYradius, minZradius, maxZradius) == Grown(b, pass)
      invariant NoneSafeUpTo(c, b, pass - 1, safe)
      decreases reach - pass
    {
      var r := Radii(minXradius, maxXradius, minYradius, maxYradius, minZradius, maxZradius);
      found := ScanShell(c, r, safe);
      if found.Some? {
        return;
      }
      assert NoneSafeUpTo(c, b, pass, safe) by {
        ShellCompletesBox(c, b, pass, safe);
      }
      assert Growing(r, b) <==> pass < reach by {
        BelowBound(b, pass);
      }
      if !(minXradius < b.minX || maxXradius < b.maxX || minZradius < b.minZ || maxZradius < b.maxZ ||
           minYradius < b.minY || maxYradius < b.maxY) {
        assert !Growing(r, b);
        return None, pass;
      }
      ghost var next := GrowOnce(r, b);
      assert next == Grown(b, pass + 1);
      minXradius := if minXradius < b.minX then minXradius + 1 else minXradius;
      maxXradius := if maxXradius < b.maxX then maxXradius + 1 else maxXradius;
      minZradius := if minZradius < b.minZ then minZradius + 1 else minZradius;
      maxZradius := if maxZradius < b.maxZ then maxZradius + 1 else maxZradius;
      minYradius := if minYradius < b.minY then minYradius + 1 else minYradius;
      maxYradius := if maxYradius < b.maxY then maxYradius + 1 else maxYradius;
      assert Radii(minXradius, maxXradius, minYradius, maxYradius, minZradius, maxZradius) == next;
      pass := pass + 1;
    }
  }

  /**
   * As written, a search with some positive bound never tests the outermost
   * layer: a block at the full reach is in the box of Reach(b) but not in
   * the box of the last pass.
   */
  lemma OuterLayerSkipped(c: Pos, b: Radii) returns (p: Pos)
    requires Reach(b) > 0
    ensures InBox(p, c, Grown(b, Reach(b))) && !InBox(p, c, Grown(b, LastPass(b)))
  {
    GrownClamped(b, Reach(b));
    GrownClamped(b, LastPass(b));
    var m := Reach(b);
    if m == b.minX { p := Pos(c.x - m, c.y, c.z); }
    else if m == b.maxX { p := Pos(c.x + m, c.y, c.z); }
    else if m == b.minY { p := Pos(c.x, c.y - m, c.z); }
    else if m == b.maxY { p := Pos(c.x, c.y + m, c.z); }
    else if m == b.minZ { p := Pos(c.x, c.y, c.z - m); }
    else { p := Pos(c.x, c.y, c.z + m); }
  }

  /**
   * bigScan(l, 1) tests the centre block only: with every bound 1 the
   * neighbour one block east is never tested.
   */
  lemma RangeOneTestsCentreOnly(c: Pos)
    ensures var b := Radii(1, 1, 1, 1, 1, 1);
      LastPass(b) == 0 &&
      (forall p :: InBox(p, c, Grown(b, LastPass(b))) <==> p == c) &&
      InBox(Pos(c.x + 1, c.y, c.z), c, Grown(b, Reach(b)))
  {
    GrownClamped(Radii(1, 1, 1, 1, 1, 1), 0);
    GrownClamped(Radii(1, 1, 1, 1, 1, 1), 1);
  }
}
