/** Value types and Java library behaviour that the plugin relies on. */
module Base {

  datatype Option<T> = None | Some(value: T)

  /** The outcome of a Java computation that may end in an unchecked exception. */
  datatype Outcome<T> = Value(value: T) | Thrown

  /** Java's 32-bit `int` range. */
  predicate IsInt32(n: int) {
    -0x8000_0000 <= n < 0x8000_0000
  }

  function Abs(n: int): nat {
    if n < 0 then -n else n
  }

  /** Java's `/` on integers: the quotient truncated toward zero. */
  function JavaDiv(a: int, b: int): (q: int)
    requires b != 0
    ensures Abs(a - q * b) < Abs(b)
    ensures a >= 0 ==> a - q * b >= 0
    ensures a <= 0 ==> a - q * b <= 0
  {
    var m := Abs(a) / Abs(b);
    var q := if (a >= 0) == (b > 0) then m else -m;
    TruncatedQuotient(a, b, m, q);
    q
  }

  lemma TruncatedQuotient(a: int, b: int, m: int, q: int)
    requires b != 0 && m == Abs(a) / Abs(b)
    requires q == if (a >= 0) == (b > 0) then m else -m
    ensures Abs(a - q * b) < Abs(b)
    ensures a >= 0 ==> a - q * b >= 0
    ensures a <= 0 ==> a - q * b <= 0
  {
    var x, y := Abs(a), Abs(b);
    EuclidNat(x, y);
    var r := x % y;
    var p := m * y;
    assert x == p + r && 0 <= r < y;
    if b > 0 {
      if a >= 0 { assert q * b == p; } else { NegMul(m, b); assert q * b == -p; }
    } else {
      NegMul(m, -b);
      if a >= 0 { NegMul(-m, -b); assert q * b == p; } else { assert q * b == -p; }
    }
  }

  lemma EuclidNat(x: nat, y: nat)
    requires y > 0
    ensures x == (x / y) * y + x % y && 0 <= x % y < y
  {
  }

  lemma NegMul(x: int, y: int)
    ensures (-x) * y == -(x * y) && x * (-y) == -(x * y)
  {
  }

  /** On non-negative operands Java's quotient is the Euclidean one. */
  lemma JavaDivNonNeg(a: int, b: int)
    requires a >= 0 && b > 0
    ensures JavaDiv(a, b) == a / b
  {
    var q := JavaDiv(a, b);
    EuclidNat(a, b);
    var d := q - a / b;
    assert d * b == a % b - (a - q * b);
    SmallMultiple(d, b);
  }

  lemma SmallMultiple(d: int, b: int)
    requires b > 0 && -b < d * b < b
    ensures d == 0
  {
  }

  /** A positive multiple of a positive number is at least that number. */
  lemma {:induction false} MulAtLeast(k: int, d: int)
    requires k >= 1 && d > 0
    ensures k * d >= d
    decreases k
  {
    if k > 1 {
      MulAtLeast(k - 1, d);
      assert k * d == (k - 1) * d + d;
    }
  }

  /** A non-zero multiple of `d` is at least `d` in size. */
  lemma AbsMulAtLeast(e: int, d: int)
    requires e != 0 && d != 0
    ensures Abs(e * d) >= Abs(d)
  {
    MulAtLeast(Abs(e), Abs(d));
    if e > 0 && d < 0 {
      NegMul(e, -d);
    } else if e < 0 && d > 0 {
      NegMul(-e, d);
    } else if e < 0 && d < 0 {
      NegMul(-e, -d);
      NegMul(e, -d);
    }
  }

  /** A multiple of `d` smaller than `d` in size is zero. */
  lemma SmallMultipleAbs(e: int, d: int)
    requires d != 0 && Abs(e * d) < Abs(d)
    ensures e == 0
  {
    if e != 0 {
      AbsMulAtLeast(e, d);
    }
  }

  /** The Euclidean quotient and remainder of a multiple. */
  lemma MultipleMod(k: int, d: int)
    requires d != 0
    ensures (k * d) % d == 0 && (k * d) / d == k
  {
    var m, r := (k * d) / d, (k * d) % d;
    assert k * d == m * d + r && 0 <= r < Abs(d);
    assert (k - m) * d == r;
    SmallMultipleAbs(k - m, d);
  }

  /** Java's `%` on integers: the remainder takes the sign of the dividend. */
  function JavaRem(a: int, b: int): (r: int)
    requires b != 0
    ensures Abs(r) < Abs(b)
    ensures a == JavaDiv(a, b) * b + r
  {
    a - JavaDiv(a, b) * b
  }

  lemma EmptyWithoutElements<T>(s: set<T>)
    ensures (forall y :: y !in s) ==> s == {}
  {
    if forall y :: y !in s {
      assert s == {};
    }
  }

  /** Some element of a non-empty set. */
  lemma Element<T>(s: set<T>) returns (x: T)
    requires s != {}
    ensures x in s
  {
    EmptyWithoutElements(s);
    x :| x in s;
  }

  /** The greatest element of `keys` that is at most `x` (a TreeMap floor lookup). */
  function FloorKey(keys: set<int>, x: int): (r: Option<int>)
    ensures r.Some? ==> r.value in keys && r.value <= x
    ensures r.Some? ==> forall k :: k in keys && k <= x ==> k <= r.value
    ensures r.None? ==> forall k :: k in keys ==> x < k
  {
    if exists k :: k in keys && k <= x then
      assert FloorWitness(keys, x).Some?;
      var m :| m in keys && m <= x && forall k :: k in keys && k <= x ==> k <= m;
      Some(m)
    else
      None
  }

  ghost function FloorWitness(keys: set<int>, x: int): (r: Option<int>)
    ensures r.Some? ==> r.value in keys && r.value <= x
    ensures r.Some? ==> forall k :: k in keys && k <= x ==> k <= r.value
    ensures r.None? ==> forall k :: k in keys ==> x < k
    decreases keys
  {
    if exists k :: k in keys && k <= x then
      var k :| k in keys && k <= x;
      var rest := FloorWitness(keys - {k}, x);
      assert keys == (keys - {k}) + {k};
      if rest.Some? && rest.value > k then rest else Some(k)
    else
      None
  }

  // ---------------------------------------------------------------- strings

  /** Index of the first occurrence of `c` in `s`. */
  function IndexOf(s: string, c: char): (i: nat)
    requires c in s
    ensures i < |s| && s[i] == c && c !in s[..i]
  {
    if s[0] == c then 0 else 1 + IndexOf(s[1..], c)
  }

  lemma {:induction false} IndexOfJoined(f: string, c: char, t: string)
    requires c !in f
    ensures c in f + [c] + t && IndexOf(f + [c] + t, c) == |f|
  {
    var s := f + [c] + t;
    assert s[|f|] == c;
  }

  /** The pieces of `s` between the occurrences of `sep`, empty pieces included. */
  function Fields(s: string, sep: char): (r: seq<string>)
    ensures |r| >= 1
    ensures forall i :: 0 <= i < |r| ==> sep !in r[i]
    decreases |s|
  {
    if sep !in s then [s]
    else
      var i := IndexOf(s, sep);
      [s[..i]] + Fields(s[i + 1..], sep)
  }

  /** `fs` glued together with `sep` in between (Java's `String.join`). */
  function Join(fs: seq<string>, sep: char): string
    requires |fs| >= 1
  {
    if |fs| == 1 then fs[0] else fs[0] + [sep] + Join(fs[1..], sep)
  }

  lemma {:induction false} FieldsJoin(fs: seq<string>, sep: char)
    requires |fs| >= 1
    requires forall i :: 0 <= i < |fs| ==> sep !in fs[i]
    ensures Fields(Join(fs, sep), sep) == fs
  {
    if |fs| > 1 {
      var t := Join(fs[1..], sep);
      var s := fs[0] + [sep] + t;
      assert Join(fs, sep) == s;
      IndexOfJoined(fs[0], sep, t);
      assert s[..|fs[0]|] == fs[0];
      assert s[|fs[0]| + 1..] == t;
      assert Fields(s, sep) == [fs[0]] + Fields(t, sep);
      FieldsJoin(fs[1..], sep);
      assert fs == [fs[0]] + fs[1..];
    }
  }

  lemma {:induction false} NoCharInJoin(ws: seq<string>, sep: char, c: char)
    requires |ws| >= 1 && c != sep
    requires forall k :: 0 <= k < |ws| ==> c !in ws[k]
    ensures c !in Join(ws, sep)
  {
    if |ws| > 1 {
      NoCharInJoin(ws[1..], sep, c);
    }
  }

  /** A split never has more pieces than the text has characters, plus one. */
  lemma {:induction false} FieldsLength(s: string, sep: char)
    ensures |Fields(s, sep)| <= |s| + 1
    decreases |s|
  {
    if sep in s {
      FieldsLength(s[IndexOf(s, sep) + 1..], sep);
    }
  }

  /** A split has at most one piece more than the text has characters. */
  lemma SplitShortensText(s: string, sep: char)
    ensures |Split(s, sep)| <= |s| + 1
  {
    FieldsLength(s, sep);
  }

  /** Joining two lists is joining each and putting one separator between them. */
  lemma {:induction false} JoinAppend(a: seq<string>, b: seq<string>, sep: char)
    requires |a| >= 1 && |b| >= 1
    ensures Join(a + b, sep) == Join(a, sep) + [sep] + Join(b, sep)
  {
    if |a| == 1 {
      assert (a + b)[1..] == b;
    } else {
      assert (a + b)[1..] == a[1..] + b;
      JoinAppend(a[1..], b, sep);
    }
  }

  function DropTrailingEmpty(fs: seq<string>): (r: seq<string>)
    ensures |r| <= |fs| && r == fs[..|r|]
    ensures |r| > 0 ==> r[|r| - 1] != ""
    ensures forall i :: |r| <= i < |fs| ==> fs[i] == ""
  {
    if |fs| > 0 && fs[|fs| - 1] == "" then DropTrailingEmpty(fs[..|fs| - 1]) else fs
  }

  /**
   * Java's `s.split(sep)` for a separator that is one literal character:
   * `[s]` when `sep` does not occur, otherwise the fields with every
   * trailing empty field removed (leading empty fields stay).
   */
  function Split(s: string, sep: char): (r: seq<string>)
    ensures sep !in s ==> r == [s]
    ensures forall i :: 0 <= i < |r| ==> sep !in r[i]
  {
    if sep !in s then [s] else DropTrailingEmpty(Fields(s, sep))
  }

  /**
   * Splitting a joined list gives the list back when no field holds the
   * separator and the last field is not empty (Java drops trailing empty fields).
   */
  lemma SplitJoin(fs: seq<string>, sep: char)
    requires |fs| >= 1
    requires forall i :: 0 <= i < |fs| ==> sep !in fs[i]
    requires |fs| == 1 || fs[|fs| - 1] != ""
    ensures Split(Join(fs, sep), sep) == fs
  {
    FieldsJoin(fs, sep);
    if |fs| > 1 {
      assert Join(fs, sep)[|fs[0]|] == sep;
    }
  }

  /** Whether `p` occurs in `s` starting at position `k`. */
  predicate OccursAt(s: string, p: string, k: int) {
    0 <= k <= |s| - |p| && s[k..k + |p|] == p
  }

  /** An occurrence after the first character is an occurrence in the rest of the text. */
  lemma OccursShift(s: string, p: string, k: int)
    requires 1 <= k && |s| >= 1
    ensures OccursAt(s, p, k) <==> OccursAt(s[1..], p, k - 1)
  {
    if k <= |s| - |p| {
      assert s[k..k + |p|] == s[1..][k - 1..k - 1 + |p|];
    }
  }

  /**
   * Java's `s.indexOf(p)`: the first position at which `p` occurs in `s`,
   * or -1 when it does not occur.
   */
  function IndexOfSub(s: string, p: string): (i: int)
    ensures i == -1 || 0 <= i <= |s| - |p|
    ensures i >= 0 ==> OccursAt(s, p, i)
    ensures forall k :: (i < 0 || k < i) ==> !OccursAt(s, p, k)
    decreases |s|
  {
    if |s| < |p| then -1
    else if s[..|p|] == p then 0
    else
      var j := IndexOfSub(s[1..], p);
      assert forall k :: 1 <= k ==> (OccursAt(s, p, k) <==> OccursAt(s[1..], p, k - 1)) by {
        forall k | 1 <= k ensures OccursAt(s, p, k) <==> OccursAt(s[1..], p, k - 1) {
          OccursShift(s, p, k);
        }
      }
      if j < 0 then -1 else j + 1
  }

  /**
   * A pattern whose second character is not its first, and not anywhere in
   * `a`, is first found right after `a`.
   */
  lemma {:induction false} IndexOfSubAfter(a: string, p: string, t: string)
    requires |p| >= 2 && p[1] != p[0] && p[1] !in a
    ensures IndexOfSub(a + p + t, p) == |a|
  {
    var s := a + p + t;
    assert s[|a|..|a| + |p|] == p;
    assert OccursAt(s, p, |a|);
    forall k | 0 <= k < |a|
      ensures !OccursAt(s, p, k)
    {
      if k + 1 < |a| {
        assert s[k + 1] == a[k + 1];
      } else {
        assert s[k + 1] == p[0];
      }
      assert s[k..k + |p|][1] == s[k + 1];
    }
  }

  // ------------------------------------------------------- decimal numbers

  predicate IsDigit(c: char) {
    '0' <= c <= '9'
  }

  predicate AllDigits(s: string) {
    forall i :: 0 <= i < |s| ==> IsDigit(s[i])
  }

  function DigitChar(d: nat): char
    requires d < 10
  {
    ['0', '1', '2', '3', '4', '5', '6', '7', '8', '9'][d]
  }

  function DigitValue(c: char): nat
    requires IsDigit(c)
  {
    (c as int - '0' as int) as nat
  }

  /** The value of a string of decimal digits. */
  function DigitsValue(s: string): nat
    requires AllDigits(s)
  {
    if s == [] then 0 else DigitsValue(s[..|s| - 1]) * 10 + DigitValue(s[|s| - 1])
  }

  function NatToString(n: nat): (r: string)
    ensures |r| >= 1 && AllDigits(r)
  {
    if n < 10 then [DigitChar(n)] else NatToString(n / 10) + [DigitChar(n % 10)]
  }

  /** Java's `String.valueOf(int)` / string concatenation of an integer. */
  function IntToString(n: int): string {
    if n < 0 then "-" + NatToString(-n) else NatToString(n)
  }

  /**
   * Java's `Integer.parseInt` (and `Integer.valueOf`): an optional sign, at
   * least one digit, and a value in the `int` range; anything else is a
   * NumberFormatException, here `None`.
   */
  function ParseInt(s: string): (r: Option<int>)
    ensures r.Some? ==> IsInt32(r.value)
    ensures s == [] ==> r.None?
  {
    if |s| == 0 then None
    else
      var neg := s[0] == '-';
      var digits := if s[0] == '-' || s[0] == '+' then s[1..] else s;
      if |digits| == 0 || !AllDigits(digits) then None
      else
        var d: int := DigitsValue(digits);
        var v := if neg then -d else d;
        if IsInt32(v) then Some(v) else None
  }

  lemma {:induction false} DigitsOfNat(n: nat)
    ensures DigitsValue(NatToString(n)) == n
  {
    var s := NatToString(n);
    if n < 10 {
      assert s[..0] == [];
    } else {
      DigitsOfNat(n / 10);
      assert s[..|s| - 1] == NatToString(n / 10);
    }
  }

  /** Printing an `int` and parsing it back gives the same `int`. */
  lemma IntRoundTrip(n: int)
    requires IsInt32(n)
    ensures ParseInt(IntToString(n)) == Some(n)
  {
    var s := IntToString(n);
    if n < 0 {
      DigitsOfNat(-n);
      assert s[0] == '-' && s[1..] == NatToString(-n);
    } else {
      DigitsOfNat(n);
      assert s == NatToString(n) && IsDigit(s[0]);
    }
  }

  /** A printed integer never contains the separators used in saved data. */
  lemma IntStringHasNo(n: int, c: char)
    requires !IsDigit(c) && c != '-'
    ensures c !in IntToString(n)
  {
  }

  // ------------------------------------------------------------ ASCII case

  function LowerChar(c: char): char {
    if 'A' <= c <= 'Z' then (c as int + 32) as char else c
  }

  function UpperChar(c: char): char {
    if 'a' <= c <= 'z' then (c as int - 32) as char else c
  }

  function Lower(s: string): (r: string)
    ensures |r| == |s| && forall i :: 0 <= i < |s| ==> r[i] == LowerChar(s[i])
  {
    seq(|s|, i requires 0 <= i < |s| => LowerChar(s[i]))
  }

  function Upper(s: string): (r: string)
    ensures |r| == |s| && forall i :: 0 <= i < |s| ==> r[i] == UpperChar(s[i])
  {
    seq(|s|, i requires 0 <= i < |s| => UpperChar(s[i]))
  }

  /** Java's `equalsIgnoreCase`, restricted to ASCII letters. */
  predicate EqualsIgnoreCase(a: string, b: string) {
    Lower(a) == Lower(b)
  }

  predicate StartsWith(s: string, prefix: string) {
    |prefix| <= |s| && s[..|prefix|] == prefix
  }

  /** Java's string form of a boolean. */
  function BoolToString(b: bool): string {
    if b then "true" else "false"
  }

  lemma BoolStringTrue(b: bool)
    ensures EqualsIgnoreCase(BoolToString(b), "true") == b
  {
    if !b {
      assert Lower(BoolToString(b))[0] != Lower("true")[0];
    }
  }
}
