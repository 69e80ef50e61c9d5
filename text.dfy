/** Text helpers of Util: line chopping, name prettifying, tab completion, random numbers. */
module TextUtil {
  import opened Base

  // ------------------------------------------------------------------ chop

  function Min(a: int, b: int): int {
    if a < b then a else b
  }

  function LastIndexOf(s: string, c: char): (i: nat)
    requires c in s
    ensures i < |s| && s[i] == c && c !in s[i + 1..]
  {
    if s[|s| - 1] == c then |s| - 1
    else
      var i := LastIndexOf(s[..|s| - 1], c);
      assert s[i + 1..] == s[..|s| - 1][i + 1..] + [s[|s| - 1]];
      i
  }

  /**
   * One round of the chopping loop starting at `i`: the line it cuts and
   * where the next round starts. A line that would split a word is cut back
   * to the last space inside it, and that space is skipped.
   */
  function ChopStep(s: string, length: int, i: int): (r: (string, int))
    requires length > 0 && 0 <= i < |s|
    ensures i < r.1
    ensures |r.0| <= length
  {
    var end := Min(i + length, |s|);
    var line := s[i..end];
    if end < |s| && line[|line| - 1] != ' ' && s[end] != ' ' && ' ' in line then
      var space := LastIndexOf(line, ' ');
      (line[..space], i - (length - space - 1) + length)
    else
      (line, i + length)
  }

  /** The lines (without colour) that the chopping loop emits from position `i` on. */
  function ChopLines(s: string, length: int, i: int): seq<string>
    requires length > 0 && 0 <= i
    decreases if i < |s| then |s| - i else 0
  {
    if i >= |s| then []
    else
      var step := ChopStep(s, length, i);
      [step.0] + ChopLines(s, length, step.1)
  }

  function Colored(color: string, lines: seq<string>): (r: seq<string>)
    ensures |r| == |lines| && forall k :: 0 <= k < |r| ==> r[k] == color + lines[k]
  {
    seq(|lines|, k requires 0 <= k < |lines| => color + lines[k])
  }

  /**
   * What `Util.chop` returns: text holding '|' or '§' is split at '|' and
   * not coloured; otherwise the text is cut into lines of at most `length`
   * characters at word boundaries, each prefixed with `color`. A non-empty
   * text with `length <= 0` ends in StringIndexOutOfBoundsException.
   */
  function ChopResult(color: string, s: string, length: int): Outcome<seq<string>> {
    if '|' in s || '§' in s then Value(Split(s, '|'))
    else if |s| == 0 then Value([])
    else if length <= 0 then Thrown
    else Value(Colored(color, ChopLines(s, length, 0)))
  }

  method Chop(color: string, longLine: string, length: int) returns (r: Outcome<seq<string>>)
    ensures r == ChopResult(color, longLine, length)
  {
    if '|' in longLine || '§' in longLine {
      return Value(Split(longLine, '|'));
    }
    if |longLine| == 0 {
      return Value([]);
    }
    if length <= 0 {
      return Thrown;
    }
    var result: seq<string> := [];
    ghost var lines: seq<string> := [];
    var i := 0;
    while i < |longLine|
      invariant 0 <= i
      invariant lines + ChopLines(longLine, length, i) == ChopLines(longLine, length, 0)
      invariant result == Colored(color, lines)
      decreases |longLine| - i
    {
      ghost var step := ChopStep(longLine, length, i);
      assert ChopLines(longLine, length, i) == [step.0] + ChopLines(longLine, length, step.1);
      var endIndex := Min(i + length, |longLine|);
      var line := longLine[i..endIndex];
      // A cut inside a word goes back to the last space of the line.
      if endIndex < |longLine| && line[|line| - 1] != ' ' && longLine[endIndex] != ' ' && ' ' in line {
        var lastSpace := LastIndexOf(line, ' ');
        line := line[..lastSpace];
        i := i - (length - lastSpace - 1);
      }
      i := i + length;
      assert line == step.0 && i == step.1;
      lines := lines + [line];
      result := result + [color + line];
    }
    assert lines == ChopLines(longLine, length, 0);
    r := Value(result);
  }

  function Concat(lines: seq<string>): string {
    if lines == [] then "" else lines[0] + Concat(lines[1..])
  }

  /** The text with every space taken out. */
  function RemoveSpaces(s: string): (r: string)
    ensures ' ' !in r
  {
    if s == [] then [] else (if s[0] == ' ' then [] else [s[0]]) + RemoveSpaces(s[1..])
  }

  lemma {:induction false} RemoveSpacesAppend(a: string, b: string)
    ensures RemoveSpaces(a + b) == RemoveSpaces(a) + RemoveSpaces(b)
  {
    if a != [] {
      assert (a + b)[1..] == a[1..] + b;
      RemoveSpacesAppend(a[1..], b);
    } else {
      assert a + b == b;
    }
  }

  /** No line is longer than `length`. */
  lemma {:induction false} ChopLinesFit(s: string, length: int, i: int)
    requires length > 0 && 0 <= i
    ensures forall k :: 0 <= k < |ChopLines(s, length, i)| ==> |ChopLines(s, length, i)[k]| <= length
    decreases if i < |s| then |s| - i else 0
  {
    if i < |s| {
      ChopLinesFit(s, length, ChopStep(s, length, i).1);
    }
  }

  /** Removing spaces from a text cut in two is removing them from both parts. */
  lemma RemoveSpacesSplit(s: string, i: int, k: int)
    requires 0 <= i <= k <= |s|
    ensures RemoveSpaces(s[i..]) == RemoveSpaces(s[i..k]) + RemoveSpaces(s[k..])
  {
    assert s[i..] == s[i..k] + s[k..];
    RemoveSpacesAppend(s[i..k], s[k..]);
  }

  /** Removing spaces from a text cut in two around a space drops that space. */
  lemma CutSpaceDropped(s: string, i: int, k: int)
    requires 0 <= i <= k < |s| && s[k] == ' '
    ensures RemoveSpaces(s[i..]) == RemoveSpaces(s[i..k]) + RemoveSpaces(s[k + 1..])
  {
    RemoveSpacesSplit(s, i, k);
    var t := s[k..];
    assert t[0] == ' ' && t[1..] == s[k + 1..];
    assert RemoveSpaces(t) == RemoveSpaces(t[1..]);
  }

  /** The line of one round is a slice of the text, followed by the next round or by a skipped space. */
  lemma ChopStepCut(s: string, length: int, i: int) returns (k: int)
    requires length > 0 && 0 <= i < |s|
    ensures i <= k <= |s| && ChopStep(s, length, i).0 == s[i..k]
    ensures Min(ChopStep(s, length, i).1, |s|) == k
      || (k < |s| && s[k] == ' ' && ChopStep(s, length, i).1 == k + 1)
  {
    var end := Min(i + length, |s|);
    var line := s[i..end];
    if end < |s| && line[|line| - 1] != ' ' && s[end] != ' ' && ' ' in line {
      var space := LastIndexOf(line, ' ');
      k := i + space;
      assert line[..space] == s[i..k];
    } else {
      k := end;
    }
  }

  /** One round keeps every non-space character up to where the next round starts. */
  lemma StepKeepsText(s: string, length: int, i: int)
    requires length > 0 && 0 <= i < |s|
    ensures var step := ChopStep(s, length, i);
      RemoveSpaces(s[i..]) == RemoveSpaces(step.0) + RemoveSpaces(s[Min(step.1, |s|)..])
  {
    var step := ChopStep(s, length, i);
    var k := ChopStepCut(s, length, i);
    var next := Min(step.1, |s|);
    if next == k {
      RemoveSpacesSplit(s, i, k);
    } else {
      assert next == k + 1;
      CutSpaceDropped(s, i, k);
    }
    assert RemoveSpaces(s[i..]) == RemoveSpaces(s[i..k]) + RemoveSpaces(s[next..]);
  }

  /**
   * Chopping only ever drops spaces: the lines put together hold exactly the
   * non-space characters of the text, in order.
   */
  lemma {:induction false} ChopKeepsText(s: string, length: int, i: int)
    requires length > 0 && 0 <= i <= |s|
    ensures RemoveSpaces(Concat(ChopLines(s, length, i))) == RemoveSpaces(s[i..])
    decreases |s| - i
  {
    if i < |s| {
      var step := ChopStep(s, length, i);
      var next := Min(step.1, |s|);
      var rest := ChopLines(s, length, step.1);
      assert rest == ChopLines(s, length, next);
      assert Concat(ChopLines(s, length, i)) == step.0 + Concat(rest);
      RemoveSpacesAppend(step.0, Concat(rest));
      StepKeepsText(s, length, i);
      ChopKeepsText(s, length, next);
    }
  }

  /** Properties of every chopped result of a text without '|' or '§'. */
  lemma ChopProperties(color: string, s: string, length: int)
    requires '|' !in s && '§' !in s && length > 0
    ensures ChopResult(color, s, length).Value?
    ensures var lines := ChopLines(s, length, 0);
      ChopResult(color, s, length).value == Colored(color, lines) &&
      (forall k :: 0 <= k < |lines| ==> |lines[k]| <= length) &&
      RemoveSpaces(Concat(lines)) == RemoveSpaces(s)
  {
    ChopLinesFit(s, length, 0);
    ChopKeepsText(s, length, 0);
    assert s[0..] == s;
  }

  // ------------------------------------------------------------ prettify

  function Capitalize(w: string): string
    requires w != ""
  {
    [UpperChar(w[0])] + w[1..]
  }

  function CapitalizeAll(ws: seq<string>): (r: seq<string>)
    requires forall k :: 0 <= k < |ws| ==> ws[k] != ""
    ensures |r| == |ws| && forall k :: 0 <= k < |ws| ==> r[k] == Capitalize(ws[k])
  {
    seq(|ws|, k requires 0 <= k < |ws| => Capitalize(ws[k]))
  }

  /** Words separated by single spaces. */
  function JoinWords(ws: seq<string>): string {
    if ws == [] then "" else Join(ws, ' ')
  }

  /**
   * What `Util.prettifyText` returns: mixed-case text without '_' comes back
   * unchanged; otherwise the text is lower-cased, and split at '_' into
   * capitalised words joined by spaces (or capitalised as a whole when it
   * has no '_'). An empty word or an empty text ends in
   * StringIndexOutOfBoundsException.
   */
  function PrettifyResult(ugly: string): Outcome<string> {
    if '_' !in ugly && ugly != Upper(ugly) then Value(ugly)
    else
      var l := Lower(ugly);
      if '_' in l then
        var parts := Split(l, '_');
        if exists k :: 0 <= k < |parts| && parts[k] == "" then Thrown
        else Value(JoinWords(CapitalizeAll(parts)))
      else if l == "" then Thrown
      else Value(Capitalize(l))
  }

  lemma {:induction false} JoinSnoc(ws: seq<string>, w: string, sep: char)
    requires |ws| >= 1
    ensures Join(ws + [w], sep) == Join(ws, sep) + [sep] + w
  {
    if |ws| > 1 {
      assert (ws + [w])[1..] == ws[1..] + [w];
      JoinSnoc(ws[1..], w, sep);
    }
  }

  /** What the prettifying loop has built after its first `i` words. */
  ghost function PrettyPrefix(ws: seq<string>, i: int): string
    requires 0 <= i <= |ws| && forall k :: 0 <= k < i ==> ws[k] != ""
  {
    if i == 0 then "" else Join(CapitalizeAll(ws[..i]), ' ') + (if i < |ws| then " " else "")
  }

  lemma PrettyPrefixStep(ws: seq<string>, i: int)
    requires 0 <= i < |ws| && forall k :: 0 <= k <= i ==> ws[k] != ""
    ensures PrettyPrefix(ws, i + 1) == PrettyPrefix(ws, i) + Capitalize(ws[i]) + (if i + 1 < |ws| then " " else "")
  {
    var done := CapitalizeAll(ws[..i]);
    assert ws[..i + 1][..i] == ws[..i];
    assert CapitalizeAll(ws[..i + 1]) == done + [Capitalize(ws[i])];
    if i > 0 {
      JoinSnoc(done, Capitalize(ws[i]), ' ');
    }
  }

  lemma PrettyPrefixAll(ws: seq<string>)
    requires forall k :: 0 <= k < |ws| ==> ws[k] != ""
    ensures PrettyPrefix(ws, |ws|) == JoinWords(CapitalizeAll(ws))
  {
    assert ws[..|ws|] == ws;
  }

  method PrettifyText(ugly: string) returns (r: Outcome<string>)
    ensures r == PrettifyResult(ugly)
  {
    if '_' !in ugly && ugly != Upper(ugly) {
      return Value(ugly);
    }
    var fin := "";
    var lower := Lower(ugly);
    if '_' in lower {
      var splt := Split(lower, '_');
      var i := 0;
      while i < |splt|
        invariant 0 <= i <= |splt|
        invariant forall k :: 0 <= k < i ==> splt[k] != ""
        invariant fin == PrettyPrefix(splt, i)
      {
        if splt[i] == "" {
          return Thrown;
        }
        PrettyPrefixStep(splt, i);
        fin := fin + Capitalize(splt[i]);
        if i + 1 < |splt| {
          fin := fin + " ";
        }
        i := i + 1;
      }
      PrettyPrefixAll(splt);
    } else {
      if lower == "" {
        return Thrown;
      }
      fin := fin + Capitalize(lower);
      assert fin == Capitalize(lower);
    }
    return Value(fin);
  }

  /** `s` with every `a` replaced by `b`. */
  function ReplaceChar(s: string, a: char, b: char): (r: string)
    ensures |r| == |s| && forall i :: 0 <= i < |s| ==> r[i] == if s[i] == a then b else s[i]
  {
    seq(|s|, i requires 0 <= i < |s| => if s[i] == a then b else s[i])
  }

  /** `s` without the run of `c` at its end. */
  function TrimTrailing(s: string, c: char): (r: string)
    ensures |r| <= |s| && r == s[..|r|]
    ensures |r| > 0 ==> r[|r| - 1] != c
  {
    if |s| > 0 && s[|s| - 1] == c then TrimTrailing(s[..|s| - 1], c) else s
  }

  function Repeat(c: char, n: nat): (r: string)
    ensures |r| == n && forall i :: 0 <= i < n ==> r[i] == c
  {
    seq(n, i => c)
  }

  lemma {:induction false} TrimRepeat(s: string, c: char, n: nat)
    requires |s| > 0 ==> s[|s| - 1] != c
    ensures TrimTrailing(s + Repeat(c, n), c) == s
  {
    if n > 0 {
      assert (s + Repeat(c, n))[..|s| + n - 1] == s + Repeat(c, n - 1);
      TrimRepeat(s, c, n - 1);
    } else {
      assert s + Repeat(c, 0) == s;
    }
  }

  lemma {:induction false} JoinFields(s: string, sep: char)
    ensures Join(Fields(s, sep), sep) == s
    decreases |s|
  {
    if sep in s {
      var i := IndexOf(s, sep);
      var rest := Fields(s[i + 1..], sep);
      JoinFields(s[i + 1..], sep);
      var fs := [s[..i]] + rest;
      assert Fields(s, sep) == fs;
      assert fs[1..] == rest;
      assert Join(fs, sep) == s[..i] + [sep] + Join(rest, sep);
      assert s == s[..i] + [sep] + s[i + 1..];
    }
  }

  lemma {:induction false} JoinEmpties(ps: seq<string>, n: nat, sep: char)
    requires |ps| >= 1
    ensures Join(ps + seq(n, i => ""), sep) == Join(ps, sep) + Repeat(sep, n)
  {
    if n > 0 {
      var es := seq(n - 1, i => "");
      assert ps + seq(n, i => "") == (ps + es) + [""];
      JoinSnoc(ps + es, "", sep);
      JoinEmpties(ps, n - 1, sep);
    } else {
      assert ps + seq(0, i => "") == ps;
    }
  }

  lemma {:induction false} JoinOnlyEmpties(n: nat, sep: char)
    requires n >= 1
    ensures Join(seq(n, i => ""), sep) == Repeat(sep, n - 1)
  {
    if n > 1 {
      JoinOnlyEmpties(n - 1, sep);
      assert seq(n, i => "")[1..] == seq(n - 1, i => "");
    }
  }

  /** The fields are what Java's split keeps, padded with the empty fields it drops. */
  lemma DropTrailingPad(fs: seq<string>)
    ensures var r := DropTrailingEmpty(fs);
      fs == r + seq(|fs| - |r|, i => "")
  {
    var r := DropTrailingEmpty(fs);
    var pad := seq(|fs| - |r|, i => "");
    assert forall k :: 0 <= k < |fs| ==> fs[k] == (r + pad)[k];
  }

  /** Splitting at `sep` and joining again gives the text less its trailing separators. */
  lemma SplitJoinTrims(s: string, sep: char)
    requires sep in s
    ensures Split(s, sep) == [] ==> TrimTrailing(s, sep) == ""
    ensures |Split(s, sep)| >= 1 ==> Join(Split(s, sep), sep) == TrimTrailing(s, sep)
  {
    var fs := Fields(s, sep);
    var ps := Split(s, sep);
    assert ps == DropTrailingEmpty(fs);
    JoinFields(s, sep);
    DropTrailingPad(fs);
    var n := |fs| - |ps|;
    if |ps| >= 1 {
      SplitJoinTrimsSome(s, sep, ps, n);
    } else {
      SplitJoinTrimsNone(s, sep, n);
    }
  }

  lemma SplitJoinTrimsNone(s: string, sep: char, n: nat)
    requires n >= 1 && Join(seq(n, i => ""), sep) == s
    ensures TrimTrailing(s, sep) == ""
  {
    JoinOnlyEmpties(n, sep);
    TrimRepeat("", sep, n - 1);
    assert "" + Repeat(sep, n - 1) == s;
  }

  lemma SplitJoinTrimsSome(s: string, sep: char, ps: seq<string>, n: nat)
    requires |ps| >= 1 && ps[|ps| - 1] != "" && sep !in ps[|ps| - 1]
    requires Join(ps + seq(n, i => ""), sep) == s
    ensures Join(ps, sep) == TrimTrailing(s, sep)
  {
    JoinEmpties(ps, n, sep);
    JoinLastChar(ps, sep);
    TrimRepeat(Join(ps, sep), sep, n);
  }

  lemma {:induction false} JoinLastChar(ps: seq<string>, sep: char)
    requires |ps| >= 1 && ps[|ps| - 1] != ""
    ensures |Join(ps, sep)| > 0 && Join(ps, sep)[|Join(ps, sep)| - 1] == ps[|ps| - 1][|ps[|ps| - 1]| - 1]
  {
    if |ps| > 1 {
      JoinLastChar(ps[1..], sep);
    }
  }

  lemma {:induction false} LowerCapitalizedJoin(ps: seq<string>)
    requires |ps| >= 1
    requires forall k :: 0 <= k < |ps| ==> ps[k] != "" && Lower(ps[k]) == ps[k]
    ensures Lower(Join(CapitalizeAll(ps), ' ')) == Join(ps, ' ')
  {
    var p := ps[0];
    var cap := Capitalize(p);
    assert Lower(cap) == p by {
      assert LowerChar(UpperChar(p[0])) == LowerChar(p[0]) == Lower(p)[0] == p[0];
      forall i | 1 <= i < |p| ensures Lower(cap)[i] == p[i] {
        assert Lower(p)[i] == p[i];
      }
    }
    if |ps| > 1 {
      LowerCapitalizedJoin(ps[1..]);
      assert CapitalizeAll(ps)[1..] == CapitalizeAll(ps[1..]);
      var tail := Join(CapitalizeAll(ps[1..]), ' ');
      assert Lower(cap + [' '] + tail) == Lower(cap) + [' '] + Lower(tail);
    }
  }

  lemma {:induction false} ReplaceInJoin(ps: seq<string>)
    requires |ps| >= 1
    requires forall k :: 0 <= k < |ps| ==> '_' !in ps[k]
    ensures ReplaceChar(Join(ps, '_'), '_', ' ') == Join(ps, ' ')
  {
    if |ps| > 1 {
      ReplaceInJoin(ps[1..]);
      var p, tail := ps[0], Join(ps[1..], '_');
      assert ReplaceChar(p + ['_'] + tail, '_', ' ') == ReplaceChar(p, '_', ' ') + [' '] + ReplaceChar(tail, '_', ' ');
      assert ReplaceChar(p, '_', ' ') == p;
    } else {
      assert ReplaceChar(ps[0], '_', ' ') == ps[0];
    }
  }

  /** A prettified name never holds an underscore. */
  lemma PrettifyHasNoUnderscore(ugly: string)
    ensures PrettifyResult(ugly).Value? ==> '_' !in PrettifyResult(ugly).value
  {
    var l := Lower(ugly);
    if !('_' !in ugly && ugly != Upper(ugly)) && '_' in l {
      var parts := Split(l, '_');
      if (forall k :: 0 <= k < |parts| ==> parts[k] != "") && |parts| >= 1 {
        var caps := CapitalizeAll(parts);
        forall k | 0 <= k < |caps| ensures '_' !in caps[k] {
          assert caps[k] == [UpperChar(parts[k][0])] + parts[k][1..];
        }
        NoCharInJoin(caps, ' ', '_');
      }
    } else if !('_' !in ugly && ugly != Upper(ugly)) && l != "" {
      assert Capitalize(l) == [UpperChar(l[0])] + l[1..];
      assert '_' !in l[1..];
    }
  }

  /**
   * When the name has underscores and prettifying succeeds, the result read
   * in lower case is the lower-cased name with its trailing underscores
   * removed and every other underscore turned into a space.
   */
  lemma PrettifyReadsBack(ugly: string)
    requires '_' in ugly && PrettifyResult(ugly).Value?
    ensures Lower(PrettifyResult(ugly).value) == ReplaceChar(TrimTrailing(Lower(ugly), '_'), '_', ' ')
  {
    var l := Lower(ugly);
    assert '_' in l by {
      var i :| 0 <= i < |ugly| && ugly[i] == '_';
      assert l[i] == '_';
    }
    assert Lower(l) == l by {
      forall i | 0 <= i < |l| ensures Lower(l)[i] == l[i] {
        assert l[i] == LowerChar(ugly[i]);
      }
    }
    JoinedWordsReadBack(l);
  }

  lemma JoinedWordsReadBack(l: string)
    requires '_' in l && Lower(l) == l
    requires forall k :: 0 <= k < |Split(l, '_')| ==> Split(l, '_')[k] != ""
    ensures Lower(JoinWords(CapitalizeAll(Split(l, '_')))) == ReplaceChar(TrimTrailing(l, '_'), '_', ' ')
  {
    var parts := Split(l, '_');
    SplitJoinTrims(l, '_');
    if |parts| >= 1 {
      LowerFields(l, '_');
      LowerCapitalizedJoin(parts);
      ReplaceInJoin(parts);
    } else {
      assert ReplaceChar("", '_', ' ') == "";
    }
  }

  /** The fields of a lower-cased text are lower-cased too. */
  lemma LowerFields(l: string, sep: char)
    requires Lower(l) == l
    ensures forall k :: 0 <= k < |Split(l, sep)| ==> Lower(Split(l, sep)[k]) == Split(l, sep)[k]
  {
    FieldChars(l, sep);
    var ps := Split(l, sep);
    forall k | 0 <= k < |ps| ensures Lower(ps[k]) == ps[k] {
      var p := ps[k];
      assert sep !in l ==> p == l;
      forall i | 0 <= i < |p| ensures LowerChar(p[i]) == p[i] {
        assert p[i] in l;
        var j :| 0 <= j < |l| && l[j] == p[i];
        assert l[j] == Lower(l)[j] == LowerChar(l[j]);
      }
    }
  }

  /** Every character of a field occurs in the text it came from. */
  lemma {:induction false} FieldChars(s: string, sep: char)
    ensures forall k, i :: 0 <= k < |Fields(s, sep)| && 0 <= i < |Fields(s, sep)[k]| ==> Fields(s, sep)[k][i] in s
    decreases |s|
  {
    if sep in s {
      var j := IndexOf(s, sep);
      FieldChars(s[j + 1..], sep);
      var fs := Fields(s, sep);
      forall k, i | 0 <= k < |fs| && 0 <= i < |fs[k]| ensures fs[k][i] in s {
        if k == 0 {
          assert fs[0][i] == s[i];
        } else {
          assert fs[k] == Fields(s[j + 1..], sep)[k - 1];
          assert fs[k][i] in s[j + 1..];
        }
      }
    }
  }

  lemma SplitAB()
    ensures Split("a_b", '_') == ["a", "b"]
  {
    var l := "a_b";
    assert IndexOf(l, '_') == 1;
    assert l[..1] == "a" && l[2..] == "b";
    assert Fields("b", '_') == ["b"];
    assert Fields(l, '_') == ["a", "b"];
  }

  lemma PrettifyFirstPass()
    ensures PrettifyResult("A_B") == Value("A B")
  {
    assert Lower("A_B") == "a_b";
    SplitAB();
    var parts := Split("a_b", '_');
    assert !exists k :: 0 <= k < |parts| && parts[k] == "";
    assert Capitalize("a") == "A" && Capitalize("b") == "B";
    assert CapitalizeAll(["a", "b"]) == ["A", "B"];
    assert Join(["A", "B"], ' ') == "A B";
  }

  lemma PrettifySecondPass()
    ensures PrettifyResult("A B") == Value("A b")
  {
    assert Upper("A B") == "A B";
    assert Lower("A B") == "a b";
    assert Capitalize("a b") == "A b";
  }

  /**
   * Prettifying is not idempotent: an all-capitals two-word name becomes
   * capitalised words, and a second pass lower-cases the second word.
   */
  lemma PrettifyNotIdempotent()
    ensures PrettifyResult("A_B") == Value("A B")
    ensures PrettifyResult("A B") == Value("A b")
  {
    PrettifyFirstPass();
    PrettifySecondPass();
  }

  // ------------------------------------------------------------ tab limit

  /** The non-null entries that start with `start`, ignoring case, in list order. */
  function TabMatches(list: seq<Option<string>>, start: string): (r: seq<string>)
    ensures |r| <= |list|
  {
    if list == [] then []
    else
      var rest := TabMatches(list[1..], start);
      if list[0].Some? && StartsWith(Lower(list[0].value), Lower(start)) then [list[0].value] + rest else rest
  }

  method TabLimit(list: seq<Option<string>>, start: string) returns (returned: seq<string>)
    ensures returned == TabMatches(list, start)
  {
    returned := [];
    var i := |list|;
    while i > 0
      invariant 0 <= i <= |list|
      invariant returned == TabMatches(list[i..], start)
    {
      i := i - 1;
      assert list[i..][1..] == list[i + 1..];
      var s := list[i];
      if s.Some? && StartsWith(Lower(s.value), Lower(start)) {
        returned := [s.value] + returned;
      }
    }
    assert list[0..] == list;
  }

  /** A string is offered exactly when it is in the list and starts with `start`, ignoring case. */
  lemma {:induction false} TabMatchesMembers(list: seq<Option<string>>, start: string, s: string)
    ensures s in TabMatches(list, start) <==> Some(s) in list && StartsWith(Lower(s), Lower(start))
  {
    if list != [] {
      TabMatchesMembers(list[1..], start, s);
      assert list == [list[0]] + list[1..];
    }
  }

  lemma LowerOfUpper(s: string)
    ensures Lower(Upper(s)) == Lower(s)
  {
    assert forall i :: 0 <= i < |s| ==> LowerChar(UpperChar(s[i])) == LowerChar(s[i]);
  }

  /** Upper-casing the typed prefix does not change the completions. */
  lemma {:induction false} TabMatchesIgnoreCase(list: seq<Option<string>>, start: string)
    ensures TabMatches(list, Upper(start)) == TabMatches(list, start)
  {
    LowerOfUpper(start);
    if list != [] {
      TabMatchesIgnoreCase(list[1..], start);
    }
  }

  // ------------------------------------------------------------ xorshift

  /** Java's `long` read as a signed number. */
  function Signed(b: bv64): int {
    if b as int < 0x8000_0000_0000_0000 then b as int else b as int - 0x1_0000_0000_0000_0000
  }

  /** One xorshift step: `x ^= x << 21; x ^= x >>> 35; x ^= x << 4`. */
  function XorShift(x: bv64): bv64 {
    var a := x ^ (x << (21 as bv64));
    var b := a ^ (a >> (35 as bv64));
    b ^ (b << (4 as bv64))
  }

  /** Java's `Math.abs(long)`: the magnitude, except that MIN_VALUE stays negative. */
  function AbsLong(b: bv64): (r: int)
    ensures b != 0x8000_0000_0000_0000 ==> r == Abs(Signed(b)) && r >= 0
    ensures b == 0x8000_0000_0000_0000 ==> r == Signed(b) < 0
  {
    if Signed(b) == -0x8000_0000_0000_0000 then Signed(b) else Abs(Signed(b))
  }

  /** The generator state of `Util.randomLong`, seeded from the clock. */
  class RandomSource {
    var x: bv64

    constructor (nanoTime: bv64)
      ensures x == nanoTime
    {
      x := nanoTime;
    }

    method RandomLong() returns (r: int)
      modifies this
      ensures x == XorShift(old(x))
      ensures r == AbsLong(x)
    {
      x := XorShift(x);
      r := AbsLong(x);
    }
  }

  /** A non-zero state never becomes zero, so the generator never gets stuck at 0. */
  lemma XorShiftNonZero(x: bv64)
    requires x != 0
    ensures XorShift(x) != 0
  {
  }
}
