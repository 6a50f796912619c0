/**
 Word wrapping as a function on text: what argp-fmtstream's buffer scan produces, with no buffer,
 no capacity and no flushing.
 */
module Layout {
  import opened Text

  datatype Margins = Margins(left: nat, right: nat, wrap: nat) {
    predicate Valid() {
      left <= right && wrap <= right
    }
  }

  /** What the scan does with the text from the current position on. */
  datatype Step =
    | Partial                     // an unfinished line that fits: stop here
    | Keep(n: nat)                // the first `n` characters end a line; go on at column 0
    | Break(e: nat, n: nat)       // characters `e` to `n` become a line break
    | Overrun                     // the scan leaves the text

  /** The laid-out text, the column after it, and every character a line break replaced. */
  datatype Laid = Laid(text: string, col: int, dropped: string, overrun: bool) {
    function After(prefix: string, replaced: string): Laid {
      this.(text := prefix + text, dropped := replaced + dropped)
    }
  }

  /** Break the line that ends at `nl` near `k`, the position just past the right margin. */
  function BreakLong(rest: string, nl: nat, k: nat): (s: Step)
    requires k <= nl <= |rest| && 0 < |rest|
    ensures s.Keep? ==> 0 < s.n <= |rest|
    ensures s.Break? ==> s.e < s.n <= |rest|
  {
    var j := LastBlank(rest, k);
    if j >= 0 then Break(RunStart(rest, j), j + 1)
    else if k == nl then
      if nl + 1 < |rest| then Break(nl + 1, SkipBlanks(rest, nl + 2)) else Overrun
    else
      var q := WordEnd(rest, k + 1, nl);
      if q < nl then Break(q, SkipBlanks(rest, q + 1))
      else Keep(if nl < |rest| then nl + 1 else nl)
  }

  function Decide(rest: string, c: nat, right: nat): (s: Step)
    requires rest != "" && c <= right
    ensures s.Keep? ==> 0 < s.n <= |rest|
    ensures s.Break? ==> s.e < s.n <= |rest|
  {
    var nl := NewlineAt(rest, 0);
    if nl == |rest| && c + nl < right then Partial
    else if nl < |rest| && c + nl < right then Keep(nl + 1)
    else BreakLong(rest, nl, right - c)
  }

  /** A line that is kept ends with a newline or a word. */
  lemma KeepEndsSolid(rest: string, c: nat, right: nat)
    requires rest != "" && c <= right && Decide(rest, c, right).Keep?
    ensures !IsBlank(rest[Decide(rest, c, right).n - 1])
  {
  }

  lemma PartialFits(rest: string, c: nat, right: nat)
    requires rest != "" && c <= right && Decide(rest, c, right).Partial?
    ensures c + |rest| < right
  {
  }

  /** The column after a wrap; -1 is column 0 without a left margin. */
  function WrapColumn(m: Margins): int {
    if m.wrap > 0 then m.wrap else -1
  }

  function Lay(rest: string, col: int, m: Margins): Laid
    requires m.Valid() && col <= m.right
    decreases |rest|, if col == 0 then 1 else 0
  {
    if rest == "" then Laid("", col, "", false)
    else if col == 0 && m.left != 0 then Lay(rest, m.left, m).After(Spaces(m.left), "")
    else
      var c := if col < 0 then 0 else col;
      match Decide(rest, c, m.right)
      case Partial => Laid(rest, c + |rest|, "", false)
      case Overrun => Laid(rest, c, "", true)
      case Keep(n) => Lay(rest[n..], 0, m).After(rest[..n], "")
      case Break(e, n) =>
        Lay(rest[n..], WrapColumn(m), m).After(rest[..e] + "\n" + Spaces(m.wrap), rest[e..n])
  }

  lemma {:induction false} ColumnInRange(rest: string, col: int, m: Margins)
    requires m.Valid() && -1 <= col <= m.right
    ensures -1 <= Lay(rest, col, m).col <= m.right
    decreases |rest|, if col == 0 then 1 else 0
  {
    if rest == "" {
    } else if col == 0 && m.left != 0 {
      ColumnInRange(rest, m.left, m);
    } else {
      match Decide(rest, if col < 0 then 0 else col, m.right)
      case Partial =>
      case Overrun =>
      case Keep(n) => ColumnInRange(rest[n..], 0, m);
      case Break(_, n) => ColumnInRange(rest[n..], WrapColumn(m), m);
    }
  }

  // ----- Conservation of ink

  /** A word without blanks that ends, with its newline, exactly at the right margin and is
      followed by a `bad` character: the character the scan then overwrites with a line break. */
  predicate ExactFit(rest: string, c: nat, right: nat, bad: char -> bool)
    requires c <= right
  {
    var k := right - c;
    && k + 1 < |rest|
    && NewlineAt(rest, 0) == k
    && LastBlank(rest, k) == -1
    && bad(rest[k + 1])
  }

  /** No line of the layout is an exact fit followed by a `bad` character. */
  predicate Avoids(rest: string, col: int, m: Margins, bad: char -> bool)
    requires m.Valid() && col <= m.right
    decreases |rest|, if col == 0 then 1 else 0
  {
    if rest == "" then true
    else if col == 0 && m.left != 0 then Avoids(rest, m.left, m, bad)
    else
      var c := if col < 0 then 0 else col;
      !ExactFit(rest, c, m.right, bad) &&
      match Decide(rest, c, m.right)
      case Partial => true
      case Overrun => true
      case Keep(n) => Avoids(rest[n..], 0, m, bad)
      case Break(_, n) => Avoids(rest[n..], WrapColumn(m), m, bad)
  }

  /** What a line break replaces: blanks, but for the first character where the line is an exact fit. */
  lemma BreakGap(rest: string, c: nat, right: nat)
    requires rest != "" && c <= right && Decide(rest, c, right).Break?
    ensures var s, k := Decide(rest, c, right), right - c;
      && (forall x :: s.e < x < s.n ==> IsBlank(rest[x]))
      && if NewlineAt(rest, 0) == k && LastBlank(rest, k) == -1 then s.e == k + 1 < |rest| else IsBlank(rest[s.e])
  {
  }

  lemma ExactFitBreaks(rest: string, c: nat, right: nat, bad: char -> bool)
    requires rest != "" && c <= right && ExactFit(rest, c, right, bad)
    ensures Decide(rest, c, right).Break?
  {
  }

  lemma BreakReplacesBlanks(rest: string, c: nat, right: nat)
    requires rest != "" && c <= right && Decide(rest, c, right).Break?
    ensures var s := Decide(rest, c, right);
      Ink(rest[s.e..s.n]) == if ExactFit(rest, c, right, IsInk) then [rest[s.e]] else ""
  {
    BreakGap(rest, c, right);
    hide Decide, Ink;
    var s := Decide(rest, c, right);
    var first, tail := [rest[s.e]], rest[s.e + 1..s.n];
    assert rest[s.e..s.n] == first + tail;
    InkConcat(first, tail);
    assert forall i :: 0 <= i < |tail| ==> tail[i] == rest[s.e + 1 + i];
    InkNone(tail);
    InkOne(rest[s.e]);
    assert first + "" == first;
  }

  /** Every character of ink is either laid out, in order, or replaced. */
  ghost predicate Accounted(rest: string, l: Laid) {
    && |Ink(l.text)| + |Ink(l.dropped)| == |Ink(rest)|
    && (Ink(l.dropped) == "" ==> Ink(l.text) == Ink(rest))
  }

  lemma AccountedAfter(rest: string, e: nat, n: nat, margin: string, l: Laid)
    requires e <= n <= |rest| && Ink(margin) == "" && Accounted(rest[n..], l)
    ensures Accounted(rest, l.After(rest[..e] + margin, rest[e..n]))
  {
    hide Ink;
    var a, gap, tail := rest[..e], rest[e..n], rest[n..];
    assert Ink(rest) == Ink(a) + Ink(gap) + Ink(tail) by {
      assert rest == a + gap + tail;
      InkConcat(a, gap);
      InkConcat(a + gap, tail);
    }
    assert Ink(a + margin + l.text) == Ink(a) + Ink(l.text) by {
      InkConcat(a, margin);
      InkConcat(a + margin, l.text);
      assert Ink(a) + "" == Ink(a);
    }
    InkConcat(gap, l.dropped);
  }

  lemma {:induction false} InkAccounted(rest: string, col: int, m: Margins)
    requires m.Valid() && col <= m.right
    ensures Accounted(rest, Lay(rest, col, m))
    decreases |rest|, if col == 0 then 1 else 0
  {
    if rest == "" {
    } else if col == 0 && m.left != 0 {
      InkAccounted(rest, m.left, m);
      InkNone(Spaces(m.left));
      AccountedAfter(rest, 0, 0, Spaces(m.left), Lay(rest, m.left, m));
      assert rest[..0] + Spaces(m.left) == Spaces(m.left);
    } else {
      match Decide(rest, if col < 0 then 0 else col, m.right)
      case Partial =>
      case Overrun =>
      case Keep(n) =>
        InkAccounted(rest[n..], 0, m);
        AccountedAfter(rest, n, n, "", Lay(rest[n..], 0, m));
        assert rest[..n] + "" == rest[..n];
      case Break(e, n) =>
        InkAccounted(rest[n..], WrapColumn(m), m);
        InkNone("\n" + Spaces(m.wrap));
        AccountedAfter(rest, e, n, "\n" + Spaces(m.wrap), Lay(rest[n..], WrapColumn(m), m));
        assert rest[..e] + "\n" + Spaces(m.wrap) == rest[..e] + ("\n" + Spaces(m.wrap));
    }
  }

  lemma {:induction false} DropsInkIffExactFit(rest: string, col: int, m: Margins)
    requires m.Valid() && col <= m.right
    ensures Ink(Lay(rest, col, m).dropped) == "" <==> Avoids(rest, col, m, IsInk)
    decreases |rest|, if col == 0 then 1 else 0
  {
    hide Decide, ExactFit;
    if rest == "" {
    } else if col == 0 && m.left != 0 {
      DropsInkIffExactFit(rest, m.left, m);
      assert "" + Lay(rest, m.left, m).dropped == Lay(rest, m.left, m).dropped;
    } else {
      var c := if col < 0 then 0 else col;
      if ExactFit(rest, c, m.right, IsInk) {
        ExactFitBreaks(rest, c, m.right, IsInk);
      }
      match Decide(rest, c, m.right)
      case Partial =>
      case Overrun =>
      case Keep(n) =>
        DropsInkIffExactFit(rest[n..], 0, m);
        assert "" + Lay(rest[n..], 0, m).dropped == Lay(rest[n..], 0, m).dropped;
      case Break(e, n) =>
        DropsInkIffExactFit(rest[n..], WrapColumn(m), m);
        BreakReplacesBlanks(rest, c, m.right);
        InkConcat(rest[e..n], Lay(rest[n..], WrapColumn(m), m).dropped);
    }
  }

  /** Layout keeps exactly the ink it was given precisely when no line meets the guard. */
  lemma ConservesInkIff(rest: string, col: int, m: Margins)
    requires m.Valid() && col <= m.right
    ensures Ink(Lay(rest, col, m).text) == Ink(rest) <==> Avoids(rest, col, m, IsInk)
  {
    InkAccounted(rest, col, m);
    DropsInkIffExactFit(rest, col, m);
  }

  /** The guard is reachable: the letter after the newline is lost. */
  lemma InkCanBeLost()
    ensures var m := Margins(0, 3, 0);
      Lay("abc\nxy", 0, m).text == "abc\n\ny" && !Avoids("abc\nxy", 0, m, IsInk)
  {
    var s := "abc\nxy";
    assert NewlineAt(s, 0) == 3 && LastBlank(s, 3) == -1 && SkipBlanks(s, 5) == 5;
    assert s[5..] == "y";
    assert Decide("y", 0, 3) == Partial;
  }

  /** A word without blanks ends exactly at the right margin, and nothing follows but at most its newline. */
  predicate EndsExactly(rest: string, c: nat, right: nat)
    requires c <= right
  {
    var k := right - c;
    k <= |rest| <= k + 1 && NewlineAt(rest, 0) == k && LastBlank(rest, k) == -1
  }

  /** No line of the layout ends the text exactly at the right margin. */
  predicate StaysInside(rest: string, col: int, m: Margins)
    requires m.Valid() && col <= m.right
    decreases |rest|, if col == 0 then 1 else 0
  {
    if rest == "" then true
    else if col == 0 && m.left != 0 then StaysInside(rest, m.left, m)
    else
      var c := if col < 0 then 0 else col;
      !EndsExactly(rest, c, m.right) &&
      match Decide(rest, c, m.right)
      case Partial => true
      case Overrun => true
      case Keep(n) => StaysInside(rest[n..], 0, m)
      case Break(_, n) => StaysInside(rest[n..], WrapColumn(m), m)
  }

  /** The scan leaves the text exactly if a line ends it at the right margin. */
  lemma {:induction false} OverrunIff(rest: string, col: int, m: Margins)
    requires m.Valid() && col <= m.right
    ensures Lay(rest, col, m).overrun <==> !StaysInside(rest, col, m)
    decreases |rest|, if col == 0 then 1 else 0
  {
    if rest == "" {
    } else if col == 0 && m.left != 0 {
      OverrunIff(rest, m.left, m);
    } else {
      match Decide(rest, if col < 0 then 0 else col, m.right)
      case Partial =>
      case Overrun =>
      case Keep(n) => OverrunIff(rest[n..], 0, m);
      case Break(_, n) => OverrunIff(rest[n..], WrapColumn(m), m);
    }
  }

  /** The guard of an overrun is reachable, by a line that fits exactly and ends the text. */
  lemma CanOverrun()
    ensures Lay("abc\n", 0, Margins(0, 3, 2)).overrun
  {
    var s := "abc\n";
    assert NewlineAt(s, 0) == 3 && LastBlank(s, 3) == -1;
    OverrunIff(s, 0, Margins(0, 3, 2));
  }

  // ----- Shape of the output, without left and wrap margins

  /** `t` is `s` with some nonempty runs of blanks each replaced by one newline. */
  ghost predicate Rewraps(s: string, t: string)
    decreases |t|
  {
    || (s == "" && t == "")
    || (s != "" && t != "" && s[0] == t[0] && Rewraps(s[1..], t[1..]))
    || (t != "" && t[0] == '\n' && exists n: nat :: BlankRun(s, n) && Rewraps(s[n..], t[1..]))
  }

  predicate IsSolid(c: char) {
    !IsBlank(c)
  }

  predicate BlankRun(s: string, n: nat) {
    0 < n <= |s| && forall i :: 0 <= i < n ==> IsBlank(s[i])
  }

  lemma {:induction false} RewrapsKeep(a: string, s: string, t: string)
    requires Rewraps(s, t)
    ensures Rewraps(a + s, a + t)
  {
    if a == "" {
      assert a + s == s && a + t == t;
    } else {
      RewrapsKeep(a[1..], s, t);
      assert (a + s)[1..] == a[1..] + s && (a + t)[1..] == a[1..] + t;
    }
  }

  lemma RewrapsItself(s: string)
    ensures Rewraps(s, s)
  {
    RewrapsKeep(s, "", "");
    assert s + "" == s;
  }

  lemma RewrapsBreak(rest: string, e: nat, n: nat, t: string)
    requires e < n <= |rest| && Rewraps(rest[n..], t)
    requires forall i :: e <= i < n ==> IsBlank(rest[i])
    ensures Rewraps(rest, rest[..e] + "\n" + t)
  {
    var s := rest[e..];
    assert BlankRun(s, n - e) && s[n - e..] == rest[n..];
    assert ("\n" + t)[1..] == t;
    RewrapsKeep(rest[..e], s, "\n" + t);
    assert rest[..e] + s == rest && rest[..e] + ("\n" + t) == rest[..e] + "\n" + t;
  }

  lemma BreakRewraps(rest: string, c: nat, right: nat, t: string)
    requires rest != "" && c <= right && !ExactFit(rest, c, right, IsSolid)
    requires Decide(rest, c, right).Break? && Rewraps(rest[Decide(rest, c, right).n..], t)
    ensures Rewraps(rest, rest[..Decide(rest, c, right).e] + "\n" + t)
  {
    var s := Decide(rest, c, right);
    RewrapsBreak(rest, s.e, s.n, t);
  }

  lemma {:induction false} LayRewraps(rest: string, col: int, m: Margins)
    requires m.Valid() && col <= m.right && m.left == m.wrap == 0
    requires Avoids(rest, col, m, IsSolid)
    ensures Rewraps(rest, Lay(rest, col, m).text)
    decreases |rest|
  {
    hide Rewraps, Decide, ExactFit;
    RewrapsItself(rest);
    if rest != "" {
      match Decide(rest, if col < 0 then 0 else col, m.right)
      case Partial =>
      case Overrun =>
      case Keep(n) =>
        LayRewraps(rest[n..], 0, m);
        RewrapsKeep(rest[..n], rest[n..], Lay(rest[n..], 0, m).text);
        assert rest[..n] + rest[n..] == rest;
      case Break(e, n) =>
        LayRewraps(rest[n..], WrapColumn(m), m);
        BreakRewraps(rest, if col < 0 then 0 else col, m.right, Lay(rest[n..], WrapColumn(m), m).text);
        assert rest[..e] + "\n" + Spaces(0) == rest[..e] + "\n";
    }
  }

  predicate LineOk(line: string, right: nat) {
    |line| <= right || forall i :: 0 <= i < |line| ==> !IsBlank(line[i])
  }

  /** Every finished line fits the right margin or is one long word. */
  predicate LinesOk(s: string, right: nat)
    decreases |s|
  {
    var nl := NewlineAt(s, 0);
    nl == |s| || (LineOk(s[..nl], right) && LinesOk(s[nl + 1..], right))
  }

  lemma AddLine(line: string, s: string, right: nat)
    requires LineOk(line, right) && LinesOk(s, right) && '\n' !in line
    ensures LinesOk(line + "\n" + s, right)
  {
    var t := line + "\n" + s;
    assert t[|line|] == '\n' && forall x :: 0 <= x < |line| ==> t[x] == line[x];
    assert NewlineAt(t, 0) == |line|;
    assert t[..|line|] == line && t[|line| + 1..] == s;
  }

  lemma LayKeepsLines(rest: string, n: nat, s: string, right: nat)
    requires rest != "" && Decide(rest, 0, right) == Keep(n) && LinesOk(s, right)
    requires n == |rest| ==> s == ""
    ensures LinesOk(rest[..n] + s, right)
  {
    var nl := NewlineAt(rest, 0);
    if nl < |rest| {
      AddLine(rest[..nl], s, right);
      assert rest[..n] + s == rest[..nl] + "\n" + s;
    } else {
      assert rest[..n] + s == rest;
    }
  }

  /** A line that is broken fits before the break, which is within it or, at an exact fit, behind its newline. */
  lemma BreakFits(rest: string, e: nat, n: nat, right: nat)
    requires rest != "" && Decide(rest, 0, right) == Break(e, n)
    ensures var nl := NewlineAt(rest, 0);
      if e <= nl then LineOk(rest[..e], right) && '\n' !in rest[..e]
      else nl < |rest| && e == nl + 1 && LineOk(rest[..nl], right)
  {
  }

  lemma LayBreaksLines(rest: string, e: nat, n: nat, s: string, right: nat)
    requires rest != "" && Decide(rest, 0, right) == Break(e, n) && LinesOk(s, right)
    ensures LinesOk(rest[..e] + "\n" + s, right)
  {
    hide LinesOk, LineOk;
    var nl := NewlineAt(rest, 0);
    BreakFits(rest, e, n, right);
    hide Decide;
    if e <= nl {
      AddLine(rest[..e], s, right);
    } else {
      assert LineOk("", right) by { EmptyLine(right); }
      AddLine("", s, right);
      AddLine(rest[..nl], "" + "\n" + s, right);
      assert rest[..e] + "\n" + s == rest[..nl] + "\n" + ("" + "\n" + s);
    }
  }

  lemma EmptyLine(right: nat)
    ensures LineOk("", right)
  {
  }

  lemma {:induction false} LayLinesOk(rest: string, col: int, m: Margins)
    requires m.Valid() && col <= 0 && m.left == m.wrap == 0
    ensures LinesOk(Lay(rest, col, m).text, m.right)
    decreases |rest|
  {
    if rest != "" {
      match Decide(rest, 0, m.right)
      case Partial =>
      case Overrun =>
        var nl := NewlineAt(rest, 0);
        if nl < |rest| {
          AddLine(rest[..nl], "", m.right);
          assert rest[..nl] + "\n" + "" == rest;
        }
      case Keep(n) =>
        LayLinesOk(rest[n..], 0, m);
        LayKeepsLines(rest, n, Lay(rest[n..], 0, m).text, m.right);
      case Break(e, n) =>
        LayLinesOk(rest[n..], WrapColumn(m), m);
        LayBreaksLines(rest, e, n, Lay(rest[n..], WrapColumn(m), m).text, m.right);
        assert rest[..e] + "\n" + Spaces(0) == rest[..e] + "\n";
    }
  }

  predicate OnlyBlanks(s: string) {
    forall i :: 0 <= i < |s| ==> IsBlank(s[i])
  }

  lemma OnlyBlanksConcat(s: string, t: string)
    ensures OnlyBlanks(s + t) <==> OnlyBlanks(s) && OnlyBlanks(t)
  {
    if OnlyBlanks(s + t) {
      assert forall i :: 0 <= i < |s| ==> s[i] == (s + t)[i];
      assert forall i :: 0 <= i < |t| ==> t[i] == (s + t)[|s| + i];
    }
  }

  lemma BreakReplacesOnlyBlanksIff(rest: string, c: nat, right: nat)
    requires rest != "" && c <= right && Decide(rest, c, right).Break?
    ensures var s := Decide(rest, c, right); OnlyBlanks(rest[s.e..s.n]) <==> !ExactFit(rest, c, right, IsSolid)
  {
    var s := Decide(rest, c, right);
    var gap := rest[s.e..s.n];
    assert gap[0] == rest[s.e];
    forall i | 0 <= i < |gap| && !ExactFit(rest, c, right, IsSolid) ensures IsBlank(gap[i]) {
      assert gap[i] == rest[s.e + i];
    }
  }

  /** Line breaks replace nothing but blanks precisely when no line is an exact fit before a non-blank. */
  lemma {:induction false} ReplacesOnlyBlanksIff(rest: string, col: int, m: Margins)
    requires m.Valid() && col <= m.right
    ensures OnlyBlanks(Lay(rest, col, m).dropped) <==> Avoids(rest, col, m, IsSolid)
    decreases |rest|, if col == 0 then 1 else 0
  {
    hide Decide, ExactFit;
    if rest == "" {
    } else if col == 0 && m.left != 0 {
      ReplacesOnlyBlanksIff(rest, m.left, m);
      assert "" + Lay(rest, m.left, m).dropped == Lay(rest, m.left, m).dropped;
    } else {
      var c := if col < 0 then 0 else col;
      if ExactFit(rest, c, m.right, IsSolid) {
        ExactFitBreaks(rest, c, m.right, IsSolid);
      }
      match Decide(rest, c, m.right)
      case Partial =>
      case Overrun =>
      case Keep(n) =>
        ReplacesOnlyBlanksIff(rest[n..], 0, m);
        assert "" + Lay(rest[n..], 0, m).dropped == Lay(rest[n..], 0, m).dropped;
      case Break(e, n) =>
        ReplacesOnlyBlanksIff(rest[n..], WrapColumn(m), m);
        BreakReplacesOnlyBlanksIff(rest, c, m.right);
        OnlyBlanksConcat(rest[e..n], Lay(rest[n..], WrapColumn(m), m).dropped);
    }
  }
}
