/**
 The lines of a layout, said without computing them: where a line may end, how far it is indented, and that no break
 comes earlier than it must.
 */
module Lines {
  import opened Text
  import opened Layout

  predicate NoBlank(s: string) {
    forall i :: 0 <= i < |s| ==> !IsBlank(s[i])
  }

  /** How far the first word of `s` reaches. */
  ghost predicate WordTo(s: string, q: nat) {
    && q <= |s| && NoBlank(s[..q]) && '\n' !in s[..q]
    && (q < |s| ==> IsBlank(s[q]) || s[q] == '\n')
  }

  predicate StartsBlank(s: string) {
    s != "" && IsBlank(s[0])
  }

  predicate EndsBlank(s: string) {
    s != "" && IsBlank(s[|s| - 1])
  }

  /** How a line ends: with the text, with a newline of the text, with a break that replaces `gap`, or with a newline
      of the text exactly at the margin and a break that replaces `gap` behind it. */
  datatype End = Open | Hard | Soft(gap: string) | Clash(gap: string)

  datatype Line = Line(indent: nat, body: string, end: End) {
    /** What of the text the line is made of. */
    function Source(): string {
      match end
      case Open => body
      case Hard => body + "\n"
      case Soft(gap) => body + gap
      case Clash(gap) => body + "\n" + gap
    }

    /** How it is laid out. */
    function Shown(): string {
      match end
      case Open => Spaces(indent) + body
      case Hard => Spaces(indent) + body + "\n"
      case Soft(_) => Spaces(indent) + body + "\n"
      case Clash(_) => Spaces(indent) + body + "\n" + "\n"
    }
  }

  /**
   A line whose body starts at column `c` may end so, with `rest` left behind it: a line is kept if it ends before the
   right margin, or holds no blank and passes it. It is broken at blanks before or at the margin if the next word does
   not end before the margin (it may end at the margin only in front of a blank, which then is the break), and behind
   the margin only if there is no blank before.
   */
  ghost predicate EndsWell(c: nat, line: Line, rest: string, right: nat) {
    var b, col := line.body, c + |line.body|;
    && '\n' !in b
    && match line.end
       case Open => rest == "" && (col < right || NoBlank(b))
       case Hard => col < right || (right < col && NoBlank(b))
       case Soft(gap) =>
         && gap != "" && OnlyBlanks(gap) && !EndsBlank(b)
         && if col <= right then
              && col + |gap| <= right + 1
              && (forall q: nat :: WordTo(rest, q) ==> Passes(col + |gap| + q, right, rest[q..]))
            else NoBlank(b) && !StartsBlank(rest)
       case Clash(gap) => col == right && NoBlank(b) && gap != "" && OnlyBlanks(gap[1..]) && !StartsBlank(rest)
  }

  /** A word that ends at column `col`, with `rest` behind it, does not fit. */
  predicate Passes(col: nat, right: nat, rest: string) {
    right < col || (col == right && !StartsBlank(rest))
  }

  function Source(lines: seq<Line>): string {
    if lines == [] then "" else lines[0].Source() + Source(lines[1..])
  }

  function Shown(lines: seq<Line>): string {
    if lines == [] then "" else lines[0].Shown() + Shown(lines[1..])
  }

  /** A line is indented by the left margin behind a newline of the text, unless nothing follows any more, and by the
      wrap margin behind a break. */
  function Indent(lines: seq<Line>, i: nat, m: Margins): nat
    requires 0 < i <= |lines|
  {
    if !lines[i - 1].end.Hard? then m.wrap else if Source(lines[i..]) == "" then 0 else m.left
  }

  /** Line `i` of a layout whose first line begins at column `c`, behind `indent` blanks of its own. */
  ghost predicate LineWell(lines: seq<Line>, i: nat, indent: nat, c: nat, m: Margins)
    requires i < |lines|
  {
    && lines[i].indent == (if i == 0 then indent else Indent(lines, i, m))
    && EndsWell(if i == 0 then c else lines[i].indent, lines[i], Source(lines[i + 1..]), m.right)
    && (lines[i].end.Open? <==> i == |lines| - 1)
  }

  ghost predicate Typeset(lines: seq<Line>, text: string, indent: nat, c: nat, m: Margins) {
    && lines != [] && Source(lines) == text
    && forall i :: 0 <= i < |lines| ==> LineWell(lines, i, indent, c, m)
  }

  // ----- Such lines exist

  lemma Cons(l: Line, lines: seq<Line>, text: string, indent: nat, indent': nat, c: nat, m: Margins)
    requires Typeset(lines, text, indent', indent', m)
    requires l.indent == indent && !l.end.Open? && EndsWell(c, l, text, m.right)
    requires indent' == if !l.end.Hard? then m.wrap else if text == "" then 0 else m.left
    ensures Typeset([l] + lines, l.Source() + text, indent, c, m)
    ensures Shown([l] + lines) == l.Shown() + Shown(lines)
  {
    hide EndsWell;
    var all := [l] + lines;
    assert all[1..] == lines && all[0] == l;
    forall i | 0 <= i < |all| ensures LineWell(all, i, indent, c, m) {
      if i > 0 {
        assert LineWell(lines, i - 1, indent', indent', m);
        assert all[i..] == lines[i - 1..] && all[i + 1..] == lines[i..] && all[i] == lines[i - 1];
        if i == 1 {
          assert lines[0..] == lines;
        } else {
          assert all[i - 1] == lines[i - 2];
        }
      }
    }
  }

  lemma Alone(text: string, indent: nat, c: nat, m: Margins)
    requires '\n' !in text && (c + |text| < m.right || NoBlank(text))
    ensures Typeset([Line(indent, text, Open)], text, indent, c, m)
  {
    var l := Line(indent, text, Open);
    assert [l][1..] == [] && l.Source() + "" == text;
  }

  /** The column as the scan counts it behind a margin, or at the start of a line without one. */
  function Code(c: nat): int {
    if c == 0 then -1 else c
  }

  /** Where a step ends the first line. */
  function First(text: string, indent: nat, s: Step): Line
    requires s.Break? ==> s.e < s.n <= |text|
  {
    var nl := NewlineAt(text, 0);
    match s
    case Partial => Line(indent, text, Open)
    case Overrun => Line(indent, text, Open)
    case Keep(_) => Line(indent, text[..nl], if nl < |text| then Hard else Open)
    case Break(e, n) =>
      if e <= nl then Line(indent, text[..e], Soft(text[e..n])) else Line(indent, text[..nl], Clash(text[nl + 1..n]))
  }

  /** How much of the text that is. */
  function Length(text: string, s: Step): nat
    requires (s.Keep? ==> s.n <= |text|) && (s.Break? ==> s.e < s.n <= |text|)
  {
    match s
    case Partial => |text|
    case Overrun => |text|
    case Keep(n) => n
    case Break(_, n) => n
  }

  lemma PartialAlone(text: string, c: nat, right: nat)
    requires text != "" && c <= right && Decide(text, c, right).Partial?
    ensures '\n' !in text && c + |text| < right
  {
  }

  lemma KeepAlone(text: string, c: nat, right: nat)
    requires text != "" && c <= right && Decide(text, c, right).Keep? && NewlineAt(text, 0) == |text|
    ensures '\n' !in text && NoBlank(text) && Decide(text, c, right).n == |text|
  {
  }

  lemma OverrunEndsText(text: string, c: nat, right: nat)
    requires text != "" && c <= right && Decide(text, c, right).Overrun?
    ensures EndsExactly(text, c, right)
  {
  }

  lemma StepShape(text: string, c: nat, right: nat)
    requires text != "" && c <= right
    ensures var s, nl := Decide(text, c, right), NewlineAt(text, 0);
      && (s.Keep? ==> s.n == if nl < |text| then nl + 1 else nl)
      && (s.Break? ==> s.e <= nl || (s.e == nl + 1 && nl < |text|))
  {
  }

  lemma FirstSource(text: string, indent: nat, s: Step)
    requires s.Keep? ==> s.n == NewlineAt(text, 0) + 1 <= |text|
    requires s.Break? ==> s.e < s.n <= |text| && (s.e <= NewlineAt(text, 0) || s.e == NewlineAt(text, 0) + 1)
    ensures First(text, indent, s).Source() + text[Length(text, s)..] == text
  {
    hide NewlineAt, Line.Source;
    var nl := NewlineAt(text, 0);
    if s.Break? {
      if s.e <= nl {
        SoftSource(text, indent, s.e, s.n);
      } else {
        ClashSource(text, indent, nl, s.n);
      }
    } else if s.Keep? {
      HardSource(text, indent, nl);
    } else {
      OpenSource(text, indent);
    }
  }

  lemma OpenSource(text: string, indent: nat)
    ensures Line(indent, text, Open).Source() + text[|text|..] == text
  {
  }

  lemma HardSource(text: string, indent: nat, nl: nat)
    requires nl < |text| && text[nl] == '\n'
    ensures Line(indent, text[..nl], Hard).Source() + text[nl + 1..] == text
  {
  }

  lemma SoftSource(text: string, indent: nat, e: nat, n: nat)
    requires e <= n <= |text|
    ensures Line(indent, text[..e], Soft(text[e..n])).Source() + text[n..] == text
  {
  }

  lemma ClashSource(text: string, indent: nat, nl: nat, n: nat)
    requires nl < n <= |text| && text[nl] == '\n'
    ensures Line(indent, text[..nl], Clash(text[nl + 1..n])).Source() + text[n..] == text
  {
    assert text[..nl] + "\n" + text[nl + 1..n] == text[..n];
  }

  lemma KeepEndsWell(text: string, indent: nat, c: nat, right: nat)
    requires text != "" && c <= right && Decide(text, c, right).Keep?
    ensures var s := Decide(text, c, right);
      EndsWell(c, First(text, indent, s), text[s.n..], right)
  {
    var nl := NewlineAt(text, 0);
    assert forall i :: 0 <= i < nl ==> text[..nl][i] == text[i];
  }

  lemma LateBreak(text: string, n: nat, c: nat, right: nat)
    requires c <= right && n <= right - c + 1 && right - c <= NewlineAt(text, 0) && n <= NewlineAt(text, 0)
    requires forall x :: n <= x <= right - c && x < |text| ==> !IsBlank(text[x])
    ensures forall q: nat :: WordTo(text[n..], q) ==> Passes(c + n + q, right, text[n..][q..])
  {
    forall q: nat | WordTo(text[n..], q) ensures Passes(c + n + q, right, text[n..][q..]) {
      if q < |text[n..]| {
        assert text[n..][q] == text[n + q];
        assert text[n..][q..][0] == text[n + q];
      }
    }
  }

  lemma BodyOf(text: string, e: nat, n: nat)
    requires e <= n <= |text|
    ensures forall x :: e <= x < n ==> text[e..n][x - e] == text[x]
    ensures OnlyBlanks(text[e..n]) <==> forall x :: e <= x < n ==> IsBlank(text[x])
    ensures NoBlank(text[..e]) <==> forall x :: 0 <= x < e ==> !IsBlank(text[x])
    ensures EndsBlank(text[..e]) <==> e > 0 && IsBlank(text[e - 1])
    ensures '\n' in text[..e] <==> exists x :: 0 <= x < e && text[x] == '\n'
  {
    forall x | e <= x < n ensures text[e..n][x - e] == text[x] {
    }
    if OnlyBlanks(text[e..n]) {
      forall x | e <= x < n ensures IsBlank(text[x]) {
        assert text[e..n][x - e] == text[x];
      }
    }
    if NoBlank(text[..e]) {
      forall x | 0 <= x < e ensures !IsBlank(text[x]) {
        assert text[..e][x] == text[x];
      }
    }
    if x :| 0 <= x < e && text[x] == '\n' {
      assert text[..e][x] == text[x];
    }
  }

  lemma WithinEndsWell(text: string, indent: nat, c: nat, right: nat, e: nat, n: nat)
    requires c <= right && n <= right - c + 1 && right - c <= NewlineAt(text, 0) && e < n <= NewlineAt(text, 0)
    requires forall x :: e <= x < n ==> IsBlank(text[x])
    requires e > 0 ==> !IsBlank(text[e - 1])
    requires forall x :: n <= x <= right - c && x < |text| ==> !IsBlank(text[x])
    ensures EndsWell(c, Line(indent, text[..e], Soft(text[e..n])), text[n..], right)
  {
    LateBreak(text, n, c, right);
    BodyOf(text, e, n);
  }

  lemma BeyondEndsWell(text: string, indent: nat, c: nat, right: nat, e: nat, n: nat)
    requires c <= right && right - c < e < n <= |text| && e < NewlineAt(text, 0)
    requires forall x :: e <= x < n ==> IsBlank(text[x])
    requires forall x :: 0 <= x < e ==> !IsBlank(text[x])
    requires n < |text| ==> !IsBlank(text[n])
    ensures EndsWell(c, Line(indent, text[..e], Soft(text[e..n])), text[n..], right)
  {
    BodyOf(text, e, n);
    assert n < |text| ==> text[n..][0] == text[n];
  }

  lemma ClashEndsWell(text: string, indent: nat, c: nat, right: nat, nl: nat, n: nat)
    requires c <= right && nl == NewlineAt(text, 0) == right - c && nl + 1 < n <= |text|
    requires forall x :: 0 <= x < nl ==> !IsBlank(text[x])
    requires forall x :: nl + 2 <= x < n ==> IsBlank(text[x])
    requires n < |text| ==> !IsBlank(text[n])
    ensures EndsWell(c, Line(indent, text[..nl], Clash(text[nl + 1..n])), text[n..], right)
  {
    BodyOf(text, nl, nl + 1);
    BodyOf(text, nl + 2, n);
    assert text[nl + 1..n][1..] == text[nl + 2..n];
    assert n < |text| ==> text[n..][0] == text[n];
  }

  lemma BreakEndsWell(text: string, indent: nat, c: nat, right: nat)
    requires text != "" && c <= right && Decide(text, c, right).Break?
    ensures var s := Decide(text, c, right);
      EndsWell(c, First(text, indent, s), text[s.n..], right)
  {
    hide EndsWell;
    var s, k, nl := Decide(text, c, right), right - c, NewlineAt(text, 0);
    if LastBlank(text, k) >= 0 {
      WithinEndsWell(text, indent, c, right, s.e, s.n);
    } else if k == nl {
      ClashEndsWell(text, indent, c, right, nl, s.n);
    } else {
      BeyondEndsWell(text, indent, c, right, s.e, s.n);
    }
  }

  /** Some lines of `text` begin at column `c`. */
  lemma {:induction false} SomeLines(text: string, indent: nat, c: nat, m: Margins) returns (lines: seq<Line>)
    requires m.Valid() && c <= m.right && StaysInside(text, Code(c), m)
    ensures Typeset(lines, text, indent, c, m)
    decreases |text|
  {
    hide EndsWell, Typeset, Decide, EndsExactly;
    if text == "" {
      Alone("", indent, c, m);
      lines := [Line(indent, "", Open)];
    } else {
      var s := Decide(text, c, m.right);
      var l := First(text, indent, s);
      StepShape(text, c, m.right);
      assert !EndsExactly(text, c, m.right);
      match s
      case Partial =>
        PartialAlone(text, c, m.right);
        Alone(text, indent, c, m);
        lines := [l];
      case Overrun =>
        OverrunEndsText(text, c, m.right);
        lines := [];
      case Keep(n) =>
        KeepEndsWell(text, indent, c, m.right);
        if NewlineAt(text, 0) == |text| {
          KeepAlone(text, c, m.right);
          Alone(text, indent, c, m);
          lines := [Line(indent, text, Open)];
        } else {
          var indent' := if text[n..] == "" then 0 else m.left;
          lines := SomeLines(text[n..], indent', indent', m);
          FirstSource(text, indent, s);
          Cons(l, lines, text[n..], indent, indent', c, m);
          lines := [l] + lines;
        }
      case Break(e, n) =>
        lines := SomeLines(text[n..], m.wrap, m.wrap, m);
        BreakEndsWell(text, indent, c, m.right);
        FirstSource(text, indent, s);
        Cons(l, lines, text[n..], indent, m.wrap, c, m);
        lines := [l] + lines;
    }
  }

  // ----- And they are the layout's

  /** The step that ends a line so. */
  function StepOf(l: Line, right: nat, c: nat): Step {
    match l.end
    case Open => if c + |l.body| < right then Partial else Keep(|l.body|)
    case Hard => Keep(|l.body| + 1)
    case Soft(gap) => Break(|l.body|, |l.body| + |gap|)
    case Clash(gap) => Break(|l.body| + 1, |l.body| + 1 + |gap|)
  }

  lemma OpenDecides(c: nat, l: Line, right: nat)
    requires c <= right && l.end.Open? && EndsWell(c, l, "", right) && l.body != "" && !EndsExactly(l.body, c, right)
    ensures Decide(l.body, c, right) == StepOf(l, right, c)
  {
  }

  lemma HardDecides(c: nat, l: Line, rest: string, right: nat)
    requires c <= right && l.end.Hard? && EndsWell(c, l, rest, right)
    ensures Decide(l.Source() + rest, c, right) == StepOf(l, right, c)
  {
    var text := l.Source() + rest;
    assert forall i :: 0 <= i < |l.body| ==> text[i] == l.body[i];
    assert text[|l.body|] == '\n' && NewlineAt(text, 0) == |l.body|;
  }

  lemma ClashDecides(c: nat, l: Line, rest: string, right: nat)
    requires c <= right && l.end.Clash? && EndsWell(c, l, rest, right)
    ensures Decide(l.Source() + rest, c, right) == StepOf(l, right, c)
  {
    var text, b, gap := l.Source() + rest, l.body, l.end.gap;
    assert forall i :: 0 <= i < |b| ==> text[i] == b[i];
    assert text[|b|] == '\n' && NewlineAt(text, 0) == |b|;
    var n := |b| + 1 + |gap|;
    forall i | |b| + 2 <= i < n ensures IsBlank(text[i]) {
      assert text[i] == gap[1..][i - |b| - 2];
    }
    assert n < |text| ==> text[n] == rest[0];
  }

  lemma DecideWithin(text: string, c: nat, right: nat, e: nat, n: nat)
    requires c <= right && n <= right - c + 1 && right - c <= NewlineAt(text, 0) && e < n <= NewlineAt(text, 0)
    requires forall x :: e <= x < n ==> IsBlank(text[x])
    requires e > 0 ==> !IsBlank(text[e - 1])
    requires forall x :: n <= x <= right - c && x < |text| ==> !IsBlank(text[x])
    ensures Decide(text, c, right) == Break(e, n)
  {
    assert IsBlank(text[n - 1]) && LastBlank(text, right - c) == n - 1;
    assert RunStart(text, n - 1) == e;
  }

  lemma DecideBeyond(text: string, c: nat, right: nat, e: nat, n: nat)
    requires c <= right && right - c < e < n <= |text| && e < NewlineAt(text, 0)
    requires forall x :: e <= x < n ==> IsBlank(text[x])
    requires forall x :: 0 <= x < e ==> !IsBlank(text[x])
    requires n < |text| ==> !IsBlank(text[n])
    ensures Decide(text, c, right) == Break(e, n)
  {
    assert LastBlank(text, right - c) == -1;
    assert IsBlank(text[e]) && WordEnd(text, right - c + 1, NewlineAt(text, 0)) == e;
    assert SkipBlanks(text, e + 1) == n;
  }

  lemma SoftPlaces(l: Line, rest: string)
    requires l.end.Soft? && '\n' !in l.body && l.end.gap != "" && OnlyBlanks(l.end.gap) && !EndsBlank(l.body)
    ensures var text, e, n := l.Source() + rest, |l.body|, |l.body| + |l.end.gap|;
      && e < n <= NewlineAt(text, 0) && n <= |text| && text[n..] == rest
      && (forall x :: e <= x < n ==> IsBlank(text[x])) && (e > 0 ==> !IsBlank(text[e - 1]))
      && (forall x :: 0 <= x < e ==> text[x] == l.body[x])
  {
    var text, e, n := l.Source() + rest, |l.body|, |l.body| + |l.end.gap|;
    assert forall x :: 0 <= x < e ==> text[x] == l.body[x];
    assert forall x :: e <= x < n ==> text[x] == l.end.gap[x - e];
  }

  /** Every text has a first word. */
  lemma SomeWord(s: string) returns (q: nat)
    ensures WordTo(s, q)
  {
    q := WordEnd(s, 0, NewlineAt(s, 0));
  }

  lemma WordPlaces(text: string, n: nat, q: nat)
    requires n <= |text| && WordTo(text[n..], q)
    ensures n + q <= |text|
    ensures forall x :: n <= x < n + q ==> !IsBlank(text[x]) && text[x] != '\n'
    ensures n + q < |text| ==> IsBlank(text[n + q]) || text[n + q] == '\n'
    ensures StartsBlank(text[n..][q..]) <==> n + q < |text| && IsBlank(text[n + q])
  {
    forall x | n <= x < n + q ensures !IsBlank(text[x]) && text[x] != '\n' {
      assert text[n..][..q][x - n] == text[x];
    }
    assert n + q < |text| ==> text[n..][q..][0] == text[n + q];
  }

  /** The converse of LateBreak. */
  lemma LateWord(text: string, n: nat, c: nat, right: nat)
    requires c <= right && n <= right - c + 1 && n <= NewlineAt(text, 0)
    requires forall q: nat :: WordTo(text[n..], q) ==> Passes(c + n + q, right, text[n..][q..])
    ensures right - c <= NewlineAt(text, 0)
    ensures forall x :: n <= x <= right - c && x < |text| ==> !IsBlank(text[x])
  {
    hide WordTo, StartsBlank;
    var q := SomeWord(text[n..]);
    assert Passes(c + n + q, right, text[n..][q..]);
    WordPlaces(text, n, q);
  }

  lemma SoftDecides(c: nat, l: Line, rest: string, right: nat)
    requires c <= right && l.end.Soft? && EndsWell(c, l, rest, right)
    ensures Decide(l.Source() + rest, c, right) == StepOf(l, right, c)
  {
    hide Decide, Line.Source;
    var text, e, n := l.Source() + rest, |l.body|, |l.body| + |l.end.gap|;
    SoftPlaces(l, rest);
    if c + e <= right {
      LateWord(text, n, c, right);
      DecideWithin(text, c, right, e, n);
    } else {
      assert n < |text| ==> text[n] == rest[0];
      DecideBeyond(text, c, right, e, n);
    }
  }

  lemma Uncons(lines: seq<Line>, text: string, indent: nat, c: nat, m: Margins)
    requires Typeset(lines, text, indent, c, m)
    ensures var l, rest := lines[0], Source(lines[1..]);
      && l.indent == indent && EndsWell(c, l, rest, m.right) && (l.end.Open? <==> |lines| == 1)
      && text == l.Source() + rest
      && (|lines| > 1 ==>
            var indent' := if !l.end.Hard? then m.wrap else if rest == "" then 0 else m.left;
            Typeset(lines[1..], rest, indent', indent', m))
  {
    hide EndsWell;
    var l, tail := lines[0], lines[1..];
    assert LineWell(lines, 0, indent, c, m);
    if |lines| > 1 {
      assert LineWell(lines, 1, indent, c, m);
      var indent' := Indent(lines, 1, m);
      forall i | 0 <= i < |tail| ensures LineWell(tail, i, indent', indent', m) {
        assert LineWell(lines, i + 1, indent, c, m);
        assert tail[i..] == lines[i + 1..] && tail[i + 1..] == lines[i + 2..] && tail[i] == lines[i + 1];
        if i > 0 {
          assert tail[i - 1] == lines[i];
        }
      }
    }
  }

  /** Behind a newline of the text the left margin comes first, if anything follows. */
  lemma AfterNewline(rest: string, m: Margins)
    requires m.Valid() && rest != ""
    ensures Lay(rest, 0, m).text == Spaces(m.left) + Lay(rest, Code(m.left), m).text
    ensures Lay(rest, 0, m).col == Lay(rest, Code(m.left), m).col
    ensures StaysInside(rest, 0, m) == StaysInside(rest, Code(m.left), m)
  {
    if m.left == 0 {
      assert Spaces(0) + Lay(rest, -1, m).text == Lay(rest, -1, m).text;
    }
  }

  /** The column behind the last line. */
  function LastColumn(lines: seq<Line>, c: nat, m: Margins): int
    requires lines != []
  {
    var n := |lines| - 1;
    var l, start := lines[n], if n == 0 then c else lines[n].indent;
    if l.body != "" then if start + |l.body| < m.right then start + |l.body| else 0
    else if n == 0 then Code(c)
    else if lines[n - 1].end.Hard? then 0
    else WrapColumn(m)
  }

  /** How much of a line stays. */
  function Kept(l: Line): string {
    if l.end.Hard? || l.end.Clash? then l.body + "\n" else l.body
  }

  lemma KeptFirst(l: Line, rest: string)
    ensures var text := l.Source() + rest;
      |Kept(l)| <= |l.Source()| && text[..|Kept(l)|] == Kept(l) && text[|l.Source()|..] == rest
  {
  }

  /** What a first line does to the layout: `col` is the column behind it. */
  lemma FirstLays(l: Line, rest: string, c: nat, m: Margins, col: int)
    requires m.Valid() && c <= m.right && !l.end.Open? && EndsWell(c, l, rest, m.right)
    requires StaysInside(l.Source() + rest, Code(c), m) && col == if l.end.Hard? then 0 else WrapColumn(m)
    ensures StaysInside(rest, col, m)
    ensures var s, r := Lay(l.Source() + rest, Code(c), m), Lay(rest, col, m);
      s.text == Kept(l) + (if l.end.Hard? then "" else "\n" + Spaces(m.wrap)) + r.text && s.col == r.col
  {
    var text := l.Source() + rest;
    assert Decide(text, c, m.right) == StepOf(l, m.right, c) by {
      match l.end
      case Hard => HardDecides(c, l, rest, m.right);
      case Soft(_) => SoftDecides(c, l, rest, m.right);
      case Clash(_) => ClashDecides(c, l, rest, m.right);
    }
    assert text != "" by {
      assert |l.Source()| > 0;
    }
    hide Decide, EndsWell, EndsExactly;
    KeptFirst(l, rest);
    assert Kept(l) + "\n" + Spaces(m.wrap) == Kept(l) + ("\n" + Spaces(m.wrap));
    assert Kept(l) + "" == Kept(l);
  }

  lemma OpenLays(l: Line, c: nat, m: Margins)
    requires m.Valid() && c <= m.right && l.end.Open? && EndsWell(c, l, "", m.right)
    requires StaysInside(l.body, Code(c), m)
    ensures Lay(l.body, Code(c), m).text == l.body && l.Shown() == Spaces(l.indent) + l.body
    ensures l.body != "" ==> Lay(l.body, Code(c), m).col == if c + |l.body| < m.right then c + |l.body| else 0
  {
    if l.body != "" {
      OpenDecides(c, l, m.right);
      assert l.body[|l.body|..] == "" && l.body[..|l.body|] == l.body;
    }
  }

  lemma OneLine(lines: seq<Line>)
    requires |lines| == 1
    ensures Source(lines) == lines[0].Source() && Shown(lines) == lines[0].Shown()
  {
    assert lines[1..] == [];
  }

  lemma NothingLeft(lines: seq<Line>, indent: nat, c: nat, m: Margins)
    requires Typeset(lines, "", indent, c, m)
    ensures lines == [Line(indent, "", Open)]
  {
    Uncons(lines, "", indent, c, m);
    assert |lines[0].Source()| == 0;
  }

  lemma ShownBehind(l: Line, m: Margins, rest: string)
    requires !l.end.Open?
    ensures var margin := if l.end.Hard? then "" else Spaces(m.wrap);
      var more := if l.end.Hard? then "" else "\n" + Spaces(m.wrap);
      l.Shown() + (margin + rest) == Spaces(l.indent) + (Kept(l) + more + rest)
  {
    var margin := if l.end.Hard? then "" else Spaces(m.wrap);
    var more := if l.end.Hard? then "" else "\n" + Spaces(m.wrap);
    assert l.Shown() + margin == Spaces(l.indent) + (Kept(l) + more);
    ConcatAssociates(l.Shown(), margin, rest);
    ConcatAssociates(Spaces(l.indent), Kept(l) + more, rest);
  }

  lemma SameLast(lines: seq<Line>, indent': nat, c: nat, m: Margins)
    requires |lines| > 1 && lines[1].indent == indent' && (|lines| == 2 ==> lines[1].body != "")
    ensures LastColumn(lines, c, m) == LastColumn(lines[1..], indent', m)
  {
  }

  /** The lines show the layout, and it ends at their last column. */
  ghost predicate Shows(lines: seq<Line>, text: string, indent: nat, c: nat, m: Margins)
    requires m.Valid() && c <= m.right && lines != []
  {
    && Shown(lines) == Spaces(indent) + Lay(text, Code(c), m).text
    && (text != "" ==> Lay(text, Code(c), m).col == LastColumn(lines, c, m))
  }

  /** Then so do the lines behind the first: `col` is the column behind it. */
  lemma TailShows(lines: seq<Line>, indent': nat, c: nat, m: Margins, col: int)
    requires m.Valid() && |lines| > 1
    requires var hard, rest := lines[0].end.Hard?, Source(lines[1..]);
      && indent' == (if !hard then m.wrap else if rest == "" then 0 else m.left)
      && col == (if hard then 0 else WrapColumn(m))
      && Typeset(lines[1..], rest, indent', indent', m) && Shows(lines[1..], rest, indent', indent', m)
    ensures var margin, r := if lines[0].end.Hard? then "" else Spaces(m.wrap), Lay(Source(lines[1..]), col, m);
      Shown(lines[1..]) == margin + r.text && LastColumn(lines, c, m) == r.col
  {
    hide Typeset, EndsWell, StaysInside, Line.Source, Line.Shown, Decide, Source, Shown;
    var tail, rest := lines[1..], Source(lines[1..]);
    Uncons(tail, rest, indent', indent', m);
    if rest == "" {
      NothingLeft(tail, indent', indent', m);
      EmptyShown(indent');
    } else {
      if lines[0].end.Hard? {
        AfterNewline(rest, m);
      }
      if |tail| == 1 {
        OneLine(tail);
        OpenText(tail[0]);
      }
      hide Lay;
      SameLast(lines, indent', c, m);
    }
  }

  /** Lines that end well show the layout. */
  lemma {:induction false} TypesetLay(lines: seq<Line>, text: string, indent: nat, c: nat, m: Margins)
    requires m.Valid() && c <= m.right && Typeset(lines, text, indent, c, m) && StaysInside(text, Code(c), m)
    ensures lines != [] && Shows(lines, text, indent, c, m)
    decreases |lines|
  {
    assert lines != [];
    hide Typeset, EndsWell, Line.Source, Line.Shown, Decide, Lay, LastColumn;
    var l, tail := lines[0], lines[1..];
    var rest := Source(tail);
    Uncons(lines, text, indent, c, m);
    if |lines| == 1 {
      OneLine(lines);
      OpenText(l);
      OpenLays(l, c, m);
      OpenLast(lines, c, m);
    } else {
      hide Source, Kept;
      var indent' := if !l.end.Hard? then m.wrap else if rest == "" then 0 else m.left;
      var col := if l.end.Hard? then 0 else WrapColumn(m);
      FirstLays(l, rest, c, m, col);
      StillInside(rest, m, indent', col);
      hide StaysInside;
      TypesetLay(tail, rest, indent', indent', m);
      TailShows(lines, indent', c, m, col);
      ShownBehind(l, m, Lay(rest, col, m).text);
    }
  }

  lemma StillInside(rest: string, m: Margins, indent': nat, col: int)
    requires m.Valid() && -1 <= col <= m.right && StaysInside(rest, col, m)
    requires if col == 0 then indent' == (if rest == "" then 0 else m.left) else Code(indent') == col
    ensures indent' <= m.right ==> StaysInside(rest, Code(indent'), m)
  {
    if rest != "" && col == 0 {
      AfterNewline(rest, m);
    }
  }

  lemma OpenLast(lines: seq<Line>, c: nat, m: Margins)
    requires |lines| == 1
    ensures lines[0].body != "" ==>
      LastColumn(lines, c, m) == if c + |lines[0].body| < m.right then c + |lines[0].body| else 0
  {
  }

  lemma OpenText(l: Line)
    requires l.end.Open?
    ensures l.Source() == l.body
  {
  }

  lemma EmptyShown(indent: nat)
    ensures Shown([Line(indent, "", Open)]) == Spaces(indent)
  {
    assert [Line(indent, "", Open)][1..] == [];
  }

  // ----- The layout is exactly such lines

  /** The blanks in front of the first line, and the column it then begins at. */
  function Before(text: string, col: int, m: Margins): nat {
    if col == 0 && text != "" then m.left else 0
  }

  function Column(text: string, col: int, m: Margins): nat {
    if col > 0 then col else Before(text, col, m)
  }

  ghost predicate IsLayout(lines: seq<Line>, text: string, col: int, m: Margins) {
    Typeset(lines, text, Before(text, col, m), Column(text, col, m), m)
  }

  lemma LayFrom(text: string, col: int, m: Margins)
    requires m.Valid() && -1 <= col <= m.right && StaysInside(text, col, m)
    ensures var c := Column(text, col, m);
      && StaysInside(text, Code(c), m)
      && Lay(text, col, m).text == Spaces(Before(text, col, m)) + Lay(text, Code(c), m).text
      && (text != "" ==> Lay(text, col, m).col == Lay(text, Code(c), m).col)
  {
    if text != "" && col == 0 {
      AfterNewline(text, m);
    } else {
      assert Spaces(0) + Lay(text, Code(Column(text, col, m)), m).text == Lay(text, Code(Column(text, col, m)), m).text;
    }
  }

  /**
   A text that the scan does not leave is laid out as `out` if and only if some lines that end well are made of it and
   show `out`; and the column behind the layout is that of their last line.
   */
  lemma LayIff(text: string, col: int, m: Margins, out: string)
    requires m.Valid() && -1 <= col <= m.right && StaysInside(text, col, m)
    ensures Lay(text, col, m).text == out <==> exists lines :: IsLayout(lines, text, col, m) && Shown(lines) == out
    ensures forall lines :: IsLayout(lines, text, col, m) && text != "" ==>
      lines != [] && Lay(text, col, m).col == LastColumn(lines, Column(text, col, m), m)
  {
    hide Lay, Typeset, Shown, StaysInside, LastColumn;
    var indent, c := Before(text, col, m), Column(text, col, m);
    LayFrom(text, col, m);
    forall lines | IsLayout(lines, text, col, m)
      ensures lines != [] && Shown(lines) == Lay(text, col, m).text
      ensures text != "" ==> Lay(text, col, m).col == LastColumn(lines, c, m)
    {
      SomeLine(lines, text, indent, c, m);
      TypesetLay(lines, text, indent, c, m);
    }
    var some := SomeLines(text, indent, c, m);
    assert IsLayout(some, text, col, m);
  }

  lemma SomeLine(lines: seq<Line>, text: string, indent: nat, c: nat, m: Margins)
    requires Typeset(lines, text, indent, c, m)
    ensures lines != []
  {
  }

  /** With any margins every line of a layout, with what stands before it, fits the right margin or holds no blank. */
  lemma LinesFit(lines: seq<Line>, text: string, col: int, m: Margins, i: nat)
    requires IsLayout(lines, text, col, m) && i < |lines|
    ensures var c := if i == 0 then Column(text, col, m) else lines[i].indent;
      '\n' !in lines[i].body && (c + |lines[i].body| <= m.right || NoBlank(lines[i].body))
  {
    assert LineWell(lines, i, Before(text, col, m), Column(text, col, m), m);
  }

  /** A line is broken as late as it can be: no blank is left behind the break up to the margin, nor any before it if
      the break is behind the margin; and a long line that is kept holds no blank. */
  lemma BreaksLate(rest: string, c: nat, right: nat)
    requires rest != "" && c <= right && !ExactFit(rest, c, right, _ => true)
    ensures var s, k, nl := Decide(rest, c, right), right - c, NewlineAt(rest, 0);
      && (s.Break? ==>
            && (s.e == 0 || !IsBlank(rest[s.e - 1])) && (forall x :: s.n <= x <= k && x < nl ==> !IsBlank(rest[x]))
            && (k < s.e ==> forall x :: 0 <= x < s.e ==> !IsBlank(rest[x])))
      && (s.Keep? && k <= nl ==> forall x :: 0 <= x < nl ==> !IsBlank(rest[x]))
  {
  }

  /** Of three blanks within the margin the last one is broken at. */
  lemma BreaksAtTheLastBlank()
    ensures Lay("a b c d", 0, Margins(0, 6, 0)).text == "a b c\nd"
  {
    var s := "a b c d";
    assert NewlineAt(s, 0) == 7 && LastBlank(s, 6) == LastBlank(s, 5) == 5 && RunStart(s, 5) == 5;
    assert s[6..] == "d" && s[..5] == "a b c" && Decide("d", 0, 6) == Partial;
    assert "a b c" + "\n" + Spaces(0) + "d" == "a b c\nd";
  }

  /** Wrapping without margins: from column 0, with no exact fit, the text keeps its words and only trades blanks for
      line breaks; every finished line fits or has nothing to break at; and no line ends while the next word fits. */
  lemma WrapsWords(rest: string, m: Margins)
    requires m.Valid() && m.left == m.wrap == 0
    requires Avoids(rest, 0, m, IsSolid)
    ensures Rewraps(rest, Lay(rest, 0, m).text)
    ensures LinesOk(Lay(rest, 0, m).text, m.right)
    ensures StaysInside(rest, 0, m) ==>
      exists lines :: IsLayout(lines, rest, 0, m) && Shown(lines) == Lay(rest, 0, m).text
  {
    hide Lay, IsLayout, StaysInside, Avoids, Rewraps, LinesOk;
    LayRewraps(rest, 0, m);
    LayLinesOk(rest, 0, m);
    if StaysInside(rest, 0, m) {
      LayIff(rest, 0, m, Lay(rest, 0, m).text);
    }
  }
}
