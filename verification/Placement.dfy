/**
 What a scan makes of file and buffer, exactly. Layout does not depend on the buffer's capacity, but whether the blanks
 of a margin find room does: if they do not, they go to the file at once, ahead of what is still buffered.
 */
module Placement {
  import opened Text
  import opened Layout
  import opened Lines

  /** What file and allocator answer, input to every session: how many characters the file takes of the `i`-th text it
      is given, if there are so many, and whether the allocator grants the `i`-th request. */
  datatype World = World(takes: nat -> nat, grants: nat -> bool)

  function Least(a: nat, b: nat): nat {
    if a < b then a else b
  }

  /** What the file is given in one go: by the scan itself, which does not look whether it takes it all, or from the
      buffer, which gives up only the characters that are `taken`. */
  datatype Piece = Direct(s: string) | Offered(s: string, taken: nat) {
    /** What of it has left the buffer. */
    function Out(): string {
      if Direct? then s else s[..Least(taken, |s|)]
    }
  }

  function Flat(sent: seq<Piece>): string {
    if sent == [] then "" else Flat(sent[..|sent| - 1]) + sent[|sent| - 1].Out()
  }

  lemma FlatMore(sent: seq<Piece>, x: Piece)
    ensures Flat(sent + [x]) == Flat(sent) + x.Out()
  {
    assert (sent + [x])[..|sent|] == sent;
  }

  /** What the file takes of the text `s`, given to it as the `i`-th. */
  function Taken(world: World, i: nat, s: string): nat {
    Least(world.takes(i), |s|)
  }

  /** What the file then holds. */
  function Arrived(sent: seq<Piece>, world: World): string {
    if sent == [] then ""
    else
      var n := |sent| - 1;
      Arrived(sent[..n], world) + sent[n].s[..Taken(world, n, sent[n].s)]
  }

  /** The buffer has been told how much the file took. */
  ghost predicate Told(sent: seq<Piece>, world: World) {
    forall i :: 0 <= i < |sent| && sent[i].Offered? ==> sent[i].taken == Taken(world, i, sent[i].s)
  }

  lemma ArrivedMore(sent: seq<Piece>, x: Piece, world: World)
    ensures Arrived(sent + [x], world) == Arrived(sent, world) + x.s[..Taken(world, |sent|, x.s)]
    ensures Told(sent + [x], world)
      <==> Told(sent, world) && (x.Offered? ==> x.taken == Taken(world, |sent|, x.s))
  {
    var all := sent + [x];
    assert all[..|sent|] == sent && all[|sent|] == x;
    assert forall i :: 0 <= i < |sent| ==> all[i] == sent[i];
  }

  /** If the scans have given nothing to the file themselves, it holds all that has left the buffer. */
  lemma {:induction false} OfferedArrives(sent: seq<Piece>, world: World)
    requires Told(sent, world) && forall i :: 0 <= i < |sent| ==> sent[i].Offered?
    ensures Arrived(sent, world) == Flat(sent)
    decreases |sent|
  {
    if sent != [] {
      var n := |sent| - 1;
      assert forall i :: 0 <= i < n ==> sent[..n][i] == sent[i];
      OfferedArrives(sent[..n], world);
      assert sent[n].taken == Taken(world, n, sent[n].s);
    }
  }

  /**
   A scan under way: all that has gone to the file, the buffered text already scanned, the column behind it, whether
   margin blanks have overtaken buffered text, and whether the scan has left the text.
   */
  datatype Desk = Desk(sent: seq<Piece>, text: string, col: int, overtook: bool, overrun: bool) {
    function Output(): string {
      Flat(sent) + text
    }
  }

  /** A left margin, before `len` characters that are still to be scanned. */
  function Margined(d: Desk, len: nat, m: Margins, cap: nat): Desk {
    if |d.text| + len + m.left < cap then d.(text := d.text + Spaces(m.left), col := m.left)
    else d.(sent := d.sent + [Direct(Spaces(m.left))], overtook := d.overtook || d.text != "", col := m.left)
  }

  /** The blanks of the wrap margin do not fit in the gap that a break from `e` to `n` leaves. */
  predicate Tight(e: nat, n: nat, m: Margins) {
    n - (e + 1) < m.wrap
  }

  /**
   A line break from `e` to `n`. The margin fills the gap. If the gap is too small, the rest is moved up to make room,
   or the line is written out; but if there is no rest, the margin overtakes the line.
   */
  function Broken(d: Desk, rest: string, e: nat, n: nat, m: Margins, cap: nat): Desk
    requires e < n <= |rest|
  {
    var line, margin := d.text + rest[..e], Spaces(m.wrap);
    var out := d.sent + [Direct(line)] + [Direct("\n")];
    var d' := d.(col := WrapColumn(m));
    if !Tight(e, n, m) || (n < |rest| && cap - (|d.text| + |rest|) > m.wrap + 1) then d'.(text := line + "\n" + margin)
    else if n == |rest| then d'.(sent := d.sent + [Direct(margin)], text := line + "\n", overtook := true)
    else if |d.text| + n >= m.wrap then d'.(sent := out, text := margin)
    else d'.(sent := out + [Direct(margin)], text := "")
  }

  /** The scan of `rest` in a buffer of size `cap`. */
  function Fill(d: Desk, rest: string, m: Margins, cap: nat): Desk
    requires m.Valid() && d.col <= m.right
    decreases |rest|, if d.col == 0 then 1 else 0
  {
    if rest == "" then d
    else if d.col == 0 && m.left != 0 then Fill(Margined(d, |rest|, m, cap), rest, m, cap)
    else
      var c := if d.col < 0 then 0 else d.col;
      match Decide(rest, c, m.right)
      case Partial => d.(text := d.text + rest, col := c + |rest|)
      case Overrun => d.(text := d.text + rest, col := WrapColumn(m), overrun := true)
      case Keep(n) => Fill(d.(text := d.text + rest[..n], col := 0), rest[n..], m, cap)
      case Break(e, n) => Fill(Broken(d, rest, e, n, m, cap), rest[n..], m, cap)
  }

  lemma FillNothing(d: Desk, m: Margins, cap: nat)
    requires m.Valid() && d.col <= m.right
    ensures Fill(d, "", m, cap) == d
  {
  }

  /** The scan of `rest` past the left margin leads to `f` by the step `s`. */
  ghost predicate Proceeds(d: Desk, rest: string, s: Step, m: Margins, cap: nat, f: Desk)
    requires m.Valid() && (s.Keep? ==> s.n <= |rest|) && (s.Break? ==> s.e < s.n <= |rest|)
  {
    match s
    case Partial => f == d.(text := d.text + rest, col := (if d.col < 0 then 0 else d.col) + |rest|)
    case Overrun => f == d.(text := d.text + rest, col := WrapColumn(m), overrun := true)
    case Keep(n) => f == Fill(d.(text := d.text + rest[..n], col := 0), rest[n..], m, cap)
    case Break(e, n) => f == Fill(Broken(d, rest, e, n, m, cap), rest[n..], m, cap)
  }

  lemma FillLine(d: Desk, rest: string, m: Margins, cap: nat)
    requires m.Valid() && d.col <= m.right && rest != "" && !(d.col == 0 && m.left != 0)
    ensures Proceeds(d, rest, Decide(rest, if d.col < 0 then 0 else d.col, m.right), m, cap, Fill(d, rest, m, cap))
  {
  }

  /** The newline of a break is put behind `line` in the buffer, or goes out with it. */
  predicate LineOut(d: Desk, len: nat, e: nat, n: nat, m: Margins, cap: nat, line: string,
                    sent: seq<Piece>, text: string) {
    if Tight(e, n, m) && n < len && cap - (|d.text| + len) <= m.wrap + 1
    then sent == d.sent + [Direct(line)] + [Direct("\n")] && text == ""
    else sent == d.sent && text == line + "\n"
  }

  /** Where the rest stands then. */
  function Behind(d: Desk, len: nat, e: nat, n: nat, m: Margins, cap: nat): nat {
    if Tight(e, n, m) && n < len && cap - (|d.text| + len) > m.wrap + 1 then |d.text| + e + 1 + m.wrap
    else |d.text| + n
  }

  /** Then the margin fills the gap, or goes out. */
  predicate MarginOut(gap: int, m: Margins, sent: seq<Piece>, text: string, sent': seq<Piece>, text': string) {
    if gap >= m.wrap then sent' == sent && text' == text + Spaces(m.wrap)
    else sent' == sent + [Direct(Spaces(m.wrap))] && text' == text
  }

  lemma BrokenAs(d: Desk, rest: string, e: nat, n: nat, m: Margins, cap: nat, line: string,
      sent: seq<Piece>, text: string, sent': seq<Piece>, text': string)
    requires e < n <= |rest| && line == d.text + rest[..e]
    requires LineOut(d, |rest|, e, n, m, cap, line, sent, text)
    requires MarginOut(Behind(d, |rest|, e, n, m, cap) - |text|, m, sent, text, sent', text')
    ensures Broken(d, rest, e, n, m, cap)
      == Desk(sent', text', WrapColumn(m), d.overtook || (Tight(e, n, m) && n == |rest|), d.overrun)
  {
    assert "" + Spaces(m.wrap) == Spaces(m.wrap);
  }

  lemma {:induction false} FillColumn(d: Desk, rest: string, m: Margins, cap: nat)
    requires m.Valid() && -1 <= d.col <= m.right
    ensures -1 <= Fill(d, rest, m, cap).col <= m.right
    decreases |rest|, if d.col == 0 then 1 else 0
  {
    hide Decide;
    if rest == "" {
    } else if d.col == 0 && m.left != 0 {
      FillColumn(Margined(d, |rest|, m, cap), rest, m, cap);
    } else {
      match Decide(rest, if d.col < 0 then 0 else d.col, m.right)
      case Partial => PartialFits(rest, if d.col < 0 then 0 else d.col, m.right);
      case Overrun =>
      case Keep(n) => FillColumn(d.(text := d.text + rest[..n], col := 0), rest[n..], m, cap);
      case Break(e, n) => FillColumn(Broken(d, rest, e, n, m, cap), rest[n..], m, cap);
    }
  }

  /** The blanks of a left margin stay in the buffer exactly if they leave a character of it free. */
  lemma MarginStays(d: Desk, len: nat, m: Margins, cap: nat)
    ensures var d' := Margined(d, len, m, cap);
      && (d'.sent == d.sent <==> |d.text| + len + m.left < cap)
      && |d'.text| == |d.text| + if d'.sent == d.sent then m.left else 0
  {
    assert |d.sent + [Direct(Spaces(m.left))]| == |d.sent| + 1;
  }

  /** A line break leaves line and margin in the buffer exactly if the margin fills no more than what was removed behind
      the newline, or text follows and there is room for newline and margin behind it, with a character to spare. */
  lemma BreakStays(d: Desk, rest: string, e: nat, n: nat, m: Margins, cap: nat)
    requires e < n <= |rest|
    ensures var d' := Broken(d, rest, e, n, m, cap);
      d'.sent == d.sent <==> e + 1 + m.wrap <= n || (n < |rest| && |d.text| + |rest| + m.wrap + 1 < cap)
  {
    var d' := Broken(d, rest, e, n, m, cap);
    assert d'.sent != d.sent ==> |d'.sent| > |d.sent|;
  }

  // ----- When blanks overtake text

  /** Where the scan goes on after a break of the text at `b`, of length `len`. */
  function AfterBreak(b: nat, e: nat, n: nat, len: nat, m: Margins, cap: nat): nat {
    if !Tight(e, n, m) || (n < len && cap - (b + len) > m.wrap + 1) then b + e + 1 + m.wrap
    else if n == len then b + e + 1
    else if b + n >= m.wrap then m.wrap
    else 0
  }

  /**
   The guards of the failure, line by line: `rest` stands at `b` and ends the text in a buffer of size `cap`. A left
   margin overtakes what stands before its line if it does not fit behind the text; a wrap margin overtakes its line
   if it does not fit in the gap and nothing follows.
   */
  predicate Overtakes(rest: string, col: int, m: Margins, b: nat, cap: nat)
    requires m.Valid() && col <= m.right
    decreases |rest|, if col == 0 then 1 else 0
  {
    if rest == "" then false
    else if col == 0 && m.left != 0 then
      if b + |rest| + m.left < cap then Overtakes(rest, m.left, m, b + m.left, cap)
      else b > 0 || Overtakes(rest, m.left, m, b, cap)
    else
      match Decide(rest, if col < 0 then 0 else col, m.right)
      case Partial => false
      case Overrun => false
      case Keep(n) => Overtakes(rest[n..], 0, m, b + n, cap)
      case Break(e, n) =>
        || (Tight(e, n, m) && n == |rest|)
        || Overtakes(rest[n..], WrapColumn(m), m, AfterBreak(b, e, n, |rest|, m, cap), cap)
  }

  lemma MarginPlace(d: Desk, len: nat, m: Margins, cap: nat)
    ensures var d', fits := Margined(d, len, m, cap), |d.text| + len + m.left < cap;
      && d'.col == m.left && |d'.text| == |d.text| + (if fits then m.left else 0)
      && d'.overtook == (d.overtook || (!fits && |d.text| > 0))
  {
  }

  lemma BreakPlace(d: Desk, rest: string, e: nat, n: nat, m: Margins, cap: nat)
    requires e < n <= |rest|
    ensures var d' := Broken(d, rest, e, n, m, cap);
      && d'.col == WrapColumn(m) && |d'.text| == AfterBreak(|d.text|, e, n, |rest|, m, cap)
      && d'.overtook == (d.overtook || (Tight(e, n, m) && n == |rest|))
  {
  }

  lemma {:induction false} OvertakesIff(d: Desk, rest: string, m: Margins, cap: nat)
    requires m.Valid() && d.col <= m.right
    ensures Fill(d, rest, m, cap).overtook <==> d.overtook || Overtakes(rest, d.col, m, |d.text|, cap)
    decreases |rest|, if d.col == 0 then 1 else 0
  {
    hide Decide, Margined, Broken, AfterBreak, Tight;
    if rest == "" {
    } else if d.col == 0 && m.left != 0 {
      MarginPlace(d, |rest|, m, cap);
      OvertakesIff(Margined(d, |rest|, m, cap), rest, m, cap);
    } else {
      match Decide(rest, if d.col < 0 then 0 else d.col, m.right)
      case Partial =>
      case Overrun =>
      case Keep(n) => OvertakesIff(d.(text := d.text + rest[..n], col := 0), rest[n..], m, cap);
      case Break(e, n) =>
        BreakPlace(d, rest, e, n, m, cap);
        OvertakesIff(Broken(d, rest, e, n, m, cap), rest[n..], m, cap);
    }
  }

  /** Without margins nothing is overtaken. */
  lemma {:induction false} NoMarginOvertakes(rest: string, col: int, m: Margins, b: nat, cap: nat)
    requires m.Valid() && col <= m.right && m.left == m.wrap == 0
    ensures !Overtakes(rest, col, m, b, cap)
    decreases |rest|
  {
    hide Decide, AfterBreak;
    if rest != "" {
      match Decide(rest, if col < 0 then 0 else col, m.right)
      case Partial =>
      case Overrun =>
      case Keep(n) => NoMarginOvertakes(rest[n..], 0, m, b + n, cap);
      case Break(e, n) => NoMarginOvertakes(rest[n..], WrapColumn(m), m, AfterBreak(b, e, n, |rest|, m, cap), cap);
    }
  }

  // ----- The scan gives the layout

  /** Where a line begins, what stands before it ends in a newline or a word. */
  predicate Solid(text: string, col: int) {
    col == 0 && text != "" ==> !IsBlank(text[|text| - 1])
  }

  /** From `d` a scan has come to `f`, which is to be the layout `l` of what was left. */
  ghost predicate Gives(d: Desk, f: Desk, l: Laid) {
    && f.overrun == (d.overrun || l.overrun)
    && (!f.overrun ==> f.col == l.col && Solid(f.text, f.col)
                       && (exists moved ::
                         Same(f.Output(), d.Output() + l.text, moved) && f.overtook == (d.overtook || moved)))
  }

  /** One step of the scan, from `d` to `d'`, that lays out `prefix`. */
  lemma GivesStep(d: Desk, d': Desk, f: Desk, l: Laid, prefix: string, replaced: string, moved: bool)
    requires Gives(d', f, l) && d'.overrun == d.overrun && d'.overtook == (d.overtook || moved)
    requires Same(d'.Output(), d.Output() + prefix, moved)
    ensures Gives(d, f, l.After(prefix, replaced))
  {
    if !f.overrun {
      var m' :| Same(f.Output(), d'.Output() + l.text, m') && f.overtook == (d'.overtook || m');
      SameAppend(d'.Output(), d.Output() + prefix, l.text, moved);
      ConcatAssociates(d.Output(), prefix, l.text);
      SameTrans(f.Output(), d'.Output() + l.text, d.Output() + (prefix + l.text), m', moved);
    }
  }

  lemma GivesEnd(d: Desk, rest: string, col: int)
    requires Solid(d.text + rest, col)
    ensures Gives(d, d.(text := d.text + rest, col := col), Laid(rest, col, "", false))
  {
    var f := d.(text := d.text + rest, col := col);
    ConcatAssociates(Flat(d.sent), d.text, rest);
    assert Same(f.Output(), d.Output() + rest, false);
  }

  lemma MarginGives(d: Desk, len: nat, m: Margins, cap: nat) returns (moved: bool)
    requires Solid(d.text, 0)
    ensures var d' := Margined(d, len, m, cap);
      && d'.col == m.left && d'.overrun == d.overrun
      && (m.left > 0 ==> d'.overtook == (d.overtook || moved) && Same(d'.Output(), d.Output() + Spaces(m.left), moved))
  {
    hide Flat, BlanksEarlier, Strip;
    moved := |d.text| + len + m.left >= cap && d.text != "";
    var out, margin := Flat(d.sent), Spaces(m.left);
    FlatMore(d.sent, Direct(margin));
    if m.left > 0 {
      if |d.text| + len + m.left < cap {
        ConcatAssociates(out, d.text, margin);
      } else if moved {
        StripEnds(d.text);
        MoveBlanks(out, d.text, margin, "");
        assert out + margin + d.text + "" == out + margin + d.text;
        assert out + d.text + margin + "" == out + d.text + margin;
      } else {
        assert out + margin + d.text == out + d.text + margin;
      }
    }
  }

  lemma BreakGives(d: Desk, rest: string, e: nat, n: nat, m: Margins, cap: nat) returns (moved: bool)
    requires e < n <= |rest|
    ensures var d' := Broken(d, rest, e, n, m, cap);
      && d'.col == WrapColumn(m) && d'.overtook == (d.overtook || moved) && d'.overrun == d.overrun
      && Same(d'.Output(), d.Output() + (rest[..e] + "\n" + Spaces(m.wrap)), moved)
  {
    hide Flat, BlanksEarlier, Strip;
    var d' := Broken(d, rest, e, n, m, cap);
    var out, line, margin := Flat(d.sent), d.text + rest[..e] + "\n", Spaces(m.wrap);
    var whole := d.Output() + (rest[..e] + "\n" + margin);
    assert whole == out + line + margin;
    moved := Tight(e, n, m) && n == |rest|;
    if moved {
      FlatMore(d.sent, Direct(margin));
      assert line[|line| - 1] == '\n';
      StripEnds(line);
      MoveBlanks(out, line, margin, "");
      assert out + margin + line + "" == d'.Output() && out + line + margin + "" == whole;
    } else {
      LineFlat(d.sent, d.text + rest[..e], margin);
      assert d'.Output() == out + line + margin;
    }
  }

  lemma LineFlat(sent: seq<Piece>, line: string, margin: string)
    ensures var out := sent + [Direct(line)] + [Direct("\n")];
      Flat(out) == Flat(sent) + (line + "\n") && Flat(out + [Direct(margin)]) == Flat(sent) + (line + "\n") + margin
  {
    hide Flat;
    var out := sent + [Direct(line)] + [Direct("\n")];
    FlatMore(sent, Direct(line));
    FlatMore(sent + [Direct(line)], Direct("\n"));
    FlatMore(out, Direct(margin));
    ConcatAssociates(Flat(sent), line, "\n");
  }

  /**
   A scan gives the layout of what was left, whatever the capacity, exactly unless margin blanks overtook text, and
   then but for blanks that stand strictly earlier; it ends at the column of the layout, and leaves the text exactly
   when the layout does.
   */
  lemma {:induction false} FillGives(d: Desk, rest: string, m: Margins, cap: nat)
    requires m.Valid() && d.col <= m.right && Solid(d.text, d.col)
    ensures Gives(d, Fill(d, rest, m, cap), Lay(rest, d.col, m))
    decreases |rest|, if d.col == 0 then 1 else 0
  {
    hide Gives, Decide, Margined, Broken, Same;
    var f := Fill(d, rest, m, cap);
    if rest == "" {
      assert d.text + "" == d.text;
      GivesEnd(d, "", d.col);
    } else if d.col == 0 && m.left != 0 {
      var d' := Margined(d, |rest|, m, cap);
      var moved := MarginGives(d, |rest|, m, cap);
      FillGives(d', rest, m, cap);
      GivesStep(d, d', f, Lay(rest, m.left, m), Spaces(m.left), "", moved);
    } else {
      var c := if d.col < 0 then 0 else d.col;
      match Decide(rest, c, m.right)
      case Partial => GivesEnd(d, rest, c + |rest|);
      case Overrun => OverrunGives(d, rest, c, m);
      case Keep(n) =>
        var d' := d.(text := d.text + rest[..n], col := 0);
        KeepEndsSolid(rest, c, m.right);
        FillGives(d', rest[n..], m, cap);
        KeepGives(d, rest[..n]);
        GivesStep(d, d', f, Lay(rest[n..], 0, m), rest[..n], "", false);
      case Break(e, n) =>
        var d' := Broken(d, rest, e, n, m, cap);
        var moved := BreakGives(d, rest, e, n, m, cap);
        FillGives(d', rest[n..], m, cap);
        GivesStep(d, d', f, Lay(rest[n..], WrapColumn(m), m), rest[..e] + "\n" + Spaces(m.wrap), rest[e..n], moved);
    }
  }

  lemma KeepGives(d: Desk, line: string)
    ensures Same(d.(text := d.text + line, col := 0).Output(), d.Output() + line, false)
  {
    ConcatAssociates(Flat(d.sent), d.text, line);
  }

  lemma OverrunGives(d: Desk, rest: string, col: int, m: Margins)
    ensures Gives(d, d.(text := d.text + rest, col := WrapColumn(m), overrun := true), Laid(rest, col, "", true))
  {
  }

  // ----- What that says of the output, where the scan stays inside the text

  /** The output has the ink of what was there and of what was scanned, in order, exactly if no line is an exact fit
      with ink behind it. */
  lemma OutputKeepsInkIff(d: Desk, rest: string, m: Margins, cap: nat)
    requires m.Valid() && d.col <= m.right && Solid(d.text, d.col) && !d.overrun && StaysInside(rest, d.col, m)
    ensures Ink(Fill(d, rest, m, cap).Output()) == Ink(d.Output() + rest) <==> Avoids(rest, d.col, m, IsInk)
  {
    hide Fill, Lay, Ink, Avoids, StaysInside;
    var f, l := Fill(d, rest, m, cap), Lay(rest, d.col, m);
    FillGives(d, rest, m, cap);
    OverrunIff(rest, d.col, m);
    var moved :| Same(f.Output(), d.Output() + l.text, moved);
    InkOfStrip(f.Output());
    InkOfStrip(d.Output() + l.text);
    InkConcat(d.Output(), l.text);
    InkConcat(d.Output(), rest);
    assert (Ink(d.Output()) + Ink(l.text))[|Ink(d.Output())|..] == Ink(l.text);
    assert (Ink(d.Output()) + Ink(rest))[|Ink(d.Output())|..] == Ink(rest);
    ConservesInkIff(rest, d.col, m);
  }

  /** Unless margin blanks overtake text, what comes behind the output are the lines of the layout, and the scan ends at
      the column behind the last one. */
  lemma OutputLines(d: Desk, rest: string, m: Margins, cap: nat)
    requires m.Valid() && -1 <= d.col <= m.right && Solid(d.text, d.col) && !d.overrun && StaysInside(rest, d.col, m)
    requires !d.overtook && !Overtakes(rest, d.col, m, |d.text|, cap)
    ensures var f := Fill(d, rest, m, cap);
      exists lines :: IsLayout(lines, rest, d.col, m) && f.Output() == d.Output() + Shown(lines)
                      && (rest != "" ==> lines != [] && f.col == LastColumn(lines, Column(rest, d.col, m), m))
  {
    hide Fill, Lay, IsLayout, StaysInside, Shown, Overtakes, LastColumn;
    var l := Lay(rest, d.col, m);
    FillGives(d, rest, m, cap);
    OverrunIff(rest, d.col, m);
    OvertakesIff(d, rest, m, cap);
    LayIff(rest, d.col, m, l.text);
    var lines :| IsLayout(lines, rest, d.col, m) && Shown(lines) == l.text;
  }

  /** Without margins and exact fits a scan trades blanks for line breaks and does nothing else, every finished line
      fits or holds no blank, and no line ends while the next word fits. */
  lemma OutputWraps(rest: string, m: Margins, cap: nat)
    requires m.Valid() && m.left == m.wrap == 0 && StaysInside(rest, 0, m) && Avoids(rest, 0, m, IsSolid)
    ensures var f := Fill(Desk([], "", 0, false, false), rest, m, cap);
      && !f.overrun && Rewraps(rest, f.Output()) && LinesOk(f.Output(), m.right)
      && exists lines :: IsLayout(lines, rest, 0, m) && f.Output() == Shown(lines)
  {
    hide Fill, Lay, Avoids, StaysInside, Rewraps, LinesOk, IsLayout;
    var d := Desk([], "", 0, false, false);
    FillGives(d, rest, m, cap);
    OverrunIff(rest, 0, m);
    OvertakesIff(d, rest, m, cap);
    NoMarginOvertakes(rest, 0, m, 0, cap);
    WrapsWords(rest, m);
    assert d.Output() + Lay(rest, 0, m).text == Lay(rest, 0, m).text;
  }

  // ----- A scan that overtakes

  lemma BreaksAtBlank()
    ensures Decide("abcd ", 0, 5) == Break(4, 5)
  {
    assert NewlineAt("abcd ", 0) == 5;
    assert LastBlank("abcd ", 5) == LastBlank("abcd ", 4) == 4 && RunStart("abcd ", 4) == 4;
  }

  /** A line broken at its last blank, with nothing behind: the margin goes ahead of it. */
  lemma CanOvertake()
    ensures Fill(Desk([], "", 0, false, false), "abcd ", Margins(0, 5, 3), 200)
         == Desk([Direct("   ")], "abcd\n", 3, true, false)
    ensures Overtakes("abcd ", 0, Margins(0, 5, 3), 0, 200)
    ensures Lay("abcd ", 0, Margins(0, 5, 3)).text == "abcd\n   "
  {
    BreaksAtBlank();
    assert "abcd "[5..] == "" && "abcd "[..4] == "abcd" && Spaces(3) == "   ";
    OvertakesIff(Desk([], "", 0, false, false), "abcd ", Margins(0, 5, 3), 200);
  }
}
