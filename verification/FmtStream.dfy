/**
 argp-fmtstream's output buffer: text is appended at `p`, wrapped in place by `Update`, and moved to the file. Each
 method is proved to make the step of `Session` exactly, buffer and file included; what sessions keep is proved there.
 */
module FmtStream {
  import opened Text
  import opened Layout
  import opened Placement
  import opened History
  import opened Session

  method MoveText(a: array<char>, dst: nat, src: nat, n: nat)
    requires dst + n <= a.Length && src + n <= a.Length
    modifies a
    ensures a[..dst] == old(a[..dst])
    ensures a[dst..dst + n] == old(a[src..src + n])
    ensures a[dst + n..] == old(a[dst + n..])
  {
    forall i | 0 <= i < n {
      a[dst + i] := a[src + i];
    }
  }

  method CloseGap(a: array<char>, dst: nat, src: nat, n: nat)
    requires dst <= src && src + n <= a.Length
    modifies a
    ensures a[..dst] == old(a[..dst])
    ensures a[dst..dst + n] == old(a[src..src + n])
  {
    if dst < src {
      MoveText(a, dst, src, n);
    }
  }

  method FillSpaces(a: array<char>, at: nat, n: nat)
    requires at + n <= a.Length
    modifies a
    ensures a[..at + n] == old(a[..at]) + Spaces(n)
    ensures a[at + n..] == old(a[at + n..])
  {
    forall i | 0 <= i < n {
      a[at + i] := ' ';
    }
  }

  method InsertSpaces(a: array<char>, at: nat, end: nat, n: nat)
    requires at <= end && end + n <= a.Length
    modifies a
    ensures a[..at + n] == old(a[..at]) + Spaces(n)
    ensures a[at + n..end + n] == old(a[at..end])
  {
    ghost var before, text := a[..at], a[at..end];
    MoveText(a, at + n, at, end - at);
    ghost var behind := a[at + n..];
    assert behind[..end - at] == a[at + n..at + n + (end - at)] == text;
    assert a[..at] == a[..at + n][..at] == before;
    FillSpaces(a, at, n);
    assert a[at + n..end + n] == a[at + n..][..end - at] == behind[..end - at];
  }

  /** Ends the line at `at`, before `lo`. */
  method PutNewline(a: array<char>, at: nat, ghost lo: nat, ghost hi: nat)
    requires at < lo <= hi <= a.Length
    modifies a
    ensures a[..at + 1] == old(a[..at]) + "\n"
    ensures a[lo..hi] == old(a[lo..hi])
  {
    a[at] := '\n';
    assert a[..at] == old(a[..at]);
  }

  class FmtStream {
    const world: World            // what file and allocator answer
    var file: string              // what the file holds
    var writes: nat               // how many texts it has been given
    var asked: nat                // how often the allocator has been asked for more room
    var left: nat
    var right: nat
    var wrap: nat
    var offs: nat                 // wrapped up to here
    var col: int                  // the column there, or -1 for 0 without left margin
    var buf: array<char>
    var p: nat                    // end of the text in `buf`

    ghost var sent: seq<Piece>    // all that the file has been given
    ghost var chunks: seq<Chunk>  // every scan so far, up to the first that left the text
    ghost var overrun: bool       // a scan has left the text

    /** The file holds what it has taken of that, and the buffer has been told of it. */
    ghost predicate Filed()
      reads `file, `writes, `sent
    {
      file == Arrived(sent, world) && Told(sent, world) && writes == |sent|
    }

    ghost predicate Inside()
      reads this
    {
      p <= buf.Length && -1 <= col <= right && Shape().Valid() && Filed()
    }

    ghost predicate Valid()
      reads this
    {
      Inside() && offs <= p
    }

    function Shape(): Margins
      reads this
    {
      Margins(left, right, wrap)
    }

    ghost function Now(): (v: State)
      requires Valid()
      reads this, buf
      ensures v.Ok()
    {
      if overrun then Lost(chunks) else Live(Shape(), col, sent, buf[..p], offs, buf.Length, asked, chunks)
    }

    constructor (left0: nat, right0: nat, wrap0: nat, world: World)
      requires Margins(left0, right0, wrap0).Valid()
      ensures Valid() && Now() == Start(Margins(left0, right0, wrap0)) && Shape() == Margins(left0, right0, wrap0)
      ensures this.world == world && file == "" && fresh(buf)
    {
      this.world := world;
      file, writes, asked, left, right, wrap := "", 0, 0, left0, right0, wrap0;
      offs, col, p := 0, 0, 0;
      buf := new char[200];
      sent, chunks, overrun := [], [], false;
    }

    // ----- Writes within a scan, whose outcome nobody looks at

    method Send(s: string)
      requires Filed()
      modifies `file, `writes, `sent
      ensures Filed() && sent == old(sent) + [Direct(s)]
    {
      hide Arrived, Told;
      ArrivedMore(sent, Direct(s), world);
      file := file + s[..Taken(world, writes, s)];
      writes, sent := writes + 1, sent + [Direct(s)];
    }

    /** Blank by blank; as many arrive as the file takes. */
    method SendSpaces(n: nat)
      requires Filed()
      modifies `file, `writes, `sent
      ensures Filed() && sent == old(sent) + [Direct(Spaces(n))]
    {
      hide Arrived, Told;
      ghost var before, m := file, Taken(world, writes, Spaces(n));
      var i := 0;
      while i < n
        invariant i <= n && sent == old(sent) && writes == old(writes)
        invariant file == before + Spaces(n)[..Least(i, m)]
      {
        if i < world.takes(writes) {
          assert Spaces(n)[..i + 1] == Spaces(n)[..i] + " ";
          file := file + " ";
        }
        i := i + 1;
      }
      ArrivedMore(sent, Direct(Spaces(n)), world);
      writes, sent := writes + 1, sent + [Direct(Spaces(n))];
    }

    method SendLine(nl: nat)
      requires Filed() && nl <= buf.Length
      modifies `file, `writes, `sent
      ensures Filed() && sent == old(sent) + [Direct(buf[..nl])] + [Direct("\n")]
    {
      hide Filed;
      Send(buf[..nl]);
      Send("\n");
    }

    // ----- The scan

    /** The scan stands at `b`. */
    ghost function Here(b: nat, overtook: bool): Desk
      requires b <= buf.Length
      reads this, buf
    {
      Desk(sent, buf[..b], col, overtook, false)
    }

    /** Move the tail up to leave room for a newline at `nl` and the wrap margin. */
    method OpenGap(b: nat, nl: nat, next0: nat) returns (next: nat, len: nat)
      requires b <= nl < next0 < p <= buf.Length && buf.Length - p > wrap + 1 && next0 - (nl + 1) < wrap
      modifies buf
      ensures next == nl + 1 + wrap && next < b + len <= buf.Length
      ensures buf[..nl] == old(buf[..nl]) && buf[next..b + len] == old(buf[next0..p])
    {
      var mv := p - next0;
      next := nl + 1 + wrap;
      len := next + mv - b;
      MoveText(buf, next, next0, mv);
      assert buf[..nl] == buf[..next][..nl] && old(buf[..nl]) == old(buf[..next])[..nl];
    }

    /** Write the newline at `nl0`, moving the tail up for the wrap margin or writing out the line if need be. */
    method EndLine(b0: nat, nl0: nat, next0: nat, ghost d: Desk, ghost e: nat, ghost n: nat)
      returns (b: nat, nl: nat, next: nat, len: nat)
      requires Filed() && b0 <= nl0 < next0 <= p <= buf.Length
      requires d.text == buf[..b0] && d.sent == sent && e == nl0 - b0 && n == next0 - b0
      modifies `file, `writes, `sent, buf
      ensures Filed() && b <= nl <= next <= b + len <= buf.Length
      ensures buf[next..b + len] == old(buf[next0..p])
      ensures LineOut(d, p - b0, e, n, Shape(), buf.Length, old(buf[..nl0]), sent, buf[..nl])
      ensures next == Placement.Behind(d, p - b0, e, n, Shape(), buf.Length)
    {
      hide Filed;
      b, nl, next, len := b0, nl0, next0, p - b0;
      if next - (nl + 1) < wrap && p > next {
        if buf.Length - p > wrap + 1 {
          next, len := OpenGap(b, nl, next);
          PutNewline(buf, nl, next, b + len);
          nl := nl + 1;
        } else {
          SendLine(nl);
          len := len + b;
          nl, b := 0, 0;
        }
      } else {
        PutNewline(buf, nl, next, p);
        nl := nl + 1;
      }
    }

    /** Put the wrap margin into the gap before `next`, or straight on the file. */
    method PutMargin(nl0: nat, next: nat, end: nat) returns (nl: nat)
      requires Filed() && nl0 <= next <= end <= buf.Length
      modifies `file, `writes, `sent, buf
      ensures Filed() && nl <= next && buf[next..end] == old(buf[next..end])
      ensures MarginOut(next - nl0, Shape(), old(sent), old(buf[..nl0]), sent, buf[..nl])
    {
      hide Filed;
      nl := nl0;
      if next - nl >= wrap {
        FillSpaces(buf, nl, wrap);
        nl := nl + wrap;
        assert buf[next..end] == old(buf[next..end]);
      } else {
        SendSpaces(wrap);
      }
    }

    /** Bring what is left of the text at `b0` back to `nl`. */
    method CloseUp(b0: nat, nl: nat, next: nat, len0: nat) returns (b: nat)
      requires nl <= next <= b0 + len0 <= buf.Length && b0 <= next
      modifies `p, buf
      ensures b == nl <= p <= buf.Length && p - b == b0 + len0 - next
      ensures buf[..b] == old(buf[..nl]) && buf[b..p] == old(buf[next..b0 + len0])
    {
      CloseGap(buf, nl, next, b0 + len0 - next);
      var len := len0 - (next - b0);
      b := nl;
      p := nl + len;
    }

    /** Put a line break and the wrap margin where the text from `e` to `n` behind `b0` stands. */
    method PutBreak(b0: nat, e: nat, n: nat, ghost d: Desk) returns (b: nat, nl: nat, next: nat, len: nat)
      requires Inside() && b0 <= b0 + e < b0 + n <= p && d == Here(b0, d.overtook)
      modifies `file, `writes, `sent, buf
      ensures Filed() && b <= next && nl <= next <= b + len <= buf.Length && buf[next..b + len] == old(buf[b0 + n..p])
      ensures Broken(d, old(buf[b0..p]), e, n, Shape(), buf.Length) == Desk(
        sent, buf[..nl], WrapColumn(Shape()), d.overtook || (Tight(e, n, Shape()) && n == p - b0), false)
    {
      hide Filed, Broken, LineOut, MarginOut, Placement.Behind, Tight, Margins.Valid;
      ghost var rest, m, cap := buf[b0..p], Shape(), buf.Length;
      ghost var line := buf[..b0 + e];
      assert d.text + rest[..e] == line;
      b, nl, next, len := EndLine(b0, b0 + e, b0 + n, d, e, n);
      ghost var sent1, text1 := sent, buf[..nl];
      nl := PutMargin(nl, next, b + len);
      BrokenAs(d, rest, e, n, m, cap, line, sent1, text1, sent, buf[..nl]);
    }

    /** Replace the text from `e` to `n` behind `b0` by a line break. */
    method BreakLine(b0: nat, e: nat, n: nat, ghost overtook0: bool) returns (b: nat, ghost overtook: bool)
      requires Inside() && b0 <= b0 + e < b0 + n <= p
      modifies `file, `writes, `sent, `p, `col, buf
      ensures Inside() && b <= p && buf[b..p] == old(buf[b0 + n..p])
      ensures Here(b, overtook) == Broken(old(Here(b0, overtook0)), old(buf[b0..p]), e, n, Shape(), buf.Length)
    {
      hide Filed, Broken, Tight;
      overtook := overtook0 || (Tight(e, n, Shape()) && n == p - b0);
      var nl, next, len;
      b, nl, next, len := PutBreak(b0, e, n, Here(b0, overtook0));
      b := CloseUp(b, nl, next, len);
      col := if wrap > 0 then wrap else -1;
    }

    /** Back from `q0` to a blank, or to just before `b`. */
    method BlankBack(b: nat, q0: nat) returns (q: int)
      requires b <= q0 <= p <= buf.Length
      ensures q == b + LastBlank(buf[b..p], q0 - b)
    {
      q := q0;
      while q >= b && !(q < p && IsBlank(buf[q]))
        invariant b - 1 <= q <= q0
        invariant LastBlank(buf[b..p], q - b) == LastBlank(buf[b..p], q0 - b)
      {
        q := q - 1;
      }
    }

    /** Back over the blanks before `q0`. */
    method RunBack(b: nat, q0: nat) returns (q: nat)
      requires b <= q0 <= p <= buf.Length
      ensures q == b + RunStart(buf[b..p], q0 - b)
    {
      q := q0;
      while q > b && IsBlank(buf[q - 1])
        invariant b <= q <= q0
        invariant RunStart(buf[b..p], q - b) == RunStart(buf[b..p], q0 - b)
      {
        q := q - 1;
      }
    }

    /** On to the blank after a long word, or to the end of its line. */
    method WordOn(b: nat, q0: nat, nl: nat) returns (q: nat)
      requires b <= q0 <= nl <= p <= buf.Length
      ensures q == b + WordEnd(buf[b..p], q0 - b, nl - b)
    {
      q := q0;
      while q < nl && !IsBlank(buf[q])
        invariant q0 <= q <= nl
        invariant WordEnd(buf[b..p], q - b, nl - b) == WordEnd(buf[b..p], q0 - b, nl - b)
      {
        q := q + 1;
      }
    }

    /** On over blanks; the byte past the text counts as non-blank. */
    method RunOn(b: nat, q0: nat) returns (q: nat)
      requires b <= q0 <= p <= buf.Length
      ensures q == b + SkipBlanks(buf[b..p], q0 - b)
    {
      q := q0;
      while q < p && IsBlank(buf[q])
        invariant q0 <= q <= p
        invariant SkipBlanks(buf[b..p], q - b) == SkipBlanks(buf[b..p], q0 - b)
      {
        q := q + 1;
      }
    }

    /** The line of `buf[b..p]` that ends at `nl` is too long: find where to break it. */
    method FindBreak(b: nat, nl: nat, k: nat) returns (s: Step)
      requires b < p && b + k <= nl <= p <= buf.Length
      ensures s == BreakLong(buf[b..p], nl - b, k)
    {
      hide LastBlank, RunStart, WordEnd, SkipBlanks;
      var q := BlankBack(b, b + k);
      if q >= b {
        var e := RunBack(b, q);
        return Break(e - b, q + 1 - b);
      }
      q := b + k;
      if q == nl {
        if nl + 1 >= p {
          return Overrun;
        }
        q := nl + 1;
      } else {
        q := WordOn(b, q + 1, nl);
        if q == nl {
          return Keep(if nl < p then nl + 1 - b else nl - b);
        }
      }
      var next := RunOn(b, q + 1);
      s := Break(q - b, next - b);
    }

    /** Start a line with the left margin. */
    method Indent(b0: nat, ghost overtook0: bool) returns (b: nat, ghost overtook: bool)
      requires Inside() && b0 <= p
      modifies `file, `writes, `sent, `p, `col, buf
      ensures Inside() && b <= p && col == left && buf[b..p] == old(buf[b0..p])
      ensures Here(b, overtook) == Margined(old(Here(b0, overtook0)), old(p) - b0, Shape(), buf.Length)
    {
      hide Filed;
      b, overtook := b0, overtook0;
      if p + left < buf.Length {
        InsertSpaces(buf, b, p, left);
        p := p + left;
        b := b + left;
      } else {
        SendSpaces(left);
        overtook := overtook0 || b > 0;
      }
      col := left;
    }

    /** What to do with the text at `b`. */
    method Choose(b: nat) returns (s: Step)
      requires Inside() && b < p && col >= 0
      ensures s == Decide(buf[b..p], col, right)
    {
      hide BreakLong, Filed, Margins.Valid;
      var nl := b + NewlineAt(buf[b..p], 0);
      if nl == p && col + (p - b) < right {
        return Partial;
      } else if nl < p && col + (nl - b) < right {
        return Keep(nl + 1 - b);
      }
      s := FindBreak(b, nl, right - col);
    }

    /** Where the scan that stands at `b` leads. */
    ghost function Leads(b: nat, overtook: bool): Desk
      requires Inside() && b <= p
      reads this, buf
    {
      Fill(Here(b, overtook), buf[b..p], Shape(), buf.Length)
    }

    /** A line is kept. */
    method KeepLine(b0: nat, n: nat, ghost overtook: bool, ghost d: Desk, ghost goal: Desk) returns (b: nat)
      requires Inside() && b0 <= b0 + n <= p && d == Here(b0, overtook).(col := d.col)
      requires Proceeds(d, buf[b0..p], Keep(n), Shape(), buf.Length, goal)
      modifies `col
      ensures Inside() && b == b0 + n && Leads(b, overtook) == goal
    {
      hide Filed, Fill;
      col := 0;
      b := b0 + n;
      assert buf[..b] == buf[..b0] + buf[b0..p][..n] && buf[b..p] == buf[b0..p][n..];
    }

    /** A line is broken, which sets the column whatever it was. */
    method WrapText(b0: nat, e: nat, n: nat, ghost overtook0: bool, ghost d: Desk, ghost goal: Desk)
      returns (b: nat, ghost overtook: bool)
      requires Inside() && b0 <= b0 + e < b0 + n <= p && d == Here(b0, overtook0).(col := d.col)
      requires Proceeds(d, buf[b0..p], Break(e, n), Shape(), buf.Length, goal)
      modifies `file, `writes, `sent, `p, `col, buf
      ensures Inside() && b <= p && p - b == old(p) - (b0 + n) && Leads(b, overtook) == goal
    {
      hide Filed, Fill, Tight;
      assert buf[b0..p][n..] == buf[b0 + n..p];
      b, overtook := BreakLine(b0, e, n, overtook0);
    }

    /** The rest stays as it is. */
    method StopLine(b: nat, s: Step, ghost overtook: bool, ghost d: Desk, ghost goal: Desk)
      requires Inside() && b < p && (s.Partial? || s.Overrun?) && col == (if d.col < 0 then 0 else d.col)
      requires d == Here(b, overtook).(col := d.col) && (s.Partial? ==> col + (p - b) <= right)
      requires Proceeds(d, buf[b..p], s, Shape(), buf.Length, goal)
      modifies `col, `overrun
      ensures Inside() && overrun == (old(overrun) || goal.overrun) && Here(p, overtook) == goal.(overrun := false)
    {
      hide Filed;
      assert buf[..b] + buf[b..p] == buf[..p];
      if s.Partial? {
        col := col + (p - b);
      } else {
        overrun := true;
        col := if wrap > 0 then wrap else -1;
      }
    }

    /** One round of the scan, after the margin: a line is kept or broken, or the scan stops. */
    method WrapLine(b0: nat, ghost overtook0: bool, ghost goal: Desk)
      returns (b: nat, stop: bool, ghost overtook: bool)
      requires Inside() && b0 < p && !(col == 0 && left != 0) && goal == Leads(b0, overtook0)
      modifies `file, `writes, `sent, `p, `col, `overrun, buf
      ensures Inside() && b <= p
      ensures !stop ==> p - b < old(p) - b0 && overrun == old(overrun) && Leads(b, overtook) == goal
      ensures stop ==> overrun == (old(overrun) || goal.overrun) && Here(p, overtook) == goal.(overrun := false)
    {
      hide Filed, Fill, Decide, Proceeds;
      ghost var d, rest := Here(b0, overtook0), buf[b0..p];
      FillLine(d, rest, Shape(), buf.Length);
      b, stop, overtook := b0, false, overtook0;
      if col < 0 {
        col := 0;
      }
      var s := Choose(b);
      match s {
        case Keep(n) =>
          b := KeepLine(b, n, overtook, d, goal);
        case Break(e, n) =>
          b, overtook := WrapText(b, e, n, overtook, d, goal);
        case Partial =>
          PartialFits(rest, col, right);
          StopLine(b, s, overtook, d, goal);
          stop := true;
        case Overrun =>
          StopLine(b, s, overtook, d, goal);
          stop := true;
      }
    }

    method Round(b0: nat, ghost overtook0: bool, ghost goal: Desk)
      returns (b: nat, stop: bool, ghost overtook: bool)
      requires Inside() && b0 < p && goal == Leads(b0, overtook0)
      modifies `file, `writes, `sent, `p, `col, `overrun, buf
      ensures Inside() && b <= p
      ensures !stop ==> p - b < old(p) - b0 && overrun == old(overrun) && Leads(b, overtook) == goal
      ensures stop ==> overrun == (old(overrun) || goal.overrun) && Here(p, overtook) == goal.(overrun := false)
    {
      hide Filed;
      b, overtook := b0, overtook0;
      if col == 0 && left != 0 {
        b, overtook := Indent(b, overtook);
      }
      b, stop, overtook := WrapLine(b, overtook, goal);
    }

    /** Scan the text from `offs` on. */
    method Scan(ghost goal: Desk)
      requires Valid() && goal == Leads(offs, false)
      modifies `file, `writes, `sent, `p, `offs, `col, `overrun, buf
      ensures Valid() && offs == p && overrun == (old(overrun) || goal.overrun)
      ensures goal == Desk(sent, buf[..p], col, goal.overtook, goal.overrun)
    {
      hide Filed, Fill;
      ghost var was, overtook := overrun, false;
      var b: nat, stop := offs, false;
      while b < p && !stop
        invariant Inside() && b <= p
        invariant if stop then Here(p, overtook) == goal.(overrun := false) && overrun == (was || goal.overrun)
                  else Leads(b, overtook) == goal && overrun == was
        decreases !stop, p - b
      {
        b, stop, overtook := Round(b, overtook, goal);
      }
      if !stop {
        assert buf[b..p] == "";
        FillNothing(Here(p, overtook), Shape(), buf.Length);
      }
      offs := p;
    }

    /** Wrap all text in the buffer: the step that `Session` says. */
    method Update()
      requires Valid()
      modifies `file, `writes, `sent, `p, `offs, `col, `overrun, `chunks, buf
      ensures Valid() && offs == p && Now() == Scanned(old(Now()))
    {
      hide Filed, Fill;
      ghost var goal, over := Leads(offs, false), overrun;
      ghost var s := Chunk(buf[offs..p], col, Shape(), offs, buf.Length);
      assert buf[..p][offs..] == buf[offs..p] && buf[..p][..offs] == buf[..offs];
      Scan(goal);
      if !over {
        chunks := chunks + [s];
      }
    }

    /** Scan only if there is something to scan. */
    method UpdatePending()
      requires Valid()
      modifies `file, `writes, `sent, `p, `offs, `col, `overrun, `chunks, buf
      ensures Valid() && offs == p && Now() == Settled(old(Now())) && (old(offs == p) ==> col == old(col))
    {
      hide Filed, Fill;
      if p > offs {
        Update();
      }
    }

    /** Hand the buffer to the file, which may take only part of it. */
    method Flush() returns (all: bool)
      requires Valid() && offs == p
      modifies `file, `writes, `sent, `p, `offs, buf
      ensures Valid() && offs == p
      ensures var text, n := old(buf[..p]), Taken(world, old(writes), old(buf[..p]));
        && sent == old(sent) + [Offered(text, n)] && buf[..p] == text[n..] && (all <==> n == |text|)
    {
      hide Arrived, Told;
      var wrote := Taken(world, writes, buf[..p]);
      ghost var text := buf[..p];
      ArrivedMore(sent, Offered(text, wrote), world);
      assert buf[..wrote] == text[..wrote];
      file, writes, sent := file + buf[..wrote], writes + 1, sent + [Offered(text, wrote)];
      all := wrote == p;
      if all {
        p, offs := 0, 0;
      } else {
        p, offs := p - wrote, offs - wrote;
        MoveText(buf, 0, wrote, p);
        assert buf[..p] == buf[0..0 + p] == text[wrote..];
      }
    }

    /** Flush the buffer, all of which is scanned, and grow it if it is too small. */
    method FlushAndGrow(amount: nat) returns (ok: bool)
      requires Valid() && offs == p
      modifies `file, `writes, `asked, `sent, `p, `offs, `buf, buf
      ensures Valid() && (buf == old(buf) || fresh(buf)) && (ok ==> p == 0 && amount <= buf.Length)
      ensures if old(overrun) then Now() == old(Now()) else Now() == Flushed(old(Now()), amount, world)
      ensures !old(overrun) ==>
        (ok <==> TakesAll(old(Now()), world) && (amount <= old(buf.Length) || world.grants(old(asked))))
    {
      hide Arrived, Told, Margins.Valid;
      ok := Flush();
      ghost var rest := buf[..p];
      if ok && buf.Length < amount {
        ok := world.grants(asked);
        asked := asked + 1;
        if ok {
          buf := new char[buf.Length + amount];
          assert rest == "" == buf[..p];
        }
      }
    }

    /** Make room for `amount` characters, by flushing and growing. It fails only for a short write or a refused
        allocation, and loses nothing. */
    method Ensure(amount: nat) returns (ok: bool)
      requires Valid()
      modifies this, buf
      ensures Valid() && Shape() == old(Shape()) && (buf == old(buf) || fresh(buf)) && (ok ==> p + amount <= buf.Length)
      ensures Now() == Roomy(old(Now()), amount, world)
      ensures Now().Live? ==> (ok <==> Granted(old(Now()), amount, world))
    {
      hide Filed, Fill, Flushed, TakesAll;
      ok := true;
      if buf.Length - p < amount {
        Update();
        ok := FlushAndGrow(amount);
      }
    }

    method Append(s: string)
      requires Valid() && p + |s| <= buf.Length
      modifies `p, buf
      ensures Valid() && p == old(p) + |s| && buf[..p] == old(buf[..p]) + s
    {
      forall i | 0 <= i < |s| {
        buf[p + i] := s[i];
      }
      p := p + |s|;
    }

    /** Append `s`, or refuse it as a whole. */
    method Write(s: string) returns (n: nat)
      requires Valid()
      modifies this, buf
      ensures Valid() && Shape() == old(Shape()) && (buf == old(buf) || fresh(buf))
      ensures Follows(old(Now()), OpWrite(s), world, Now()) && (n == |s| || n == 0)
      ensures Now().Live? ==> n == if Refused(old(Now()), OpWrite(s), world) then 0 else |s|
    {
      hide Filed, Scanned, Flushed, TakesAll;
      n := 0;
      var ok := p + |s| <= buf.Length;
      if !ok {
        ok := Ensure(|s|);
      }
      if ok {
        Append(s);
        n := |s|;
      }
    }

    method Putc(c: char) returns (ok: bool)
      requires Valid()
      modifies this, buf
      ensures Valid() && Shape() == old(Shape()) && (buf == old(buf) || fresh(buf))
      ensures Follows(old(Now()), OpPutc(c), world, Now())
      ensures Now().Live? ==> (ok <==> !Refused(old(Now()), OpPutc(c), world))
    {
      hide Filed, Scanned, Flushed, TakesAll;
      ok := p < buf.Length;
      if !ok {
        ok := Ensure(1);
      }
      if ok {
        Append([c]);
      }
    }

    /** Text written so far is wrapped with the old margins before new ones apply. */
    method SetLeft(n: nat) returns (was: nat)
      requires Valid() && n <= right
      modifies this, buf
      ensures Valid() && Shape() == old(Shape()).(left := n) && was == old(left) && buf == old(buf)
      ensures Follows(old(Now()), OpLeft(n), world, Now())
    {
      hide Filed, Scanned;
      UpdatePending();
      was := left;
      left := n;
    }

    method SetWrap(n: nat) returns (was: nat)
      requires Valid() && n <= right
      modifies this, buf
      ensures Valid() && Shape() == old(Shape()).(wrap := n) && was == old(wrap) && buf == old(buf)
      ensures Follows(old(Now()), OpWrap(n), world, Now())
    {
      hide Filed, Scanned;
      UpdatePending();
      was := wrap;
      wrap := n;
    }

    /** The new right margin must not lie left of the column that Point gives: there the source computes addresses
        before the line. */
    method SetRight(n: nat) returns (was: nat)
      requires Valid() && left <= n && wrap <= n
      requires n >= right || (offs == p && col <= n) || (Settled(Now()).Live? && Settled(Now()).Point() <= n)
      modifies this, buf
      ensures Valid() && Shape() == old(Shape()).(right := n) && was == old(right) && buf == old(buf)
      ensures Follows(old(Now()), OpRight(n), world, Now())
    {
      hide Filed, Scanned;
      UpdatePending();
      was := right;
      right := n;
    }

    /** The column of the output point. */
    method Point() returns (c: nat)
      requires Valid()
      modifies this, buf
      ensures Valid() && Shape() == old(Shape()) && buf == old(buf) && offs == p && c <= right
      ensures Follows(old(Now()), OpPoint, world, Now()) && c == (if col >= 0 then col else 0)
    {
      hide Filed, Scanned;
      UpdatePending();
      c := if col >= 0 then col else 0;
    }

    /** Sets the right margin only if it does not lie left of the output point. */
    method TrySetRight(n: nat) returns (ok: bool)
      requires Valid() && left <= n && wrap <= n
      modifies this, buf
      ensures Valid() && buf == old(buf) && Follows(old(Now()), OpRight(n), world, Now())
      ensures Shape() == if ok then old(Shape()).(right := n) else old(Shape())
      ensures (ok || n < old(right)) && (Now().Live? ==> (ok <==> !Refused(old(Now()), OpRight(n), world)))
    {
      hide Filed, Fill;
      var c := Point();
      ok := c <= n;
      if ok {
        var was := SetRight(n);
      }
    }

    /** Wrap and hand over everything. A short write leaves a tail behind, which is then dropped. */
    method Free() returns (lost: string)
      requires Valid()
      modifies `file, `writes, `sent, `p, `offs, `col, `overrun, `chunks, buf
      ensures Filed()
      ensures var v := Scanned(old(Now()));
        v.Live? ==> sent == AllSent(v, world) && file == EndFile(v, world) && lost == EndLost(v, world)
    {
      hide Scanned, Arrived, Told;
      Update();
      lost := "";
      if p > 0 {
        var wrote := Taken(world, writes, buf[..p]);
        ghost var text := buf[..p];
        ArrivedMore(sent, Offered(text, wrote), world);
        assert text[..wrote] == buf[..wrote] && text[wrote..] == buf[wrote..p];
        lost := buf[wrote..p];
        file, writes, sent := file + buf[..wrote], writes + 1, sent + [Offered(text, wrote)];
      }
    }
  }

  // ----- Whole sessions

  /** One call on the stream. */
  method Apply(fs: FmtStream, op: Op) returns (ok: bool)
    requires fs.Valid() && Set(fs.Shape(), op).Valid()
    modifies fs, fs.buf
    ensures fs.Valid() && (fs.buf == old(fs.buf) || fresh(fs.buf)) && Follows(old(fs.Now()), op, fs.world, fs.Now())
    ensures fs.Now().Live? ==> (ok <==> !Refused(old(fs.Now()), op, fs.world))
    ensures || fs.Shape() == Set(old(fs.Shape()), op)
            || (fs.Shape() == old(fs.Shape()) && op.OpRight? && op.n < fs.Shape().right)
  {
    hide Scanned, Flushed, TakesAll;
    ok := true;
    match op
    case OpWrite(s) =>
      var n := fs.Write(s);
      ok := n == |s|;
    case OpPutc(c) => ok := fs.Putc(c);
    case OpEnsure(n) => ok := fs.Ensure(n);
    case OpLeft(n) => var was := fs.SetLeft(n);
    case OpWrap(n) => var was := fs.SetWrap(n);
    case OpRight(n) => ok := fs.TrySetRight(n);
    case OpPoint => var c := fs.Point();
  }

  /** The stream is where the first `n` calls have led. */
  ghost predicate Underway(fs: FmtStream, m: Margins, ops: seq<Op>, world: World, n: nat)
    requires AllValid(m, ops) && n <= |ops|
    reads fs, fs.buf
  {
    && fs.Valid() && fs.world == world
    && fs.Now() == StateAt(m, ops, world, n) && Wider(SetAll(m, ops, n), fs.Shape())
  }

  /** The next call. */
  method Call(fs: FmtStream, m: Margins, ops: seq<Op>, ghost world: World, n: nat) returns (ok: bool)
    requires AllValid(m, ops) && n < |ops| && Underway(fs, m, ops, world, n)
    modifies fs, fs.buf
    ensures fs.buf == old(fs.buf) || fresh(fs.buf)
    ensures Underway(fs, m, ops, world, n + 1) && AnsweredAt(m, ops, world, n, ok)
  {
    hide Called, Refused, Margins.Valid, StateAt;
    assert SetAll(m, ops, n).Valid() && SetAll(m, ops, n + 1).Valid();
    StillWider(SetAll(m, ops, n), fs.Shape(), ops[n]);
    Next(m, ops, world, n);
    ok := Apply(fs, ops[n]);
  }

  /**
   Any calls on a new stream, ended by freeing it, are the session that the machine makes of them, with the answers of
   file and allocator that `world` holds: so are the answers to the calls. Unless a scan left the text, file and dropped
   tail are the session's; the scans made account for the output; and they are of all that was handed over, each
   character under the margins of its call.
   */
  method Run(m: Margins, ops: seq<Op>, world: World) returns (file: string, lost: string, oks: seq<bool>)
    requires AllValid(m, ops)
    ensures |oks| == |ops| && Answered(m, ops, world, oks)
    ensures var v, handed := Scanned(StateAt(m, ops, world, |ops|)), HandedAll(m, ops, world, |ops|); v.Live? ==>
      && file == EndFile(v, world) && lost == EndLost(v, world)
      && Accounts(v.chunks, v.Output()) && AllMarks(v.chunks) == handed && AllText(v.chunks) == Letters(handed)
  {
    hide Margins.Valid, Scanned, StateAt, AnsweredAt, EndFile, EndLost, Accounts, AllMarks, AllText, HandedAll;
    assert SetAll(m, ops, 0).Valid();
    var fs := new FmtStream(m.left, m.right, m.wrap, world);
    oks := [];
    Beginning(m, ops, world);
    while |oks| < |ops|
      invariant |oks| <= |ops| && fresh(fs) && fresh(fs.buf)
      invariant Underway(fs, m, ops, world, |oks|) && Answered(m, ops, world, oks)
      decreases |ops| - |oks|
    {
      var ok := Call(fs, m, ops, world, |oks|);
      oks := oks + [ok];
    }
    lost := fs.Free();
    file := fs.file;
    EndAccounts(m, ops, world);
  }

  lemma Beginning(m: Margins, ops: seq<Op>, world: World)
    requires AllValid(m, ops)
    ensures StateAt(m, ops, world, 0) == Start(m) && Wider(SetAll(m, ops, 0), m) && Answered(m, ops, world, [])
  {
  }

  // ----- Sessions that show the failures

  /** Four letters and a blank at right margin 5, wrap margin 3: an update puts the blanks of the margin ahead of the
      line. */
  method OvertakingRun(world: World) returns (fs: FmtStream)
    ensures fs.Valid() && fs.sent == [Direct("   ")] && fs.buf[..fs.p] == "abcd\n" && !fs.overrun
    ensures fs.chunks == [Chunk("abcd ", 0, Margins(0, 5, 3), 0, 200)] && SomeOvertake(fs.chunks)
  {
    hide Fill, Lay, Placement.Overtakes, Arrived, Told;
    fs := new FmtStream(0, 5, 3, world);
    fs.Append("abcd ");
    assert "" + "abcd " == "abcd " && "abcd "[0..] == "abcd " && "abcd "[..0] == "";
    CanOvertake();
    fs.Update();
    assert fs.chunks[0].Overtakes();
  }

  /** Three letters and a newline at right margin 3: an update scans past the text. */
  method OverrunningRun(world: World) returns (fs: FmtStream)
    ensures fs.overrun && fs.chunks == [Chunk("abc\n", 0, Margins(0, 3, 2), 0, 200)]
  {
    hide Fill, Lay, Arrived, Told;
    fs := new FmtStream(0, 3, 2, world);
    fs.Append("abc\n");
    assert "" + "abc\n" == "abc\n" && "abc\n"[0..] == "abc\n" && "abc\n"[..0] == "";
    CanOverrun();
    FillGives(Desk([], "", 0, false, false), "abc\n", Margins(0, 3, 2), 200);
    fs.Update();
  }
}
