/**
 Whole sessions with an output stream, as a machine on values: what each call does to the text that is buffered, to
 what has gone to the file, and to the scans made. A call scans only where it lacks room, sets a margin, asks for the
 output point, or frees the stream. Writes to the file may be short and allocations refused, as the world says.
 */
module Session {
  import opened Text
  import opened Layout
  import opened Placement
  import opened History

  datatype Op =
    | OpWrite(s: string)
    | OpPutc(c: char)
    | OpEnsure(n: nat)
    | OpLeft(n: nat)
    | OpWrap(n: nat)
    | OpRight(n: nat)
    | OpPoint

  /**
   The margins, the column of the scan, all that has gone to the file, the buffered text, of which the first `at`
   characters are scanned, the buffer's size, how often more room was asked for, and the scans so far. Once a scan has
   left the text, the scans up to that one are all that is known.
   */
  datatype State =
    | Live(m: Margins, col: int, sent: seq<Piece>, text: string, at: nat, cap: nat,
           asked: nat, chunks: seq<Chunk>)
    | Lost(chunks: seq<Chunk>)
  {
    predicate Ok() {
      Live? ==> m.Valid() && -1 <= col <= m.right && at <= |text|
    }

    /** What is still to be scanned. */
    function Rest(): string
      requires Live? && Ok()
    {
      text[at..]
    }

    /** All that has been put out. */
    function Output(): string
      requires Live?
    {
      Flat(sent) + text
    }

    /** The column of the output point, once all is scanned. */
    function Point(): nat
      requires Live?
    {
      if col >= 0 then col else 0
    }
  }

  function Start(m: Margins): State {
    Live(m, 0, [], "", 0, 200, 0, [])
  }

  /** All buffered text is scanned. */
  function Scanned(v: State): (w: State)
    requires v.Ok()
    ensures w.Ok() && (w.Live? ==> w.at == |w.text|)
  {
    if v.Lost? then v
    else
      var d := Fill(Desk(v.sent, v.text[..v.at], v.col, false, false), v.Rest(), v.m, v.cap);
      var chunks := v.chunks + [Chunk(v.Rest(), v.col, v.m, v.at, v.cap)];
      FillColumn(Desk(v.sent, v.text[..v.at], v.col, false, false), v.Rest(), v.m, v.cap);
      if d.overrun then Lost(chunks) else Live(v.m, d.col, d.sent, d.text, |d.text|, v.cap, v.asked, chunks)
  }

  /** Only if there is something to scan. */
  function Settled(v: State): (w: State)
    requires v.Ok()
    ensures w.Ok() && (w.Live? ==> w.at == |w.text|)
  {
    if v.Live? && v.at < |v.text| then Scanned(v) else v
  }

  /** There is no room for `amount` more characters. */
  predicate Lacks(v: State, amount: nat) {
    v.Live? && |v.text| + amount > v.cap
  }

  /** The file takes all that is buffered. */
  predicate TakesAll(w: State, world: World)
    requires w.Live?
  {
    Taken(world, |w.sent|, w.text) == |w.text|
  }

  /** The buffer is handed to the file, which may take only part of it; then it is enlarged if it is too small and the
      allocator grants it. */
  function Flushed(w: State, amount: nat, world: World): (x: State)
    requires w.Ok() && w.Live? && w.at == |w.text|
    ensures x.Ok() && x.Live? && x.at == |x.text|
  {
    var n := Taken(world, |w.sent|, w.text);
    var x := w.(sent := w.sent + [Offered(w.text, n)], text := w.text[n..], at := |w.text| - n);
    if !TakesAll(w, world) || amount <= w.cap then x
    else x.(cap := if world.grants(w.asked) then w.cap + amount else w.cap, asked := w.asked + 1)
  }

  /** Room for `amount` more characters is made, as far as that can be done. */
  function Roomy(v: State, amount: nat, world: World): (w: State)
    requires v.Ok()
    ensures w.Ok()
  {
    if !Lacks(v, amount) then v
    else
      var w := Scanned(v);
      if w.Lost? then w else Flushed(w, amount, world)
  }

  /** It can be done. */
  predicate Granted(v: State, amount: nat, world: World)
    requires v.Ok()
  {
    Lacks(v, amount) ==>
      var w := Scanned(v);
      w.Live? ==> TakesAll(w, world) && (amount <= w.cap || world.grants(w.asked))
  }

  /** Where room is lacking, all that is buffered is offered to the file, and the file takes what it takes; if it takes
      all, the buffer grows by `amount` exactly if it is too small and the allocator grants it; and the call is granted
      exactly if there then is room. */
  lemma MakesRoom(v: State, amount: nat, world: World)
    requires v.Ok() && Lacks(v, amount) && Scanned(v).Live?
    ensures var w, x := Scanned(v), Roomy(v, amount, world);
      && (Granted(v, amount, world) <==> |x.text| == 0 && amount <= x.cap)
      && |x.sent| == |w.sent| + 1 && x.sent[..|w.sent|] == w.sent
      && var piece := x.sent[|w.sent|];
         && piece == Offered(w.text, |piece.Out()|) && piece.Out() + x.text == w.text
         && |piece.Out()| == Least(world.takes(|w.sent|), |w.text|)
         && x.cap == w.cap + if x.text == "" && w.cap < amount && world.grants(w.asked) then amount else 0
  {
    var w := Scanned(v);
    var n := Taken(world, |w.sent|, w.text);
    assert w.text[..n] + w.text[n..] == w.text;
  }

  /** What a call hands over. */
  function Handed(op: Op): string {
    match op
    case OpWrite(s) => s
    case OpPutc(c) => [c]
    case _ => ""
  }

  /** The room a call needs. */
  function Amount(op: Op): nat {
    if op.OpEnsure? then op.n else |Handed(op)|
  }

  /** The margins a call asks for. */
  function Set(m: Margins, op: Op): Margins {
    match op
    case OpLeft(n) => m.(left := n)
    case OpWrap(n) => m.(wrap := n)
    case OpRight(n) => m.(right := n)
    case _ => m
  }

  /**
   The caller is told that the call has not been done: room was not made, or a right margin would lie left of the
   output point.
   */
  predicate Refused(v: State, op: Op, world: World)
    requires v.Ok()
  {
    if op.OpRight? then Settled(v).Live? && op.n < Settled(v).Point()
    else (op.OpWrite? || op.OpPutc? || op.OpEnsure?) && !Granted(v, Amount(op), world)
  }

  /** The state after a call. */
  function Called(v: State, op: Op, world: World): (w: State)
    requires v.Ok() && (v.Live? ==> Set(v.m, op).Valid())
    ensures w.Ok()
  {
    match op
    case OpLeft(_) => Adjusted(v, op)
    case OpWrap(_) => Adjusted(v, op)
    case OpRight(_) => if Refused(v, op, world) then Settled(v) else Adjusted(v, op)
    case OpPoint => Settled(v)
    case _ =>
      var w := Roomy(v, Amount(op), world);
      if w.Live? && !Refused(v, op, world) then w.(text := w.text + Handed(op)) else w
  }

  /** All text is scanned under the old margins before a new one applies. */
  function Adjusted(v: State, op: Op): (w: State)
    requires v.Ok() && (v.Live? ==> Set(v.m, op).Valid())
    requires op.OpLeft? || op.OpWrap? || (op.OpRight? && (Settled(v).Live? ==> Settled(v).Point() <= op.n))
    ensures w.Ok()
  {
    var w := Settled(v);
    if w.Live? then w.(m := Set(w.m, op)) else w
  }

  /** The call leads from `v` to `w`. */
  ghost predicate Follows(v: State, op: Op, world: World, w: State) {
    v.Ok() && (v.Live? ==> Set(v.m, op).Valid()) && w == Called(v, op, world)
  }

  // ----- Sessions on a new stream

  /** The margins asked for by the first `n` calls. */
  function SetAll(m: Margins, ops: seq<Op>, n: nat): Margins
    requires n <= |ops|
  {
    if n == 0 then m else Set(SetAll(m, ops, n - 1), ops[n - 1])
  }

  /** The left and wrap margins never pass the right one. */
  predicate AllValid(m: Margins, ops: seq<Op>) {
    forall i :: 0 <= i <= |ops| ==> SetAll(m, ops, i).Valid()
  }

  /** The margins in force, `m'`, differ from those asked for by refused right margins alone. */
  predicate Wider(m: Margins, m': Margins) {
    m' == m.(right := m'.right) && m.right <= m'.right
  }

  lemma StillWider(m: Margins, m': Margins, op: Op)
    requires Wider(m, m') && m'.Valid() && Set(m, op).Valid()
    ensures Set(m', op).Valid() && Wider(Set(m, op), Set(m', op))
    ensures op.OpRight? && op.n < m'.right ==> Wider(Set(m, op), m')
  {
  }

  /** A call sets the margin it asks for, or, where it is a refused right margin, none. */
  lemma AfterSets(v: State, op: Op, world: World)
    requires v.Ok() && (v.Live? ==> Set(v.m, op).Valid())
    ensures var w := Called(v, op, world);
      && (w.Live? ==> v.Live?)
      && (w.Live? ==> w.m == Set(v.m, op) || (w.m == v.m && op.OpRight? && op.n < v.m.right))
  {
    hide Fill;
  }

  /** The state after the first `n` calls. */
  ghost function StateAt(m: Margins, ops: seq<Op>, world: World, n: nat): (v: State)
    requires AllValid(m, ops) && n <= |ops|
    ensures v.Ok() && (v.Live? ==> Wider(SetAll(m, ops, n), v.m))
    decreases n
  {
    hide Margins.Valid, Wider, Called;
    assert SetAll(m, ops, n).Valid();
    if n == 0 then StartWider(m); Start(m)
    else
      var v := StateAt(m, ops, world, n - 1);
      NextWider(m, ops, n - 1, v, world);
      Called(v, ops[n - 1], world)
  }

  lemma StartWider(m: Margins)
    requires m.Valid()
    ensures Start(m).Ok() && Wider(m, Start(m).m)
  {
  }

  lemma NextWider(m: Margins, ops: seq<Op>, n: nat, v: State, world: World)
    requires n < |ops| && SetAll(m, ops, n + 1).Valid() && v.Ok() && (v.Live? ==> Wider(SetAll(m, ops, n), v.m))
    ensures v.Live? ==> Set(v.m, ops[n]).Valid()
    ensures Called(v, ops[n], world).Live? ==> Wider(SetAll(m, ops, n + 1), Called(v, ops[n], world).m)
  {
    if v.Live? {
      StillWider(SetAll(m, ops, n), v.m, ops[n]);
    }
    hide Called;
    AfterSets(v, ops[n], world);
  }

  // ----- What every session keeps

  /**
   What has been put out is accounted for by the scans; and where a session is lost, it was a scan that left the text.
   */
  ghost predicate Sound(v: State) {
    && v.Ok() && Chained(v.chunks)
    && if v.Live? then
         && v.col == EndColumn(v.chunks) && Solid(v.text[..v.at], v.col)
         && Same(Flat(v.sent) + v.text[..v.at], AllLaid(v.chunks), SomeOvertake(v.chunks))
       else v.chunks != [] && v.chunks[|v.chunks| - 1].Fits() && v.chunks[|v.chunks| - 1].Laid().overrun
  }

  lemma StartSound(m: Margins)
    requires m.Valid()
    ensures Sound(Start(m))
  {
  }

  /** The output `out` after the scans `chunks`, and after one more scan the output `out'`. */
  lemma OneScan(chunks: seq<Chunk>, s: Chunk, out: string, out': string)
    requires Chained(chunks) && s.Fits() && s.col == EndColumn(chunks)
    requires Same(out, AllLaid(chunks), SomeOvertake(chunks)) && Same(out', out + s.Laid().text, s.Overtakes())
    ensures Same(out', AllLaid(chunks + [s]), SomeOvertake(chunks + [s]))
  {
    Snoc(chunks, s);
    hide Same, SomeOvertake, Chunk.Overtakes, Chunk.Laid, AllLaid;
    SameAppend(out, AllLaid(chunks), s.Laid().text, SomeOvertake(chunks));
    SameTrans(out', out + s.Laid().text, AllLaid(chunks) + s.Laid().text, s.Overtakes(), SomeOvertake(chunks));
  }

  /** A scan keeps the account, and nothing is left to scan. */
  lemma ScannedSound(v: State)
    requires Sound(v)
    ensures Sound(Scanned(v))
  {
    if v.Live? {
      hide Same, SomeOvertake, AllLaid, Fill, Lay, Placement.Overtakes, Solid;
      var d := Desk(v.sent, v.text[..v.at], v.col, false, false);
      var f, s := Fill(d, v.Rest(), v.m, v.cap), Chunk(v.Rest(), v.col, v.m, v.at, v.cap);
      FillGives(d, v.Rest(), v.m, v.cap);
      OvertakesIff(d, v.Rest(), v.m, v.cap);
      Snoc(v.chunks, s);
      if !f.overrun {
        OneScan(v.chunks, s, Flat(v.sent) + v.text[..v.at], f.Output());
        assert f.text[..|f.text|] == f.text;
      }
    }
  }

  lemma FlushedSound(w: State, amount: nat, world: World)
    requires Sound(w) && w.Live? && w.at == |w.text|
    ensures Sound(Flushed(w, amount, world))
  {
    hide Same, SomeOvertake, AllLaid, Chained, Flat;
    var x, n := Flushed(w, amount, world), Taken(world, |w.sent|, w.text);
    assert w.text[..w.at] == w.text;
    assert w.text == w.text[..n] + w.text[n..] && x.text[..x.at] == w.text[n..];
    FlatMore(w.sent, Offered(w.text, n));
    ConcatAssociates(Flat(w.sent), w.text[..n], w.text[n..]);
    SolidEnd(w.text, n, w.col);
  }

  lemma SolidEnd(text: string, n: nat, col: int)
    requires n <= |text| && Solid(text, col)
    ensures Solid(text[n..], col)
  {
  }

  lemma RoomySound(v: State, amount: nat, world: World)
    requires Sound(v)
    ensures Sound(Roomy(v, amount, world))
  {
    hide Scanned, Flushed, Same, SomeOvertake, AllLaid, Chained;
    ScannedSound(v);
    if Lacks(v, amount) && Scanned(v).Live? {
      FlushedSound(Scanned(v), amount, world);
    }
  }

  /** Every call keeps the account. */
  lemma AfterSound(v: State, op: Op, world: World, w: State)
    requires Sound(v) && Follows(v, op, world, w)
    ensures Sound(w)
  {
    hide Scanned, Roomy, Same, SomeOvertake, AllLaid, Chained, Granted;
    ScannedSound(v);
    if op.OpWrite? || op.OpPutc? || op.OpEnsure? {
      RoomySound(v, Amount(op), world);
      var x := Roomy(v, Amount(op), world);
      if x.Live? {
        assert (x.text + Handed(op))[..x.at] == x.text[..x.at];
      }
    }
  }

  /** So the output of a session is at every point accounted for by its scans. */
  lemma {:induction false} SessionSound(m: Margins, ops: seq<Op>, world: World, n: nat)
    requires AllValid(m, ops) && n <= |ops|
    ensures Sound(StateAt(m, ops, world, n))
  {
    hide Sound, Called, Start, Margins.Valid;
    if n == 0 {
      assert SetAll(m, ops, 0).Valid();
      StartSound(m);
    } else {
      SessionSound(m, ops, world, n - 1);
      Next(m, ops, world, n - 1);
      AfterSound(StateAt(m, ops, world, n - 1), ops[n - 1], world, StateAt(m, ops, world, n));
    }
  }

  /** A session goes on by the next call. */
  lemma Next(m: Margins, ops: seq<Op>, world: World, n: nat)
    requires AllValid(m, ops) && n < |ops|
    ensures Follows(StateAt(m, ops, world, n), ops[n], world, StateAt(m, ops, world, n + 1))
  {
    hide Called, Margins.Valid;
    assert SetAll(m, ops, n + 1).Valid();
    NextWider(m, ops, n, StateAt(m, ops, world, n), world);
  }

  /** When all is scanned, the whole output is accounted for. */
  lemma ScannedAccounts(v: State)
    requires Sound(v) && Scanned(v).Live?
    ensures Accounts(Scanned(v).chunks, Scanned(v).Output())
  {
    ScannedSound(v);
    hide Scanned, Same, SomeOvertake, AllLaid, Accounts;
    var w := Scanned(v);
    assert w.text[..w.at] == w.text;
    RecordAccounts(w.chunks, w.Output());
  }

  // ----- The scans are of what was handed over

  /** The characters scanned and those still to be scanned. */
  function Marked(v: State): seq<Mark>
    requires v.Ok() && v.Live?
  {
    AllMarks(v.chunks) + Marks(v.Rest(), v.m)
  }

  lemma ScannedMarks(v: State)
    requires v.Ok() && v.Live?
    ensures AllMarks(Scanned(v).chunks) == Marked(v)
    ensures Scanned(v).Live? ==> Marked(Scanned(v)) == Marked(v) && Scanned(v).Rest() == ""
  {
    hide Fill;
    var s := Chunk(v.Rest(), v.col, v.m, v.at, v.cap);
    var all := v.chunks + [s];
    assert all[..|all| - 1] == v.chunks && all[|all| - 1] == s;
    assert Marks("", v.m) == [];
  }

  lemma SettledMarks(v: State)
    requires v.Ok() && v.Live?
    ensures Settled(v).Live? ==> Marked(Settled(v)) == Marked(v) && Settled(v).Rest() == ""
    ensures Settled(v).Lost? ==> AllMarks(Settled(v).chunks) == Marked(v)
  {
    hide Scanned;
    ScannedMarks(v);
  }

  lemma RoomyMarks(v: State, amount: nat, world: World)
    requires v.Ok() && v.Live?
    ensures var w := Roomy(v, amount, world);
      if w.Live? then Marked(w) == Marked(v) && w.m == v.m else AllMarks(w.chunks) == Marked(v)
  {
    if Lacks(v, amount) {
      ScannedMarks(v);
    }
  }

  /** The characters that a call hands over, unless it is refused. */
  function Accepted(v: State, op: Op, world: World): seq<Mark>
    requires v.Ok()
  {
    if v.Lost? || Refused(v, op, world) then [] else Marks(Handed(op), v.m)
  }

  /** Each call adds what it hands over, if it is done, and nothing else; a scan that leaves the text is of all that
      came before. */
  lemma AfterMarks(v: State, op: Op, world: World, w: State)
    requires v.Live? && Follows(v, op, world, w)
    ensures if w.Live? then Marked(w) == Marked(v) + Accepted(v, op, world) else AllMarks(w.chunks) == Marked(v)
  {
    hide Scanned, Roomy, Settled, AllMarks, Granted;
    SettledMarks(v);
    assert Marks("", v.m) == [];
    if op.OpWrite? || op.OpPutc? || op.OpEnsure? {
      RoomyMarks(v, Amount(op), world);
      var x := Roomy(v, Amount(op), world);
      if x.Live? && !Refused(v, op, world) {
        assert (x.text + Handed(op))[x.at..] == x.Rest() + Handed(op);
        MarksMore(AllMarks(x.chunks), x.Rest(), Handed(op), x.m);
      }
    } else {
      assert w.Live? ==> Marks("", w.m) == [];
    }
  }

  /** What the first `n` calls hand over, each character under the margins of its own call. */
  ghost function HandedAll(m: Margins, ops: seq<Op>, world: World, n: nat): seq<Mark>
    requires AllValid(m, ops) && n <= |ops|
  {
    if n == 0 then []
    else HandedAll(m, ops, world, n - 1) + Accepted(StateAt(m, ops, world, n - 1), ops[n - 1], world)
  }

  /** A session that is not lost has scanned, or is still to scan, all that the calls have handed over; one that is
      lost was lost in the scan of a beginning of it. */
  lemma {:induction false} SessionMarks(m: Margins, ops: seq<Op>, world: World, n: nat)
    requires AllValid(m, ops) && n <= |ops|
    ensures var v, handed := StateAt(m, ops, world, n), HandedAll(m, ops, world, n);
      if v.Live? then Marked(v) == handed else AllMarks(v.chunks) <= handed
  {
    hide Accepted, Marked, AllMarks, Called, Margins.Valid;
    if n == 0 {
      assert SetAll(m, ops, 0).Valid();
      StartWider(m);
      NothingMarked(m);
    } else {
      var v, op := StateAt(m, ops, world, n - 1), ops[n - 1];
      SessionMarks(m, ops, world, n - 1);
      Next(m, ops, world, n - 1);
      if v.Live? {
        AfterMarks(v, op, world, StateAt(m, ops, world, n));
      } else {
        StaysLost(v, op, world, StateAt(m, ops, world, n));
      }
    }
  }

  lemma NothingMarked(m: Margins)
    requires Start(m).Ok()
    ensures Marked(Start(m)) == []
  {
    assert Marks("", m) == [];
  }

  lemma StaysLost(v: State, op: Op, world: World, w: State)
    requires v.Lost? && Follows(v, op, world, w)
    ensures w == v
  {
  }

  // ----- The end of a session

  /** Where all is scanned, the buffer goes to the file, if there is anything in it. */
  function AllSent(v: State, world: World): seq<Piece>
    requires v.Live?
  {
    if v.text == "" then v.sent else v.sent + [Offered(v.text, Taken(world, |v.sent|, v.text))]
  }

  /** What the file then holds. */
  function EndFile(v: State, world: World): string
    requires v.Live?
  {
    Arrived(AllSent(v, world), world)
  }

  /** The tail that the file has not taken, and that nobody offers again. */
  function EndLost(v: State, world: World): string
    requires v.Live?
  {
    v.text[Taken(world, |v.sent|, v.text)..]
  }

  /** The caller is told which calls are done and which refused, as long as no scan has left the text. */
  ghost predicate Answered(m: Margins, ops: seq<Op>, world: World, oks: seq<bool>)
    requires AllValid(m, ops)
  {
    |oks| <= |ops| && forall i :: 0 <= i < |oks| ==> AnsweredAt(m, ops, world, i, oks[i])
  }

  ghost predicate AnsweredAt(m: Margins, ops: seq<Op>, world: World, i: nat, ok: bool)
    requires AllValid(m, ops) && i < |ops|
  {
    StateAt(m, ops, world, i + 1).Live? ==> (ok <==> !Refused(StateAt(m, ops, world, i), ops[i], world))
  }

  /**
   What a session gives, unless a scan has left the text: its output is accounted for by the scans made, and they are
   of all that was handed over, each character under the margins of its call.
   */
  lemma EndAccounts(m: Margins, ops: seq<Op>, world: World)
    requires AllValid(m, ops)
    ensures var v, handed := Scanned(StateAt(m, ops, world, |ops|)), HandedAll(m, ops, world, |ops|); v.Live? ==>
      && Accounts(v.chunks, v.Output())
      && AllMarks(v.chunks) == handed && AllText(v.chunks) == Letters(handed)
  {
    hide HandedAll, StateAt, Follows, Scanned, Accounts, AllMarks, AllText, Letters, Marked, Sound, AllValid;
    var n := |ops|;
    SessionSound(m, ops, world, n);
    SessionMarks(m, ops, world, n);
    var v := StateAt(m, ops, world, n);
    if Scanned(v).Live? {
      LiveBefore(v);
      ScannedAccounts(v);
      ScannedMarks(v);
      LettersOfScans(Scanned(v).chunks);
    }
  }

  lemma LiveBefore(v: State)
    requires v.Ok() && Scanned(v).Live?
    ensures v.Live?
  {
  }

  /** Where no scan has written to the file itself, the file and the tail are the whole output. */
  lemma DeliversAll(v: State, world: World)
    requires v.Live? && Told(v.sent, world) && forall i :: 0 <= i < |v.sent| ==> v.sent[i].Offered?
    ensures EndFile(v, world) + EndLost(v, world) == v.Output()
  {
    var n := Taken(world, |v.sent|, v.text);
    var x := Offered(v.text, n);
    OfferedArrives(v.sent, world);
    ArrivedMore(v.sent, x, world);
    assert v.text == v.text[..n] + v.text[n..];
    ConcatAssociates(Flat(v.sent), v.text[..n], v.text[n..]);
    assert v.text == "" ==> Arrived(v.sent, world) + v.text[..n] == Arrived(v.sent, world);
  }

  // ----- A session of one call

  /** A text that fits the new buffer is one scan. */
  lemma OneWrite(m: Margins, s: string, world: World, v: State)
    requires m.Valid() && |s| <= 200 && Follows(Start(m), OpWrite(s), world, v)
    ensures !Refused(Start(m), OpWrite(s), world) && v.Ok() && Scanned(v).chunks == [Chunk(s, 0, m, 0, 200)]
    ensures Scanned(v).Live? <==> !Lay(s, 0, m).overrun
    ensures Scanned(v).Live? ==>
      Same(Scanned(v).Output(), Lay(s, 0, m).text, Placement.Overtakes(s, 0, m, 0, 200))
  {
    var d := Desk([], "", 0, false, false);
    assert "" + s == s && s[0..] == s && s[..0] == "";
    FillGives(d, s, m, 200);
    OvertakesIff(d, s, m, 200);
    assert d.Output() + Lay(s, 0, m).text == Lay(s, 0, m).text;
  }

  lemma TwoWordsBreak()
    ensures Decide("aaa bbb", 0, 6) == Break(3, 4) && Decide("bbb", 0, 6) == Partial
  {
    var s := "aaa bbb";
    assert NewlineAt(s, 0) == 7 && LastBlank(s, 6) == LastBlank(s, 4) == 3 && RunStart(s, 3) == 3;
    assert NewlineAt("bbb", 0) == 3;
  }

  lemma TwoWordsFill()
    ensures Fill(Desk([], "", 0, false, false), "aaa bbb", Margins(0, 6, 0), 200)
         == Desk([], "aaa\nbbb", 3, false, false)
  {
    hide Decide, Fill, Flat;
    var s, m, d, d' := "aaa bbb", Margins(0, 6, 0), Desk([], "", 0, false, false), Desk([], "aaa\n", -1, false, false);
    TwoWordsBreak();
    FillLine(d, s, m, 200);
    assert s[4..] == "bbb" && "" + s[..3] + "\n" + Spaces(0) == "aaa\n";
    assert Broken(d, s, 3, 4, m, 200) == d';
    FillLine(d', "bbb", m, 200);
    assert "aaa\n" + "bbb" == "aaa\nbbb";
  }

  /** Two words at right margin 6 become two lines in the buffer, and nothing else. */
  lemma TwoWords(world: World, v: State)
    requires Follows(Start(Margins(0, 6, 0)), OpWrite("aaa bbb"), world, v)
    ensures v.Ok() && Scanned(v).Live? && Scanned(v).sent == [] && Scanned(v).text == "aaa\nbbb"
  {
    hide Fill;
    var s := "aaa bbb";
    assert "" + s == s && s[0..] == s && s[..0] == "";
    TwoWordsFill();
  }

  /** So when the stream is freed the file holds as much of these two lines as it took, and the rest is lost. */
  lemma TwoWordsFile(world: World, v: State)
    requires Follows(Start(Margins(0, 6, 0)), OpWrite("aaa bbb"), world, v)
    ensures var n := Least(world.takes(0), 7);
      v.Ok() && Scanned(v).Live? && EndFile(Scanned(v), world) == "aaa\nbbb"[..n]
      && EndLost(Scanned(v), world) == "aaa\nbbb"[n..]
  {
    TwoWords(world, v);
    assert |"aaa\nbbb"| == 7;
    hide Scanned, Follows, EndFile, EndLost;
    NothingSent(Scanned(v), world);
  }

  lemma NothingSent(v: State, world: World)
    requires v.Live? && v.sent == [] && v.text != ""
    ensures var n := Least(world.takes(0), |v.text|);
      EndFile(v, world) == v.text[..n] && EndLost(v, world) == v.text[n..]
  {
    ArrivedMore([], AllSent(v, world)[0], world);
    assert [] + AllSent(v, world) == AllSent(v, world);
  }
}
