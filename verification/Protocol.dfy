/**
 The run of a parser over its groups, of argp-parse.c: which keys each group's parsing function is
 called with, in which order, and how `next`, `quoted`, `try_getopt` and `args_processed` move.
 The user's parsing functions and getopt may answer and change `next` and `argc` in any way.
 */
module Protocol {

  import opened Wrappers

  /** error_t: 0, EBADKEY, EINVAL, or an error of a parsing function. */
  datatype Err = Ok | BadKey | Invalid | Other(code: int)

  datatype Key = Init | Opt(key: int) | Arg | Args | NoArgs | End | Error | Success | Fini

  datatype Call = Call(group: nat, key: Key)

  /** What a parsing function did when it was called: its answer, and `next` before and after, and then `argc`. */
  datatype Answer = Answer(err: Err, from: int, to: int, argc: int)

  /** What getopt says: no more options, an error of its own, a plain argument, or an option and its group, if any. */
  datatype Reply = NoMore(quote: bool) | Fault | Plain | Option(key: int, group: int)

  /** One call per group of `who` below `n`, first to last. */
  function Forward(who: seq<bool>, key: Key, n: nat): seq<Call>
    requires n <= |who|
  {
    if n == 0 then []
    else if who[n - 1] then Forward(who, key, n - 1) + [Call(n - 1, key)]
    else Forward(who, key, n - 1)
  }

  /** One call per group of `who` from `n` on, last to first. */
  function Backward(who: seq<bool>, key: Key, n: nat): seq<Call>
    requires n <= |who|
    decreases |who| - n
  {
    if n == |who| then []
    else if who[n] then Backward(who, key, n + 1) + [Call(n, key)]
    else Backward(who, key, n + 1)
  }

  /** The tries of one argument by the groups below `n`, each with ARG and then ARGS. */
  function Tries(who: seq<bool>, n: nat): seq<Call>
    requires n <= |who|
  {
    if n == 0 then []
    else if who[n - 1] then Tries(who, n - 1) + [Call(n - 1, Arg), Call(n - 1, Args)]
    else Tries(who, n - 1)
  }

  /**
   The calls of a whole run, by phase: how far the NO_ARGS and END calls got, whether the run counts as
   failed before the last notices, and how far the SUCCESS calls got.
   */
  datatype Phases = Phases(
    body: seq<Call>, idle: seq<bool>, noArgsTo: nat, endsFrom: nat, failed: bool, successFrom: nat)

  ghost predicate IsBody(who: seq<bool>, body: seq<Call>) {
    forall i :: 0 <= i < |body| ==>
      body[i].group < |who| && who[body[i].group] && (body[i].key.Opt? || body[i].key.Arg? || body[i].key.Args?)
  }

  /** NO_ARGS and END are both skipped, or END comes after every NO_ARGS; a run without failure completes them. */
  ghost predicate InPhase(who: seq<bool>, p: Phases) {
    && IsBody(who, p.body)
    && |p.idle| == |who| && (forall g :: 0 <= g < |who| && p.idle[g] ==> who[g])
    && p.noArgsTo <= |who| && p.endsFrom <= |who| && p.successFrom <= |who|
    && (p.endsFrom < |who| ==> p.noArgsTo == |who|)
    && (!p.failed ==> p.endsFrom == 0 || (p.noArgsTo == 0 && p.endsFrom == |who|))
  }

  function Outcome(who: seq<bool>, p: Phases): seq<Call>
    requires p.successFrom <= |who|
  {
    if p.failed then Forward(who, Error, |who|) else Backward(who, Success, p.successFrom)
  }

  /** The calls of a run in order. */
  function Trace(who: seq<bool>, p: Phases): seq<Call>
    requires |p.idle| == |who| && p.noArgsTo <= |who| && p.endsFrom <= |who| && p.successFrom <= |who|
  {
    Forward(who, Init, |who|) + p.body + Forward(p.idle, NoArgs, p.noArgsTo) + Backward(who, End, p.endsFrom)
    + Outcome(who, p) + Backward(who, Fini, 0)
  }

  /** The keys that one group sees. */
  function Seen(calls: seq<Call>, g: nat): seq<Key> {
    if calls == [] then []
    else if calls[|calls| - 1].group == g then Seen(calls[..|calls| - 1], g) + [calls[|calls| - 1].key]
    else Seen(calls[..|calls| - 1], g)
  }

  lemma {:induction false} SeenConcat(a: seq<Call>, b: seq<Call>, g: nat)
    ensures Seen(a + b, g) == Seen(a, g) + Seen(b, g)
    decreases |b|
  {
    if b == [] {
      assert a + b == a;
    } else {
      SeenConcat(a, b[..|b| - 1], g);
      assert (a + b)[..|a + b| - 1] == a + b[..|b| - 1];
    }
  }

  lemma {:induction false} SeenForward(who: seq<bool>, key: Key, n: nat, g: nat)
    requires n <= |who|
    ensures Seen(Forward(who, key, n), g) == One(g < n && who[g], key)
    decreases n
  {
    if n > 0 {
      SeenForward(who, key, n - 1, g);
      if who[n - 1] {
        SeenConcat(Forward(who, key, n - 1), [Call(n - 1, key)], g);
        SeenOne(Call(n - 1, key), g);
      }
    }
  }

  lemma SeenOne(c: Call, g: nat)
    ensures Seen([c], g) == if c.group == g then [c.key] else []
  {
    assert [c][..0] == [];
  }

  lemma {:induction false} SeenBackward(who: seq<bool>, key: Key, n: nat, g: nat)
    requires n <= |who|
    ensures Seen(Backward(who, key, n), g) == One(n <= g < |who| && who[g], key)
    decreases |who| - n
  {
    if n < |who| {
      SeenBackward(who, key, n + 1, g);
      if who[n] {
        SeenConcat(Backward(who, key, n + 1), [Call(n, key)], g);
        SeenOne(Call(n, key), g);
      }
    }
  }

  lemma SeenParts(a: seq<Call>, b: seq<Call>, c: seq<Call>, d: seq<Call>, e: seq<Call>, f: seq<Call>, g: nat)
    ensures Seen(a + b + c + d + e + f, g)
         == Seen(a, g) + Seen(b, g) + Seen(c, g) + Seen(d, g) + Seen(e, g) + Seen(f, g)
  {
    SeenConcat(a, b, g);
    SeenConcat(a + b, c, g);
    SeenConcat(a + b + c, d, g);
    SeenConcat(a + b + c + d, e, g);
    SeenConcat(a + b + c + d + e, f, g);
  }

  /**
   What one group with a parsing function sees of a run: INIT, its options and arguments, at most one
   NO_ARGS and then at most one END, then ERROR or at most one SUCCESS and never both, then FINI once.
   */
  lemma GroupSees(who: seq<bool>, p: Phases, g: nat)
    requires InPhase(who, p) && g < |who| && who[g]
    ensures Seen(Trace(who, p), g)
         == [Init] + Seen(p.body, g) + One(p.idle[g] && g < p.noArgsTo, NoArgs) + One(p.endsFrom <= g, End)
            + (if p.failed then [Error] else One(p.successFrom <= g, Success)) + [Fini]
  {
    SeenParts(Forward(who, Init, |who|), p.body, Forward(p.idle, NoArgs, p.noArgsTo), Backward(who, End, p.endsFrom),
      Outcome(who, p), Backward(who, Fini, 0), g);
    SeenForward(who, Init, |who|, g);
    SeenForward(p.idle, NoArgs, p.noArgsTo, g);
    SeenBackward(who, End, p.endsFrom, g);
    assert Seen(Outcome(who, p), g) == if p.failed then [Error] else One(p.successFrom <= g, Success) by {
      SeenForward(who, Error, |who|, g);
      SeenBackward(who, Success, p.successFrom, g);
    }
    SeenBackward(who, Fini, 0, g);
  }

  // ----- The order of calls

  /** The calls are of groups from `lo` to `hi` that have a parsing function, with one key. */
  ghost predicate Among(calls: seq<Call>, who: seq<bool>, key: Key, lo: nat, hi: nat) {
    forall i :: 0 <= i < |calls| ==>
      calls[i].key == key && lo <= calls[i].group < hi <= |who| && who[calls[i].group]
  }

  ghost predicate Ascending(calls: seq<Call>) {
    forall i, j :: 0 <= i < j < |calls| ==> calls[i].group < calls[j].group
  }

  ghost predicate Descending(calls: seq<Call>) {
    forall i, j :: 0 <= i < j < |calls| ==> calls[i].group > calls[j].group
  }

  lemma AmongSnoc(calls: seq<Call>, who: seq<bool>, key: Key, lo: nat, hi: nat, lo': nat, hi': nat, g: nat)
    requires Among(calls, who, key, lo, hi) && lo' <= lo && hi <= hi' <= |who| && lo' <= g < hi' && who[g]
    ensures Among(calls + [Call(g, key)], who, key, lo', hi')
    ensures Ascending(calls) && g >= hi ==> Ascending(calls + [Call(g, key)])
    ensures Descending(calls) && g < lo ==> Descending(calls + [Call(g, key)])
  {
    var more := calls + [Call(g, key)];
    assert forall i :: 0 <= i < |more| ==> more[i] == if i < |calls| then calls[i] else Call(g, key);
  }

  lemma AmongMore(calls: seq<Call>, who: seq<bool>, key: Key, lo: nat, hi: nat, lo': nat, hi': nat)
    requires Among(calls, who, key, lo, hi) && lo' <= lo && hi <= hi' <= |who|
    ensures Among(calls, who, key, lo', hi')
  {
  }

  lemma AmongNone(who: seq<bool>, key: Key, lo: nat, hi: nat)
    ensures Among([], who, key, lo, hi) && Ascending([]) && Descending([])
  {
  }

  /** Every group of `who` below `n` is called, the first first. */
  lemma {:induction false} ForwardOrder(who: seq<bool>, key: Key, n: nat)
    requires n <= |who|
    ensures Among(Forward(who, key, n), who, key, 0, n) && Ascending(Forward(who, key, n))
  {
    hide Among, Ascending, Descending;
    if n == 0 {
      AmongNone(who, key, 0, 0);
    } else {
      ForwardOrder(who, key, n - 1);
      AmongMore(Forward(who, key, n - 1), who, key, 0, n - 1, 0, n);
      if who[n - 1] {
        AmongSnoc(Forward(who, key, n - 1), who, key, 0, n - 1, 0, n, n - 1);
      }
    }
  }

  /** Every group from `n` on, the last first. */
  lemma {:induction false} BackwardOrder(who: seq<bool>, key: Key, n: nat)
    requires n <= |who|
    ensures Among(Backward(who, key, n), who, key, n, |who|) && Descending(Backward(who, key, n))
    decreases |who| - n
  {
    hide Among, Ascending, Descending;
    if n == |who| {
      AmongNone(who, key, n, n);
    } else {
      BackwardOrder(who, key, n + 1);
      AmongMore(Backward(who, key, n + 1), who, key, n + 1, |who|, n, |who|);
      if who[n] {
        AmongSnoc(Backward(who, key, n + 1), who, key, n + 1, |who|, n, |who|, n);
      }
    }
  }

  /** An argument is offered to the groups in order, and to each first with ARG and then with ARGS. */
  lemma {:induction false} TriesOrder(who: seq<bool>, n: nat)
    requires n <= |who|
    ensures var calls := Tries(who, n);
      && (forall i, j :: 0 <= i < j < |calls| ==>
            calls[i].group < calls[j].group || (calls[i].group == calls[j].group && j == i + 1))
      && (forall i :: 0 <= i < |calls| ==>
            calls[i].group < n && who[calls[i].group] && calls[i].key == if i % 2 == 0 then Arg else Args)
      && (forall i :: 0 <= i < |calls| && i % 2 == 0 ==> i + 1 < |calls| && calls[i + 1].group == calls[i].group)
      && |calls| % 2 == 0
  {
    if n > 0 {
      TriesOrder(who, n - 1);
    }
  }

  /**
   The calls of a run across groups: INIT, NO_ARGS and ERROR go to the first group first, END, SUCCESS and FINI to the
   last, each at most once to each group that has a parsing function.
   */
  lemma TraceOrder(who: seq<bool>, p: Phases)
    returns (first: seq<Call>, noArgs: seq<Call>, ends: seq<Call>, outcome: seq<Call>, fini: seq<Call>)
    requires |p.idle| == |who| && p.noArgsTo <= |who| && p.endsFrom <= |who| && p.successFrom <= |who|
    ensures Trace(who, p) == first + p.body + noArgs + ends + outcome + fini
    ensures Among(first, who, Init, 0, |who|) && Ascending(first)
    ensures Among(noArgs, p.idle, NoArgs, 0, p.noArgsTo) && Ascending(noArgs)
    ensures Among(ends, who, End, p.endsFrom, |who|) && Descending(ends)
    ensures if p.failed then Among(outcome, who, Error, 0, |who|) && Ascending(outcome)
            else Among(outcome, who, Success, p.successFrom, |who|) && Descending(outcome)
    ensures Among(fini, who, Fini, 0, |who|) && Descending(fini)
  {
    hide Among, Ascending, Descending;
    first, noArgs := Forward(who, Init, |who|), Forward(p.idle, NoArgs, p.noArgsTo);
    ends, outcome, fini := Backward(who, End, p.endsFrom), Outcome(who, p), Backward(who, Fini, 0);
    ForwardOrder(who, Init, |who|);
    ForwardOrder(p.idle, NoArgs, p.noArgsTo);
    BackwardOrder(who, End, p.endsFrom);
    ForwardOrder(who, Error, |who|);
    BackwardOrder(who, Success, p.successFrom);
    BackwardOrder(who, Fini, 0);
  }

  /** A search for a group that knows an argument ends with that group, after all that come before it. */
  lemma SearchOrder(who: seq<bool>, taker: nat, triedArgs: bool, g: nat)
    requires taker < |who| && who[taker]
    ensures var calls := Search(who, taker, triedArgs);
      && calls != [] && calls[|calls| - 1] == Call(taker, if triedArgs then Args else Arg)
      && (g < taker ==> Seen(calls, g) == if who[g] then [Arg, Args] else [])
      && (g > taker ==> Seen(calls, g) == [])
      && Seen(calls, taker) == if triedArgs then [Arg, Args] else [Arg]
  {
    SeenTries(who, taker, g);
    SeenTries(who, taker, taker);
    var last := if triedArgs then [Call(taker, Arg), Call(taker, Args)] else [Call(taker, Arg)];
    SeenConcat(Tries(who, taker), last, g);
    SeenConcat(Tries(who, taker), last, taker);
    if triedArgs {
      SeenTwo(Call(taker, Arg), Call(taker, Args), g);
      SeenTwo(Call(taker, Arg), Call(taker, Args), taker);
    } else {
      SeenOne(Call(taker, Arg), g);
      SeenOne(Call(taker, Arg), taker);
    }
  }

  /** What group `g` sees of that. */
  lemma {:induction false} SeenTries(who: seq<bool>, n: nat, g: nat)
    requires n <= |who|
    ensures Seen(Tries(who, n), g) == if g < n && who[g] then [Arg, Args] else []
    decreases n
  {
    if n > 0 {
      SeenTries(who, n - 1, g);
      if who[n - 1] {
        SeenConcat(Tries(who, n - 1), [Call(n - 1, Arg), Call(n - 1, Args)], g);
        SeenTwo(Call(n - 1, Arg), Call(n - 1, Args), g);
      }
    }
  }

  lemma SeenTwo(c: Call, d: Call, g: nat)
    requires c.group == d.group
    ensures Seen([c, d], g) == if c.group == g then [c.key, d.key] else []
  {
    SeenOne(c, g);
    SeenConcat([c], [d], g);
    SeenOne(d, g);
    assert [c] + [d] == [c, d];
  }

  /** Not an error: success, or a key the parsing function does not know. */
  predicate Mild(err: Err) {
    err.Ok? || err.BadKey?
  }

  /** A loop over groups goes on until a parsing function fails, and `err` is the outcome. */
  ghost predicate UntilError(said: seq<Answer>, err: Err) {
    && (forall i :: 0 <= i < |said| - 1 ==> Mild(said[i].err))
    && (if Mild(err) then forall i :: 0 <= i < |said| ==> Mild(said[i].err)
        else said != [] && said[|said| - 1].err == err)
  }

  lemma NoneYet(err: Err)
    ensures Mild(err) ==> UntilError([], err)
  {
  }

  /** One more group, with a parsing function or without. */
  lemma OneMore(said: seq<Answer>, err: Err, more: seq<Answer>, answer: Err)
    requires UntilError(said, err) && Mild(err)
    requires (|more| == 1 && more[0].err == answer) || (more == [] && answer == BadKey)
    ensures UntilError(said + more, answer)
  {
  }

  function One<T>(b: bool, x: T): seq<T> {
    if b then [x] else []
  }

  lemma ForwardNext(who: seq<bool>, key: Key, g: nat)
    requires g < |who|
    ensures Forward(who, key, g + 1) == Forward(who, key, g) + One(who[g], Call(g, key))
    ensures !who[g] ==> Forward(who, key, g + 1) == Forward(who, key, g)
  {
  }

  lemma BackwardNext(who: seq<bool>, key: Key, g: nat)
    requires g < |who|
    ensures Backward(who, key, g) == Backward(who, key, g + 1) + One(who[g], Call(g, key))
  {
  }

  /** A search over groups goes on until one knows the key, and `err` is the outcome. */
  ghost predicate UntilKnown(said: seq<Answer>, err: Err) {
    && (forall i :: 0 <= i < |said| - 1 ==> said[i].err == BadKey)
    && (if err == BadKey then forall i :: 0 <= i < |said| ==> said[i].err == BadKey
        else said != [] && said[|said| - 1].err == err)
  }

  // ----- How `next` moves

  /** Where the answers leave `next`, and `argc`. */
  function Left(at: int, said: seq<Answer>): int {
    if said == [] then at else said[|said| - 1].to
  }

  function LeftArgc(argc: int, said: seq<Answer>): int {
    if said == [] then argc else said[|said| - 1].argc
  }

  /** ARG is called past the argument, ARGS before it; nothing else moves between calls. */
  function Shift(key: Key): int {
    match key
    case Arg => 1
    case Args => -1
    case _ => 0
  }

  /** Each call is made where the one before it left `next`, but for that. */
  ghost predicate Flows(at: int, calls: seq<Call>, said: seq<Answer>) {
    |calls| == |said| && forall i :: 0 <= i < |said| ==> FlowsAt(at, calls, said, i)
  }

  predicate FlowsAt(at: int, calls: seq<Call>, said: seq<Answer>, i: nat)
    requires i < |said| && i < |calls|
  {
    said[i].from == (if i == 0 then at else said[i - 1].to) + Shift(calls[i].key)
  }

  /** What a parser remembers: its calls and what came of them, `next` and `argc`. */
  datatype Record = Record(calls: seq<Call>, answers: seq<Answer>, next: int, argc: int)

  lemma Nothing(was: Record, who: seq<bool>, key: Key)
    ensures Flows(was.next, [], []) && was.calls + [] == was.calls && was.answers + [] == was.answers
    ensures Forward(who, key, 0) == [] && Backward(who, key, |who|) == []
    ensures UntilError([], Ok)
  {
  }

  lemma Forgiven(said: seq<Answer>)
    requires UntilError(said, BadKey)
    ensures UntilError(said, Ok)
  {
  }

  lemma LeftConcat(at: int, a: seq<Answer>, b: seq<Answer>)
    ensures Left(at, a + b) == Left(Left(at, a), b)
  {
  }

  lemma FlowsOn(at: int, calls: seq<Call>, said: seq<Answer>, calls': seq<Call>, said': seq<Answer>)
    requires Flows(at, calls, said) && Flows(Left(at, said), calls', said')
    ensures Flows(at, calls + calls', said + said')
    ensures Left(at, said + said') == Left(Left(at, said), said')
    ensures forall argc :: LeftArgc(argc, said + said') == LeftArgc(LeftArgc(argc, said), said')
  {
    var all, more := calls + calls', said + said';
    forall i | 0 <= i < |more| ensures FlowsAt(at, all, more, i) {
      if i < |said| {
        assert FlowsAt(at, calls, said, i);
      } else {
        assert FlowsAt(Left(at, said), calls', said', i - |said|);
      }
    }
  }

  /** One more call, if `b`. */
  lemma OneCall(was: Record, made: seq<Call>, said: seq<Answer>, b: bool, x: Call, a: Answer)
    requires Flows(was.next, made, said) && (b ==> a.from == Left(was.next, said) + Shift(x.key))
    ensures Flows(was.next, made + One(b, x), said + One(b, a))
    ensures Left(was.next, said + One(b, a)) == if b then a.to else Left(was.next, said)
    ensures LeftArgc(was.argc, said + One(b, a)) == if b then a.argc else LeftArgc(was.argc, said)
    ensures was.calls + made + One(b, x) == was.calls + (made + One(b, x))
    ensures was.answers + said + One(b, a) == was.answers + (said + One(b, a))
  {
    if b {
      FlowsOn(was.next, made, said, [x], [a]);
    } else {
      assert made + [] == made && said + [] == said;
    }
  }

  /** Groups with a parsing function that have accepted no argument. */
  function Idle(who: seq<bool>, processed: seq<nat>): (idle: seq<bool>)
    requires |processed| == |who|
    ensures |idle| == |who|
    ensures forall g :: 0 <= g < |who| ==> (idle[g] <==> who[g] && processed[g] == 0)
  {
    seq(|who|, g requires 0 <= g < |who| => who[g] && processed[g] == 0)
  }

  /** The calls made for one argument when group `taker` ends the search. */
  function Search(who: seq<bool>, taker: nat, triedArgs: bool): seq<Call>
    requires taker < |who|
  {
    Tries(who, taker) + if triedArgs then [Call(taker, Arg), Call(taker, Args)] else [Call(taker, Arg)]
  }

  lemma BodyMore(who: seq<bool>, init: seq<Call>, a: seq<Call>, b: seq<Call>)
    requires IsBody(who, a) && IsBody(who, b)
    ensures IsBody(who, a + b) && init + a + b == init + (a + b)
  {
  }

  lemma NoBody(who: seq<bool>)
    ensures IsBody(who, [])
  {
  }

  lemma {:induction false} TriesAreBody(who: seq<bool>, n: nat)
    requires n <= |who|
    ensures IsBody(who, Tries(who, n))
  {
    if n > 0 {
      TriesAreBody(who, n - 1);
    }
  }

  lemma SearchIsBody(who: seq<bool>, taker: nat, triedArgs: bool)
    requires taker < |who| && who[taker]
    ensures IsBody(who, Search(who, taker, triedArgs))
  {
    TriesAreBody(who, taker);
  }

  // ----- One step of the parse

  /** Where the parse stands: the next argument, the number of arguments, the end of the `--` that began a quoted
      region (0 for none), and whether getopt is still asked. */
  datatype Place = Place(next: int, argc: int, quoted: int, tryGetopt: bool)

  /** A step: whether getopt was asked, what it said (nothing more, if it was not) and where that left `next`; the
      calls made, what came of them, their outcome, and whether an unknown key was an argument; the group that took an
      argument and whether by ARGS. */
  datatype Step = Step(
    before: Place, asked: bool, reply: Reply, at: int, made: seq<Call>, said: seq<Answer>, err: Err, argBad: bool,
    taker: nat, triedArgs: bool, after: Place)

  /** The quoted region that still counts: a move back before it makes it forgotten. */
  function Known(p: Place): int {
    if p.quoted != 0 && p.next < p.quoted then 0 else p.quoted
  }

  /** The step comes to an argument rather than an option, an error of getopt, or the end. */
  predicate HasArg(s: Step, noArgs: bool) {
    s.reply.Plain? || (s.reply.NoMore? && s.at < s.before.argc && !noArgs)
  }

  /** Where that argument stands. */
  function ArgAt(s: Step): int {
    if s.reply.Plain? then s.at - 1 else s.at
  }

  /** Whether getopt is still asked after its reply. */
  predicate StillAsked(s: Step) {
    s.before.tryGetopt && !(s.asked && s.reply.NoMore?)
  }

  /** What the accepting group is credited with. */
  function Gain(s: Step, noArgs: bool): nat {
    if HasArg(s, noArgs) && s.err == Ok && s.after.next > ArgAt(s) then s.after.next - ArgAt(s) else 0
  }

  /** getopt's part of a step: it is asked exactly if it has not given up and no quoted region counts, and a
      quoted region begins where it has passed a `--`. */
  ghost predicate AsksRightly(s: Step) {
    && (s.asked <==> s.before.tryGetopt && Known(s.before) == 0)
    && (!s.asked ==> s.reply == NoMore(false) && s.at == s.before.next)
    && s.after.quoted == if s.reply == NoMore(true) && s.at > 1 then s.at else Known(s.before)
  }

  /** The parsing functions' part of a step that has an argument for them: the groups are offered it in turn until one
      knows it, and `next` stays where they leave it, unless ARGS took all that was left. */
  ghost predicate OffersArg(who: seq<bool>, s: Step) {
    && Flows(ArgAt(s), s.made, s.said) && UntilKnown(s.said, s.err)
    && s.argBad == (s.err == BadKey)
    && (s.err == BadKey ==> s.made == Tries(who, |who|))
    && (s.err != BadKey ==> s.taker < |who| && who[s.taker] && s.made == Search(who, s.taker, s.triedArgs))
    && s.after.next == (if s.err == Ok && s.triedArgs then s.after.argc else Left(ArgAt(s), s.said))
    && s.after.tryGetopt == (StillAsked(s) || (s.err == Ok && s.after.next <= ArgAt(s)))
  }

  /** And of one that has not. */
  ghost predicate OffersNone(who: seq<bool>, s: Step) {
    && Flows(s.at, s.made, s.said) && s.err == (if s.said == [] then BadKey else s.said[0].err)
    && s.after.next == Left(s.at, s.said)
    && s.after.tryGetopt == StillAsked(s)
    && s.made == (if s.reply.Option? && 0 <= s.reply.group < |who| && who[s.reply.group]
                  then [Call(s.reply.group, Opt(s.reply.key))] else [])
    && s.argBad == s.reply.NoMore?
  }

  ghost predicate StepOk(who: seq<bool>, noArgs: bool, s: Step) {
    && AsksRightly(s) && IsBody(who, s.made) && s.after.argc == LeftArgc(s.before.argc, s.said)
    && if HasArg(s, noArgs) then OffersArg(who, s) else OffersNone(who, s)
  }

  lemma MadeIsBody(who: seq<bool>, noArgs: bool, s: Step)
    requires StepOk(who, noArgs, s)
    ensures IsBody(who, s.made)
  {
  }

  /** What a step credits is how far past the argument's place `next` stands where a group has accepted it, and getopt
      is asked again where `next` stands no further. */
  lemma StepCredit(who: seq<bool>, noArgs: bool, s: Step)
    requires StepOk(who, noArgs, s) && HasArg(s, noArgs)
    ensures var at := if s.reply.Plain? then s.at - 1 else s.at;
      && (s.err == Ok && s.after.next > at ==> Gain(s, noArgs) == s.after.next - at)
      && (s.err != Ok || s.after.next <= at ==> Gain(s, noArgs) == 0)
      && (s.err == Ok && s.after.next <= at ==> s.after.tryGetopt)
      && (s.err == BadKey ==> s.after.next == Left(at, s.said))
  {
  }

  // ----- Whole runs of steps

  /** The first `n` steps of a run, each from where the one before it ended. */
  ghost predicate IsRun(who: seq<bool>, noArgs: bool, steps: seq<Step>, n: nat)
    requires n <= |steps|
  {
    n == 0 || (
      && IsRun(who, noArgs, steps, n - 1) && StepOk(who, noArgs, steps[n - 1])
      && if n == 1 then steps[0].before.quoted == 0 && steps[0].before.tryGetopt
         else steps[n - 2].err == Ok && steps[n - 1].before == steps[n - 2].after)
  }

  /** The calls of the first `n` steps. */
  function Made(steps: seq<Step>, n: nat): seq<Call>
    requires n <= |steps|
  {
    if n == 0 then [] else Made(steps, n - 1) + steps[n - 1].made
  }

  /** What came of them. */
  function Said(steps: seq<Step>, n: nat): seq<Answer>
    requires n <= |steps|
  {
    if n == 0 then [] else Said(steps, n - 1) + steps[n - 1].said
  }

  /** Where `next` stood when the first `n` steps called getopt. */
  function Asks(steps: seq<Step>, n: nat): seq<int>
    requires n <= |steps|
  {
    if n == 0 then [] else Asks(steps, n - 1) + One(steps[n - 1].asked, steps[n - 1].before.next)
  }

  /** What group `g` has been credited with in the first `n` steps. */
  function Gained(steps: seq<Step>, noArgs: bool, g: nat, n: nat): nat
    requires n <= |steps|
  {
    if n == 0 then 0
    else Gained(steps, noArgs, g, n - 1) + if steps[n - 1].taker == g then Gain(steps[n - 1], noArgs) else 0
  }

  lemma {:induction false} RunPrefix(who: seq<bool>, noArgs: bool, steps: seq<Step>, s: Step, g: nat, n: nat)
    requires n <= |steps|
    ensures IsRun(who, noArgs, steps + [s], n) == IsRun(who, noArgs, steps, n)
    ensures Made(steps + [s], n) == Made(steps, n) && Said(steps + [s], n) == Said(steps, n)
    ensures Asks(steps + [s], n) == Asks(steps, n)
    ensures Gained(steps + [s], noArgs, g, n) == Gained(steps, noArgs, g, n)
  {
    if n > 0 {
      RunPrefix(who, noArgs, steps, s, g, n - 1);
    }
  }

  /** One more step. */
  lemma RunOn(who: seq<bool>, noArgs: bool, steps: seq<Step>, s: Step)
    requires IsRun(who, noArgs, steps, |steps|) && StepOk(who, noArgs, s)
    requires if steps == [] then s.before.quoted == 0 && s.before.tryGetopt
             else steps[|steps| - 1].err == Ok && s.before == steps[|steps| - 1].after
    ensures var more := steps + [s];
      && IsRun(who, noArgs, more, |more|) && Made(more, |more|) == Made(steps, |steps|) + s.made
      && Said(more, |more|) == Said(steps, |steps|) + s.said
      && Asks(more, |more|) == Asks(steps, |steps|) + One(s.asked, s.before.next)
      && forall g: nat :: Gained(more, noArgs, g, |more|)
           == Gained(steps, noArgs, g, |steps|) + if s.taker == g then Gain(s, noArgs) else 0
  {
    hide StepOk, Gain;
    RunPrefix(who, noArgs, steps, s, 0, |steps|);
    forall g: nat ensures Gained(steps + [s], noArgs, g, |steps| + 1)
           == Gained(steps, noArgs, g, |steps|) + if s.taker == g then Gain(s, noArgs) else 0
    {
      RunPrefix(who, noArgs, steps, s, g, |steps|);
    }
  }

  lemma {:induction false} RunStep(who: seq<bool>, noArgs: bool, steps: seq<Step>, n: nat, i: nat)
    requires i < n <= |steps| && IsRun(who, noArgs, steps, n)
    ensures StepOk(who, noArgs, steps[i])
    ensures i > 0 ==> steps[i - 1].err == Ok && steps[i].before == steps[i - 1].after
  {
    if i < n - 1 {
      RunStep(who, noArgs, steps, n - 1, i);
    }
  }

  /**
   After a `--` getopt is not asked, and the quoted region stays, until a step begins before it: so nothing
   quoted is taken for an option.
   */
  lemma {:induction false} QuotedStays(who: seq<bool>, noArgs: bool, steps: seq<Step>, i: nat, j: nat)
    requires i < j < |steps| && IsRun(who, noArgs, steps, |steps|)
    requires steps[i].reply == NoMore(true) && steps[i].at > 1
    requires forall k :: i < k <= j ==> steps[k].before.next >= steps[i].at
    ensures !steps[j].asked && steps[j].after.quoted == steps[i].at
    decreases j
  {
    RunStep(who, noArgs, steps, |steps|, i);
    RunStep(who, noArgs, steps, |steps|, j);
    if i < j - 1 {
      QuotedStays(who, noArgs, steps, i, j - 1);
    }
  }

  /** So the calls of getopt are no more than they were when it passed the `--`: nothing quoted reaches it. */
  lemma {:induction false} QuotedNotAsked(who: seq<bool>, noArgs: bool, steps: seq<Step>, i: nat, n: nat)
    requires i < n <= |steps| && IsRun(who, noArgs, steps, |steps|)
    requires steps[i].reply == NoMore(true) && steps[i].at > 1
    requires forall k :: i < k < n ==> steps[k].before.next >= steps[i].at
    ensures Asks(steps, n) == Asks(steps, i + 1)
    decreases n
  {
    hide IsRun, StepOk;
    if i + 1 < n {
      QuotedNotAsked(who, noArgs, steps, i, n - 1);
      QuotedStays(who, noArgs, steps, i, n - 1);
    }
  }

  /** Step `i` ended with group `g` taking an argument, by ARG or by ARGS. */
  ghost predicate Took(steps: seq<Step>, g: nat, i: nat) {
    && i < |steps| && steps[i].err == Ok && steps[i].made != []
    && var last := steps[i].made[|steps[i].made| - 1]; last == Call(g, Arg) || last == Call(g, Args)
  }

  /** A group has been credited with something only if it has taken an argument. */
  lemma {:induction false} GainsAreTaken(who: seq<bool>, noArgs: bool, steps: seq<Step>, g: nat, n: nat)
    requires n <= |steps| && IsRun(who, noArgs, steps, n) && Gained(steps, noArgs, g, n) > 0
    ensures exists i :: 0 <= i < n && Took(steps, g, i)
    decreases n
  {
    if steps[n - 1].taker == g && Gain(steps[n - 1], noArgs) > 0 {
      assert Took(steps, g, n - 1);
    } else {
      GainsAreTaken(who, noArgs, steps, g, n - 1);
      var i :| 0 <= i < n - 1 && Took(steps, g, i);
      assert 0 <= i < n && Took(steps, g, i);
    }
  }

  /**
   How a parse that stopped with `before` at place `at` is settled. An error that is no unparsed argument is
   reported to all. Arguments left over are the caller's if it asked for the end index, and an error if not.
   Otherwise NO_ARGS and END are called, and the first real error among what came of them, `closing`, counts; without
   one, the first real error among what came of SUCCESS, `notice`. The end index is where the parse stopped, or where
   the closing calls have left `next`.
   */
  ghost predicate Settled(groups: nat, before: Err, argBad: bool, haveEnd: bool, at: Place, p: Phases,
      closing: seq<Answer>, notice: seq<Answer>, err: Err, endIndex: Option<int>)
  {
    && (if before != BadKey || !argBad then
          && p.failed && p.noArgsTo == 0 && p.endsFrom == groups && endIndex == None
          && err == if before == BadKey then Invalid else before
        else if at.next != at.argc then
          && p.noArgsTo == 0 && p.endsFrom == groups && p.failed == !haveEnd
          && endIndex == (if haveEnd then Some(at.next) else None) && (p.failed ==> err == Invalid)
        else
          && UntilError(closing, if p.failed then err else Ok) && (p.failed || p.endsFrom == 0)
          && endIndex == (if haveEnd then Some(Left(at.next, closing)) else None))
    && (!p.failed ==> UntilError(notice, err) && (err == Ok ==> p.successFrom == 0))
    && err != BadKey && (p.failed ==> err != Ok)
  }

  /** What came of the calls that close a parse, which has left `next` at `at`. */
  ghost predicate ClosedBy(who: seq<bool>, p: Phases, at: int, closing: seq<Answer>, notice: seq<Answer>,
                           fini: seq<Answer>)
    requires |p.idle| == |who| && p.noArgsTo <= |who| && p.endsFrom <= |who| && p.successFrom <= |who|
  {
    && Flows(at, Forward(p.idle, NoArgs, p.noArgsTo) + Backward(who, End, p.endsFrom), closing)
    && Flows(Left(at, closing), Outcome(who, p), notice)
    && Flows(Left(at, closing + notice), Backward(who, Fini, 0), fini)
  }

  class Parser {
    /** Which groups have a parsing function, and the ARGP_NO_ARGS flag. */
    const who: seq<bool>
    const noArgs: bool
    var next: int
    var argc: int
    var quoted: int
    var tryGetopt: bool
    var processed: seq<nat>
    ghost var calls: seq<Call>
    ghost var answers: seq<Answer> // to each of the calls
    ghost var asks: seq<int>       // where `next` stood each time getopt was called

    ghost predicate Valid()
      reads this
    {
      |processed| == |who| && |answers| == |calls|
    }

    function Here(): Place
      reads this
    {
      Place(next, argc, quoted, tryGetopt)
    }

    constructor (who: seq<bool>, noArgs: bool, argc: int)
      ensures Valid() && this.who == who && this.noArgs == noArgs
      ensures calls == [] && answers == [] && asks == [] && Here() == Place(0, argc, 0, true)
      ensures forall g :: 0 <= g < |who| ==> processed[g] == 0
    {
      this.who, this.noArgs, this.argc := who, noArgs, argc;
      next, quoted, tryGetopt := 0, 0, true;
      processed := seq(|who|, _ => 0);
      calls, answers, asks := [], [], [];
    }

    /** group_parse: calls the parsing function, which may answer anything and move `next` and `argc`. */
    method GroupParse(g: nat, key: Key) returns (err: Err)
      requires g < |who|
      modifies `next, `argc, `calls, `answers
      ensures calls == old(calls) + One(who[g], Call(g, key))
      ensures answers == old(answers) + One(who[g], Answer(err, old(next), next, argc))
      ensures !who[g] ==> err == BadKey && next == old(next) && argc == old(argc)
    {
      if who[g] {
        ghost var from := next;
        err, next, argc := *, *, *;
        calls, answers := calls + [Call(g, key)], answers + [Answer(err, from, next, argc)];
      } else {
        err := BadKey;
      }
    }

    /** Since `was` the calls `made` have been logged, `said` has come of them, and `next` and `argc` stand where that
        leaves them. */
    ghost predicate Since(was: Record, made: seq<Call>, said: seq<Answer>)
      reads this
    {
      && calls == was.calls + made && answers == was.answers + said && Flows(was.next, made, said)
      && next == Left(was.next, said) && argc == LeftArgc(was.argc, said)
    }

    ghost function Now(): Record
      reads this
    {
      Record(calls, answers, next, argc)
    }

    /** One more call of a loop that goes on until a parsing function fails. */
    method Ask(g: nat, key: Key, last: Err, ghost was: Record, ghost made: seq<Call>, ghost said: seq<Answer>)
      returns (err: Err, ghost made': seq<Call>, ghost said': seq<Answer>)
      requires Valid() && g < |who| && Shift(key) == 0
      requires Since(was, made, said) && UntilError(said, last) && Mild(last)
      modifies `next, `argc, `calls, `answers
      ensures Valid() && Since(was, made', said') && UntilError(said', err)
      ensures made' == made + One(who[g], Call(g, key))
    {
      hide Flows;
      ghost var from := next;
      err := GroupParse(g, key);
      ghost var a := Answer(err, from, next, argc);
      made', said' := made + One(who[g], Call(g, key)), said + One(who[g], a);
      OneCall(was, made, said, who[g], Call(g, key), a);
      OneMore(said, last, One(who[g], a), err);
    }

    /** The INIT calls of parser_init. */
    method InitGroups() returns (err: Err, ghost n: nat)
      requires Valid() && calls == []
      modifies `next, `argc, `calls, `answers
      ensures Valid() && UntilError(answers, err)
      ensures n <= |who| && calls == Forward(who, Init, n) && Flows(old(next), calls, answers)
      ensures next == Left(old(next), answers) && argc == LeftArgc(old(argc), answers)
      ensures err != BadKey && (err == Ok ==> n == |who|)
    {
      hide UntilError, Forward, Flows;
      err := Ok;
      ghost var was, said: seq<Answer> := Now(), [];
      Nothing(Now(), who, Init);
      var g := 0;
      while g < |who| && Mild(err)
        invariant g <= |who| && Valid() && Since(was, Forward(who, Init, g), said) && UntilError(said, err)
      {
        ghost var made;
        err, made, said := Ask(g, Init, err, was, Forward(who, Init, g), said);
        ForwardNext(who, Init, g);
        g := g + 1;
      }
      n := g;
      assert [] + said == said && [] + Forward(who, Init, g) == Forward(who, Init, g);
      if err == BadKey {
        Forgiven(answers);
        err := Ok;
      }
    }

    /** The NO_ARGS calls of parser_finalize. */
    method NoArgsGroups() returns (err: Err, ghost n: nat, ghost said: seq<Answer>)
      requires Valid()
      modifies `next, `argc, `calls, `answers
      ensures Valid() && n <= |who| && Since(old(Now()), Forward(Idle(who, processed), NoArgs, n), said)
      ensures UntilError(said, err) && (Mild(err) ==> n == |who|)
    {
      hide UntilError, Forward, Flows;
      err, said := Ok, [];
      ghost var was, idle := Now(), Idle(who, processed);
      Nothing(was, idle, NoArgs);
      var g := 0;
      while g < |who| && Mild(err)
        invariant g <= |who| && Valid() && Since(was, Forward(idle, NoArgs, g), said) && UntilError(said, err)
      {
        ForwardNext(idle, NoArgs, g);
        if processed[g] == 0 {
          ghost var made;
          err, made, said := Ask(g, NoArgs, err, was, Forward(idle, NoArgs, g), said);
        }
        g := g + 1;
      }
      n := g;
    }

    /** The END and SUCCESS calls: last group first, until one fails. */
    method CallBackward(key: Key, before: Err) returns (err: Err, ghost n: nat, ghost said: seq<Answer>)
      requires Valid() && Shift(key) == 0
      modifies `next, `argc, `calls, `answers
      ensures Valid() && n <= |who| && Since(old(Now()), Backward(who, key, n), said)
      ensures if Mild(before) then UntilError(said, err) else err == before && n == |who| && said == []
      ensures Mild(err) ==> n == 0
    {
      hide UntilError, Backward, Flows;
      err, said := before, [];
      ghost var was := Now();
      NoneYet(before);
      Nothing(was, who, key);
      var g := |who|;
      while g > 0 && Mild(err)
        invariant 0 <= g <= |who| && Valid() && Since(was, Backward(who, key, g), said)
        invariant if Mild(before) then UntilError(said, err) else err == before && g == |who| && said == []
      {
        g := g - 1;
        BackwardNext(who, key, g);
        ghost var made;
        err, made, said := Ask(g, key, err, was, Backward(who, key, g + 1), said);
      }
      n := g;
    }

    /** One call whose answer does not matter. */
    method Tell(g: nat, key: Key, ghost was: Record, ghost made: seq<Call>, ghost said: seq<Answer>)
      returns (ghost said': seq<Answer>)
      requires Valid() && g < |who| && Shift(key) == 0 && Since(was, made, said)
      modifies `next, `argc, `calls, `answers
      ensures Valid() && Since(was, made + One(who[g], Call(g, key)), said')
    {
      hide Flows;
      ghost var from := next;
      var err := GroupParse(g, key);
      ghost var a := Answer(err, from, next, argc);
      said' := said + One(who[g], a);
      OneCall(was, made, said, who[g], Call(g, key), a);
    }

    /** The ERROR calls, whatever they answer. */
    method ErrorGroups() returns (ghost said: seq<Answer>)
      requires Valid()
      modifies `next, `argc, `calls, `answers
      ensures Valid() && Since(old(Now()), Forward(who, Error, |who|), said)
    {
      hide Forward, Flows;
      said := [];
      ghost var was := Now();
      Nothing(was, who, Error);
      var g := 0;
      while g < |who|
        invariant g <= |who| && Valid() && Since(was, Forward(who, Error, g), said)
      {
        said := Tell(g, Error, was, Forward(who, Error, g), said);
        ForwardNext(who, Error, g);
        g := g + 1;
      }
    }

    /** The FINI calls, whatever they answer. */
    method FiniGroups() returns (ghost said: seq<Answer>)
      requires Valid()
      modifies `next, `argc, `calls, `answers
      ensures Valid() && Since(old(Now()), Backward(who, Fini, 0), said)
    {
      hide Backward, Flows;
      said := [];
      ghost var was := Now();
      Nothing(was, who, Fini);
      var g := |who|;
      while g > 0
        invariant 0 <= g <= |who| && Valid() && Since(was, Backward(who, Fini, g), said)
      {
        g := g - 1;
        BackwardNext(who, Fini, g);
        said := Tell(g, Fini, was, Backward(who, Fini, g + 1), said);
      }
    }

    /** One group is offered the argument at `next`, with ARG past it and then with ARGS before it. */
    method TryGroup(g: nat) returns (err: Err, triedArgs: bool, ghost made: seq<Call>, ghost said: seq<Answer>)
      requires Valid() && g < |who|
      modifies `next, `argc, `calls, `answers
      ensures Valid() && UntilKnown(said, err) && Since(old(Now()), made, said)
      ensures err == BadKey ==> made == if who[g] then [Call(g, Arg), Call(g, Args)] else []
      ensures err != BadKey ==> who[g] && made == if triedArgs then [Call(g, Arg), Call(g, Args)] else [Call(g, Arg)]
    {
      hide Flows;
      ghost var was := Now();
      Nothing(was, who, Arg);
      next := next + 1;
      triedArgs := false;
      ghost var from := next;
      err := GroupParse(g, Arg);
      ghost var a := Answer(err, from, next, argc);
      OneCall(was, [], [], who[g], Call(g, Arg), a);
      made, said := [] + One(who[g], Call(g, Arg)), [] + One(who[g], a);
      if err == BadKey {
        next := next - 1;
        triedArgs := true;
        from := next;
        err := GroupParse(g, Args);
        a := Answer(err, from, next, argc);
        OneCall(was, made, said, who[g], Call(g, Args), a);
        made, said := made + One(who[g], Call(g, Args)), said + One(who[g], a);
      }
    }

    /** The groups in turn, until one knows the argument: then it is the one before `g`. */
    method TryGroups() returns (err: Err, triedArgs: bool, g: nat, ghost made: seq<Call>, ghost said: seq<Answer>)
      requires Valid()
      modifies `next, `argc, `calls, `answers
      ensures Valid() && UntilKnown(said, err) && Since(old(Now()), made, said)
      ensures err == BadKey ==> made == Tries(who, |who|)
      ensures err != BadKey ==> 0 < g <= |who| && who[g - 1] && made == Search(who, g - 1, triedArgs)
    {
      hide Flows;
      ghost var was := Now();
      err, triedArgs, g, made, said := BadKey, false, 0, [], [];
      Nothing(was, who, Arg);
      while g < |who| && err == BadKey
        invariant g <= |who| && Valid() && UntilKnown(said, err) && Since(was, made, said)
        invariant err == BadKey ==> made == Tries(who, g)
        invariant err != BadKey ==> g > 0 && who[g - 1] && made == Search(who, g - 1, triedArgs)
      {
        ghost var made', said';
        err, triedArgs, made', said' := TryGroup(g);
        FlowsOn(was.next, made, said, made', said');
        assert was.calls + made + made' == was.calls + (made + made');
        assert was.answers + said + said' == was.answers + (said + said');
        made, said := made + made', said + said';
        g := g + 1;
      }
    }

    /**
     parser_parse_arg: the argument before `next` is offered to each group in turn. If nobody knows it,
     `next` is left at it. If group `taker` accepts it, that group alone is credited with what it consumed,
     or getopt is tried again when nothing was.
     */
    method ParseArg() returns (err: Err, ghost taker: nat, triedArgs: bool, ghost made: seq<Call>,
        ghost said: seq<Answer>)
      requires Valid()
      modifies `next, `argc, `calls, `answers, `processed, `tryGetopt
      ensures Valid() && UntilKnown(said, err) && calls == old(calls) + made && answers == old(answers) + said
      ensures Flows(old(next) - 1, made, said) && argc == LeftArgc(old(argc), said)
      ensures next == if err == Ok && triedArgs then argc else Left(old(next) - 1, said)
      ensures err == BadKey ==> made == Tries(who, |who|)
      ensures err != BadKey ==> taker < |who| && who[taker] && made == Search(who, taker, triedArgs)
      ensures err == Ok && next >= old(next) ==>
        && processed == old(processed)[taker := old(processed)[taker] + (next - (old(next) - 1))]
        && tryGetopt == old(tryGetopt)
      ensures err == Ok && next < old(next) ==> processed == old(processed) && tryGetopt
      ensures err != Ok ==> processed == old(processed) && tryGetopt == old(tryGetopt)
    {
      next := next - 1;
      var index := next;
      var g;
      err, triedArgs, g, made, said := TryGroups();
      taker := if g > 0 then g - 1 else 0;
      if err == Ok {
        if triedArgs {
          next := argc;
        }
        if next > index {
          g := g - 1;
          processed := processed[g := processed[g] + (next - index)];
        } else {
          tryGetopt := true;
        }
      }
    }

    /** parser_parse_opt: the option goes to the group the tables give, if they give one. */
    method ParseOpt(key: int, group: int) returns (err: Err, ghost made: seq<Call>, ghost said: seq<Answer>)
      requires Valid() && group < |who|
      modifies `next, `argc, `calls, `answers
      ensures Valid() && Since(old(Now()), made, said) && err == if said == [] then BadKey else said[0].err
      ensures made == if group >= 0 && who[group] then [Call(group, Opt(key))] else []
      ensures IsBody(who, made)
    {
      hide Flows;
      err := BadKey;
      made, said := [], [];
      ghost var was := Now();
      Nothing(was, who, Opt(key));
      if group >= 0 {
        ghost var from := next;
        err := GroupParse(group, Opt(key));
        ghost var a := Answer(err, from, next, argc);
        OneCall(was, [], [], who[group], Call(group, Opt(key)), a);
        made, said := [] + One(who[group], Call(group, Opt(key))), [] + One(who[group], a);
      }
    }

    /** getopt, which may say anything and leave `next` anywhere. */
    method Getopt() returns (reply: Reply)
      modifies `next, `asks
      ensures asks == old(asks) + [old(next)] && (reply.Option? ==> reply.group < |who|)
    {
      asks := asks + [next];
      reply := *;
      next := *;
      if reply.Option? && reply.group >= |who| {
        reply := Option(reply.key, -1);
      }
    }

    /** The beginning of a step: getopt is asked, or not. */
    method AskGetopt() returns (r: Reply, ghost asked: bool)
      requires Valid()
      modifies `next, `quoted, `tryGetopt, `asks
      ensures Valid() && (r.Option? ==> r.group < |who|) && asks == old(asks) + One(asked, old(next))
      ensures var s := Step(old(Here()), asked, r, next, [], [], BadKey, false, 0, false, Here());
        AsksRightly(s) && tryGetopt == StillAsked(s)
    {
      if quoted != 0 && next < quoted {
        quoted := 0;
      }
      r, asked := NoMore(false), false;
      if tryGetopt && quoted == 0 {
        asked := true;
        r := Getopt();
        if r.NoMore? {
          tryGetopt := false;
          if next > 1 && r.quote {
            quoted := next;
          }
        }
      }
    }

    /** parser_parse_next: one step of the parse, which `s` describes. */
    method ParseNext() returns (err: Err, argBad: bool, ghost s: Step)
      requires Valid()
      modifies this
      ensures Valid() && StepOk(who, noArgs, s) && s.err == err && s.argBad == argBad
      ensures s.before == old(Here()) && s.after == Here()
      ensures asks == old(asks) + One(s.asked, s.before.next)
      ensures calls == old(calls) + s.made && answers == old(answers) + s.said
      ensures processed == if Gain(s, noArgs) > 0 && s.taker < |who|
        then old(processed)[s.taker := old(processed)[s.taker] + Gain(s, noArgs)] else old(processed)
    {
      hide IsBody, Tries, Search, UntilKnown;
      ghost var before, asked := Here(), false;
      NoBody(who);
      var r;
      r, asked := AskGetopt();
      ghost var at, made, said, taker, args := next, [], [], 0, false;
      if r.Fault? || (r.NoMore? && (next >= argc || noArgs)) {
        err, argBad := BadKey, r.NoMore?;
      } else if r.Option? {
        argBad := false;
        err, made, said := ParseOpt(r.key, r.group);
      } else {
        if r.NoMore? {
          next := next + 1;
        }
        err, made, said, taker, args := OfferArg();
        argBad := err == BadKey;
      }
      s := Step(before, asked, r, at, made, said, err, argBad, taker, args, Here());
    }

    /** The argument before `next`, with the calls it leads to. */
    method OfferArg()
      returns (err: Err, ghost made: seq<Call>, ghost said: seq<Answer>, ghost taker: nat, ghost args: bool)
      requires Valid()
      modifies `next, `argc, `calls, `answers, `processed, `tryGetopt
      ensures Valid() && calls == old(calls) + made && answers == old(answers) + said && IsBody(who, made)
      ensures UntilKnown(said, err) && Flows(old(next) - 1, made, said) && argc == LeftArgc(old(argc), said)
      ensures next == if err == Ok && args then argc else Left(old(next) - 1, said)
      ensures err == BadKey ==> made == Tries(who, |who|)
      ensures err != BadKey ==> taker < |who| && who[taker] && made == Search(who, taker, args)
      ensures processed == if err == Ok && next >= old(next)
        then old(processed)[taker := old(processed)[taker] + (next - (old(next) - 1))] else old(processed)
      ensures tryGetopt == (old(tryGetopt) || (err == Ok && next < old(next)))
    {
      hide Flows, UntilKnown;
      var triedArgs;
      err, taker, triedArgs, made, said := ParseArg();
      args := triedArgs;
      if err == BadKey {
        TriesAreBody(who, |who|);
      } else {
        SearchIsBody(who, taker, triedArgs);
      }
    }

    /** The NO_ARGS and then the END calls, when all arguments are parsed. */
    method CloseGroups() returns (err: Err, ghost a: nat, ghost b: nat, ghost said: seq<Answer>)
      requires Valid()
      modifies `next, `argc, `calls, `answers
      ensures Valid() && UntilError(said, err)
      ensures a <= |who| && b <= |who| && (b < |who| ==> a == |who|)
      ensures Since(old(Now()), Forward(Idle(who, processed), NoArgs, a) + Backward(who, End, b), said)
      ensures err != BadKey && (err == Ok ==> a == |who| && b == 0)
    {
      hide Flows, Forward, Backward;
      ghost var was, idle, first, second := Now(), Idle(who, processed), [], [];
      err, a, first := NoArgsGroups();
      ghost var middle := err;
      err, b, second := CallBackward(End, err);
      said := first + second;
      FlowsOn(was.next, Forward(idle, NoArgs, a), first, Backward(who, End, b), second);
      if err == BadKey {
        err := Ok;
      }
    }

    /** ERROR to every group, or SUCCESS until one fails, and then FINI to every group. */
    method Notify(before: Err)
      returns (err: Err, ghost s: nat, ghost notice: seq<Answer>, ghost fini: seq<Answer>)
      requires Valid()
      modifies `next, `argc, `calls, `answers
      ensures Valid() && answers == old(answers) + notice + fini && s <= |who|
      ensures var outcome := if before != Ok then Forward(who, Error, |who|) else Backward(who, Success, s);
        && calls == old(calls) + outcome + Backward(who, Fini, 0) && Flows(old(next), outcome, notice)
        && Flows(Left(old(next), notice), Backward(who, Fini, 0), fini)
      ensures before != Ok ==> err == if before == BadKey then Invalid else before
      ensures before == Ok ==> err != BadKey && UntilError(notice, err) && (err == Ok ==> s == 0)
    {
      hide Flows, Forward, Backward;
      err, s := before, |who|;
      if err != Ok {
        notice := ErrorGroups();
      } else {
        err, s, notice := CallBackward(Success, Ok);
        if err == BadKey {
          err := Ok;
        }
      }
      fini := FiniGroups();
      if err == BadKey {
        err := Invalid;
      }
    }

    /**
     parser_finalize: NO_ARGS and END when all arguments are parsed, then the notices. `closing`, `notice` and `fini`
     are what came of the NO_ARGS and END calls, of the ERROR or SUCCESS calls, and of the FINI calls.
     */
    method Finalize(before: Err, argBad: bool, haveEnd: bool, ghost body: seq<Call>)
      returns (err: Err, endIndex: Option<int>, ghost p: Phases, ghost closing: seq<Answer>, ghost notice: seq<Answer>,
        ghost fini: seq<Answer>)
      requires Valid() && before != Ok && IsBody(who, body)
      modifies `next, `argc, `calls, `answers
      ensures Valid() && InPhase(who, p) && p.body == body && p.idle == Idle(who, processed)
      ensures calls == old(calls) + Forward(p.idle, NoArgs, p.noArgsTo) + Backward(who, End, p.endsFrom)
        + Outcome(who, p) + Backward(who, Fini, 0)
      ensures answers == old(answers) + closing + notice + fini && ClosedBy(who, p, old(next), closing, notice, fini)
      ensures Settled(|who|, before, argBad, haveEnd, old(Here()), p, closing, notice, err, endIndex)
    {
      hide Flows, Forward, Backward;
      err, endIndex, closing := before, None, [];
      ghost var a, b, s := 0, |who|, |who|;
      ghost var was, idle := Now(), Idle(who, processed);
      Nothing(was, idle, NoArgs);
      Nothing(was, who, End);
      if err == BadKey && argBad {
        err := Ok;
      }
      if err == Ok {
        if next == argc {
          err, a, b, closing := CloseGroups();
          if haveEnd {
            endIndex := Some(next);
          }
        } else if haveEnd {
          endIndex := Some(next);
        } else {
          err := BadKey;
        }
      }
      ghost var failed := err != Ok;
      assert [] + Backward(who, End, |who|) == [];
      err, s, notice, fini := Notify(err);
      p := Phases(body, idle, a, b, failed, s);
      LeftConcat(was.next, closing, notice);
    }
  }

  /** How a bounded run ended: init failed, the steps ran out, or the parser was finalized. */
  datatype Status = InitFailed | Running | Finished

  /** What came of the calls of a run outside its steps. */
  datatype Rest = Rest(first: seq<Answer>, closing: seq<Answer>, notice: seq<Answer>, fini: seq<Answer>)

  /**
   __argp_parse with at most `n` steps of its loop, on a new parser. `steps` are those it made: their calls are the
   body of the trace, their gains make up `args_processed`, and the last of them is settled by the closing calls.
   */
  method Parse(parser: Parser, n: nat, haveEnd: bool)
    returns (status: Status, err: Err, endIndex: Option<int>, ghost p: Phases, ghost steps: seq<Step>, ghost rest: Rest)
    requires parser.Valid() && parser.calls == [] && parser.asks == [] && parser.quoted == 0 && parser.tryGetopt
    requires forall g :: 0 <= g < |parser.who| ==> parser.processed[g] == 0
    modifies parser
    ensures parser.Valid()
    ensures IsRun(parser.who, parser.noArgs, steps, |steps|) && |steps| <= n && parser.asks == Asks(steps, |steps|)
    ensures forall g :: 0 <= g < |parser.who| ==> parser.processed[g] == Gained(steps, parser.noArgs, g, |steps|)
    ensures UntilError(rest.first, if status == InitFailed then err else Ok)
    ensures steps != [] ==> steps[0].before.next == Left(old(parser.next), rest.first)
    ensures status == InitFailed ==> err != Ok && err != BadKey && parser.answers == rest.first && steps == []
    ensures status == InitFailed ==> exists n :: 0 <= n <= |parser.who| && parser.calls == Forward(parser.who, Init, n)
    ensures status == InitFailed ==> Flows(old(parser.next), parser.calls, rest.first)
    ensures status != InitFailed ==> Flows(old(parser.next), Forward(parser.who, Init, |parser.who|), rest.first)
    ensures status == Running ==> |steps| == n && parser.answers == rest.first + Said(steps, |steps|)
    ensures status == Running ==> parser.calls == Forward(parser.who, Init, |parser.who|) + Made(steps, |steps|)
    ensures status == Finished ==> steps != [] && steps[|steps| - 1].err != Ok
    ensures status == Finished ==> InPhase(parser.who, p) && parser.calls == Trace(parser.who, p)
    ensures status == Finished ==> p.body == Made(steps, |steps|) && p.idle == Idle(parser.who, parser.processed)
    ensures status == Finished ==> var last := steps[|steps| - 1];
      && parser.answers == rest.first + Said(steps, |steps|) + rest.closing + rest.notice + rest.fini
      && ClosedBy(parser.who, p, last.after.next, rest.closing, rest.notice, rest.fini)
      && Settled(|parser.who|, last.err, last.argBad, haveEnd, last.after, p, rest.closing, rest.notice, err, endIndex)
  {
    hide Settled, UntilError, InPhase, Trace, IsRun, IsBody, ClosedBy, Flows, Left;
    status, endIndex := Running, None;
    p, steps, rest := Phases([], [], 0, 0, false, 0), [], Rest([], [], [], []);
    ghost var k, at, first := 0, parser.next, [];
    err, k := Begin(parser);
    first := parser.answers;
    rest := rest.(first := first);
    if err != Ok {
      return InitFailed, err, None, p, steps, rest;
    }
    var argBad := false;
    var i := 0;
    while err == Ok && i < n
      invariant i <= n && |steps| == i && Parsing(parser, steps, first, Left(at, first))
      invariant if steps == [] then err == Ok else err == steps[i - 1].err && argBad == steps[i - 1].argBad
    {
      err, argBad, steps := OneStep(parser, steps, first, Left(at, first));
      i := i + 1;
    }
    if err != Ok {
      status := Finished;
      err, endIndex, p, rest := Finish(parser, err, argBad, haveEnd, steps, first, Left(at, first));
    }
  }

  /** The INIT calls. */
  method Begin(parser: Parser) returns (err: Err, ghost n: nat)
    requires parser.Valid() && parser.calls == [] && parser.asks == [] && parser.quoted == 0 && parser.tryGetopt
    requires forall g :: 0 <= g < |parser.who| ==> parser.processed[g] == 0
    modifies parser
    ensures parser.Valid() && n <= |parser.who| && parser.calls == Forward(parser.who, Init, n)
    ensures err != BadKey && UntilError(parser.answers, err) && Flows(old(parser.next), parser.calls, parser.answers)
    ensures err == Ok ==>
      n == |parser.who| && Parsing(parser, [], parser.answers, Left(old(parser.next), parser.answers))
    ensures forall g :: 0 <= g < |parser.who| ==> parser.processed[g] == 0
    ensures IsRun(parser.who, parser.noArgs, [], 0) && parser.asks == []
  {
    hide UntilError, Flows;
    err, n := parser.InitGroups();
    NoBody(parser.who);
  }

  /** The end of a parse that stopped after `steps`. */
  method Finish(parser: Parser, before: Err, argBad: bool, haveEnd: bool, ghost steps: seq<Step>,
      ghost first: seq<Answer>, ghost at: int)
    returns (err: Err, endIndex: Option<int>, ghost p: Phases, ghost rest: Rest)
    requires before != Ok && Parsing(parser, steps, first, at) && steps != []
    requires before == steps[|steps| - 1].err && argBad == steps[|steps| - 1].argBad
    modifies parser
    ensures parser.Valid() && IsRun(parser.who, parser.noArgs, steps, |steps|) && parser.asks == Asks(steps, |steps|)
    ensures forall g :: 0 <= g < |parser.who| ==> parser.processed[g] == Gained(steps, parser.noArgs, g, |steps|)
    ensures InPhase(parser.who, p) && parser.calls == Trace(parser.who, p)
    ensures p.body == Made(steps, |steps|) && p.idle == Idle(parser.who, parser.processed)
    ensures rest.first == first
    ensures parser.answers == first + Said(steps, |steps|) + rest.closing + rest.notice + rest.fini
    ensures var last := steps[|steps| - 1].after;
      && ClosedBy(parser.who, p, last.next, rest.closing, rest.notice, rest.fini)
      && Settled(|parser.who|, before, argBad, haveEnd, last, p, rest.closing, rest.notice, err, endIndex)
  {
    hide Settled, UntilError, IsRun, IsBody, ClosedBy;
    ghost var closing, notice, fini;
    err, endIndex, p, closing, notice, fini := parser.Finalize(before, argBad, haveEnd, Made(steps, |steps|));
    rest := Rest(first, closing, notice, fini);
  }

  /** The parser has made the steps so far, from where the INIT calls left `next`. */
  ghost predicate Parsing(parser: Parser, steps: seq<Step>, first: seq<Answer>, at: int)
    reads parser
  {
    && parser.Valid() && IsRun(parser.who, parser.noArgs, steps, |steps|)
    && IsBody(parser.who, Made(steps, |steps|))
    && parser.calls == Forward(parser.who, Init, |parser.who|) + Made(steps, |steps|)
    && parser.answers == first + Said(steps, |steps|)
    && parser.asks == Asks(steps, |steps|)
    && (if steps == [] then parser.quoted == 0 && parser.tryGetopt && parser.next == at
        else steps[0].before.next == at && parser.Here() == steps[|steps| - 1].after)
    && forall g :: 0 <= g < |parser.who| ==> parser.processed[g] == Gained(steps, parser.noArgs, g, |steps|)
  }

  method OneStep(parser: Parser, ghost steps: seq<Step>, ghost first: seq<Answer>, ghost at: int)
    returns (err: Err, argBad: bool, ghost more: seq<Step>)
    requires Parsing(parser, steps, first, at) && (steps != [] ==> steps[|steps| - 1].err == Ok)
    modifies parser
    ensures |more| == |steps| + 1 && Parsing(parser, more, first, at)
    ensures err == more[|steps|].err && argBad == more[|steps|].argBad
  {
    hide IsRun, StepOk, IsBody, Forward, Made, Said, Asks, Gained, Gain;
    ghost var s: Step;
    ghost var init := Forward(parser.who, Init, |parser.who|);
    err, argBad, s := parser.ParseNext();
    more := steps + [s];
    RunOn(parser.who, parser.noArgs, steps, s);
    assert IsBody(parser.who, s.made) by {
      MadeIsBody(parser.who, parser.noArgs, s);
    }
    BodyMore(parser.who, init, Made(steps, |steps|), s.made);
    assert first + Said(steps, |steps|) + s.said == first + (Said(steps, |steps|) + s.said);
  }
}
