/**
 Alternative usage patterns: argp-help counts through every combination of the newline-separated
 alternatives of the args_doc strings with one byte per multi-line string.
 */
module Usage {
  import opened ArgpTree
  import opened Wrappers
  import opened Text

  newtype Level = x: int | -128 <= x < 128

  /** The newline-separated pieces of `doc` from position `i` on. */
  function Split(doc: string, i: nat): (pieces: seq<string>)
    requires i <= |doc|
    ensures |pieces| > 0
    ensures |pieces| == 1 <==> NewlineAt(doc, i) == |doc|
    decreases |doc| - i
  {
    var nl := NewlineAt(doc, i);
    [doc[i..nl]] + if nl < |doc| then Split(doc, nl + 1) else []
  }

  function Alternatives(a: Argp): (alts: seq<string>)
    ensures |alts| > 0
  {
    if a.argsDoc.Some? then Split(a.argsDoc.value, 0) else [""]
  }

  predicate Multiple(a: Argp) {
    |Alternatives(a)| > 1
  }

  /** The level bytes the tree needs. */
  function Slots(a: Argp): nat {
    (if Multiple(a) then 1 else 0) + SlotsOf(a.children, |a.children|)
  }

  /** Those of the first `i` children; likewise below. */
  function SlotsOf(cs: seq<Argp>, i: nat): nat
    requires i <= |cs|
  {
    if i == 0 then 0 else SlotsOf(cs, i - 1) + Slots(cs[i - 1])
  }

  /** How many combinations of alternatives there are. */
  function Count(a: Argp): (n: nat)
    ensures n > 0
  {
    CountOf(a.children, |a.children|) * |Alternatives(a)|
  }

  function CountOf(cs: seq<Argp>, i: nat): (n: nat)
    requires i <= |cs|
    ensures n > 0
  {
    if i == 0 then 1 else CountOf(cs, i - 1) * Count(cs[i - 1])
  }

  /** No string has more alternatives than a byte can count. */
  predicate Countable(a: Argp) {
    |Alternatives(a)| <= 128 && forall i :: 0 <= i < |a.children| ==> Countable(a.children[i])
  }

  // ----- Levels as digits of a mixed-radix number: a node's digit precedes its children's in
  // memory but outweighs them, and earlier children weigh less than later ones.

  predicate Digits(a: Argp, ds: seq<Level>) {
    && |ds| == Slots(a)
    && (Multiple(a) ==> 0 <= ds[0] as int < |Alternatives(a)|)
    && DigitsOf(a.children, |a.children|, Below(a, ds))
  }

  predicate DigitsOf(cs: seq<Argp>, i: nat, ds: seq<Level>)
    requires i <= |cs| && SlotsOf(cs, i) <= |ds|
  {
    i == 0 || (DigitsOf(cs, i - 1, ds) && Digits(cs[i - 1], ds[SlotsOf(cs, i - 1)..SlotsOf(cs, i)]))
  }

  function Own(a: Argp, ds: seq<Level>): int
    requires |ds| == Slots(a)
  {
    if Multiple(a) then ds[0] as int else 0
  }

  function Below(a: Argp, ds: seq<Level>): seq<Level>
    requires |ds| == Slots(a)
  {
    if Multiple(a) then ds[1..] else ds
  }

  function Value(a: Argp, ds: seq<Level>): int
    requires Digits(a, ds)
  {
    ValueOf(a.children, |a.children|, Below(a, ds)) + CountOf(a.children, |a.children|) * Own(a, ds)
  }

  function ValueOf(cs: seq<Argp>, i: nat, ds: seq<Level>): int
    requires i <= |cs| && SlotsOf(cs, i) <= |ds| && DigitsOf(cs, i, ds)
  {
    if i == 0 then 0 else
    ValueOf(cs, i - 1, ds) + CountOf(cs, i - 1) * Value(cs[i - 1], ds[SlotsOf(cs, i - 1)..SlotsOf(cs, i)])
  }

  /** The pieces of text that one combination shows, parents first. */
  function Render(a: Argp, ds: seq<Level>): seq<string>
    requires Digits(a, ds)
  {
    (if a.argsDoc.Some? then [Alternatives(a)[Own(a, ds)]] else []) + RenderOf(a.children, |a.children|, Below(a, ds))
  }

  function RenderOf(cs: seq<Argp>, i: nat, ds: seq<Level>): seq<string>
    requires i <= |cs| && SlotsOf(cs, i) <= |ds| && DigitsOf(cs, i, ds)
  {
    if i == 0 then [] else
    RenderOf(cs, i - 1, ds) + Render(cs[i - 1], ds[SlotsOf(cs, i - 1)..SlotsOf(cs, i)])
  }

  lemma MixedRadix(low: int, high: int, radixLow: int, radixHigh: int)
    requires 0 <= low < radixLow && 0 <= high < radixHigh
    ensures 0 <= low + radixLow * high < radixLow * radixHigh
  {
    assert radixLow * high <= radixLow * (radixHigh - 1);
    assert radixLow * (radixHigh - 1) == radixLow * radixHigh - radixLow;
    assert 0 <= radixLow * high;
  }

  lemma {:induction false} ValueInRange(a: Argp, ds: seq<Level>)
    requires Digits(a, ds)
    ensures 0 <= Value(a, ds) < Count(a)
  {
    var cs, n := a.children, |a.children|;
    ValueOfInRange(cs, n, Below(a, ds));
    MixedRadix(ValueOf(cs, n, Below(a, ds)), Own(a, ds), CountOf(cs, n), |Alternatives(a)|);
  }

  lemma {:induction false} ValueOfInRange(cs: seq<Argp>, i: nat, ds: seq<Level>)
    requires i <= |cs| && SlotsOf(cs, i) <= |ds| && DigitsOf(cs, i, ds)
    ensures 0 <= ValueOf(cs, i, ds) < CountOf(cs, i)
  {
    hide Digits, Value, Slots, Count;
    if i > 0 {
      var d := ds[SlotsOf(cs, i - 1)..SlotsOf(cs, i)];
      ValueOfInRange(cs, i - 1, ds);
      ValueInRange(cs[i - 1], d);
      MixedRadix(ValueOf(cs, i - 1, ds), Value(cs[i - 1], d), CountOf(cs, i - 1), Count(cs[i - 1]));
    }
  }

  lemma MulMagnitude(radix: int, d: int)
    requires radix > 0
    ensures d > 0 ==> radix * d >= radix
    ensures d < 0 ==> radix * d <= -radix
  {
  }

  lemma RadixDigits(low: int, high: int, low': int, high': int, radix: int)
    requires 0 <= low < radix && 0 <= low' < radix
    requires low + radix * high == low' + radix * high'
    ensures low == low' && high == high'
  {
    MulMagnitude(radix, high - high');
    assert radix * (high - high') == radix * high - radix * high';
  }

  /** Different levels have different values. */
  lemma {:induction false} ValueInjective(a: Argp, ds: seq<Level>, ds': seq<Level>)
    requires Digits(a, ds) && Digits(a, ds') && Value(a, ds) == Value(a, ds')
    ensures ds == ds'
  {
    hide ValueOf, CountOf, SlotsOf, DigitsOf;
    var cs, n, b, b' := a.children, |a.children|, Below(a, ds), Below(a, ds');
    ValueOfInRange(cs, n, b);
    ValueOfInRange(cs, n, b');
    RadixDigits(ValueOf(cs, n, b), Own(a, ds), ValueOf(cs, n, b'), Own(a, ds'), CountOf(cs, n));
    ValueOfInjective(cs, n, b, b');
    assert b[..|b|] == b && b'[..|b|] == b';
    if Multiple(a) {
      assert ds[..1] == [ds[0]] == [ds'[0]] == ds'[..1];
      SameParts(ds, ds', 1);
    }
  }

  lemma SameParts(ds: seq<Level>, ds': seq<Level>, n: nat)
    requires n <= |ds| && n <= |ds'| && ds[..n] == ds'[..n] && ds[n..] == ds'[n..]
    ensures ds == ds'
  {
    assert ds == ds[..n] + ds[n..] && ds' == ds'[..n] + ds'[n..];
  }

  /** A number's lowest digits and its highest one. */
  lemma ValueOfParts(cs: seq<Argp>, i: nat, ds: seq<Level>, d: seq<Level>) returns (low: int, high: int)
    requires 0 < i <= |cs| && SlotsOf(cs, i) <= |ds| && DigitsOf(cs, i, ds)
    requires d == ds[SlotsOf(cs, i - 1)..SlotsOf(cs, i)]
    ensures DigitsOf(cs, i - 1, ds) && Digits(cs[i - 1], d)
    ensures low == ValueOf(cs, i - 1, ds) && high == Value(cs[i - 1], d)
    ensures ValueOf(cs, i, ds) == low + CountOf(cs, i - 1) * high && 0 <= low < CountOf(cs, i - 1)
  {
    hide Digits, Value, Slots, Count;
    ValueOfInRange(cs, i - 1, ds);
    low, high := ValueOf(cs, i - 1, ds), Value(cs[i - 1], d);
  }

  lemma {:induction false} ValueOfInjective(cs: seq<Argp>, i: nat, ds: seq<Level>, ds': seq<Level>)
    requires i <= |cs| && SlotsOf(cs, i) <= |ds| && SlotsOf(cs, i) <= |ds'|
    requires DigitsOf(cs, i, ds) && DigitsOf(cs, i, ds') && ValueOf(cs, i, ds) == ValueOf(cs, i, ds')
    ensures ds[..SlotsOf(cs, i)] == ds'[..SlotsOf(cs, i)]
  {
    hide Digits, Value, Slots, Count, DigitsOf, ValueOf, CountOf;
    if i > 0 {
      var n, n' := SlotsOf(cs, i - 1), SlotsOf(cs, i);
      var d, d' := ds[n..n'], ds'[n..n'];
      var low, high := ValueOfParts(cs, i, ds, d);
      var low', high' := ValueOfParts(cs, i, ds', d');
      RadixDigits(low, high, low', high', CountOf(cs, i - 1));
      ValueOfInjective(cs, i - 1, ds, ds');
      ValueInjective(cs[i - 1], d, d');
      JoinParts(ds, ds', n, n');
    }
  }

  lemma JoinParts(ds: seq<Level>, ds': seq<Level>, n: nat, n': nat)
    requires n <= n' <= |ds| && n' <= |ds'| && ds[..n] == ds'[..n] && ds[n..n'] == ds'[n..n']
    ensures ds[..n'] == ds'[..n']
  {
    assert ds[..n'] == ds[..n] + ds[n..n'] && ds'[..n'] == ds'[..n] + ds'[n..n'];
  }

  // ----- Counting

  /** From `ds` to `ds'` is one step up if `advance`, wrapping to zero and carrying at the top. */
  ghost predicate Stepped(a: Argp, ds: seq<Level>, ds': seq<Level>, advance: bool, carry: bool) {
    && Digits(a, ds) && Digits(a, ds')
    && Value(a, ds') + (if carry then Count(a) else 0) == Value(a, ds) + (if advance then 1 else 0)
  }

  ghost predicate SteppedOf(cs: seq<Argp>, i: nat, ds: seq<Level>, ds': seq<Level>, advance: bool, carry: bool)
    requires i <= |cs|
  {
    && SlotsOf(cs, i) <= |ds| && SlotsOf(cs, i) <= |ds'| && DigitsOf(cs, i, ds) && DigitsOf(cs, i, ds')
    && ValueOf(cs, i, ds') + (if carry then CountOf(cs, i) else 0) == ValueOf(cs, i, ds) + (if advance then 1 else 0)
  }

  lemma CarryOn(low: int, low': int, n: int, high: int, high': int, c: int, advance: bool, middle: bool, carry: bool)
    requires low' + (if middle then n else 0) == low + (if advance then 1 else 0)
    requires high' + (if carry then c else 0) == high + (if middle then 1 else 0)
    ensures low' + n * high' + (if carry then n * c else 0) == low + n * high + (if advance then 1 else 0)
  {
    assert n * (high' + (if carry then c else 0)) == n * high' + (if carry then n * c else 0);
    assert n * (high + (if middle then 1 else 0)) == n * high + (if middle then n else 0);
  }

  /** The first children do not see later levels. */
  lemma {:induction false} SamePrefix(cs: seq<Argp>, i: nat, ds: seq<Level>, es: seq<Level>)
    requires i <= |cs| && SlotsOf(cs, i) <= |ds| && SlotsOf(cs, i) <= |es|
    requires ds[..SlotsOf(cs, i)] == es[..SlotsOf(cs, i)] && DigitsOf(cs, i, ds)
    ensures DigitsOf(cs, i, es) && ValueOf(cs, i, es) == ValueOf(cs, i, ds)
  {
    hide Digits, Value, Slots, Count;
    if i > 0 {
      var n, n' := SlotsOf(cs, i - 1), SlotsOf(cs, i);
      assert ds[..n'][..n] == ds[..n] && es[..n'][..n] == es[..n];
      SamePrefix(cs, i - 1, ds, es);
      assert ds[n..n'] == ds[..n'][n..] == es[..n'][n..] == es[n..n'];
    }
  }

  /** One child's levels `e` replace those in `es`. */
  lemma SteppedChild(cs: seq<Argp>, i: nat, ds: seq<Level>, es: seq<Level>, e: seq<Level>,
                     advance: bool, middle: bool, carry: bool)
    requires i < |cs| && SteppedOf(cs, i, ds, es, advance, middle) && SlotsOf(cs, i + 1) <= |ds| == |es|
    requires var n, n' := SlotsOf(cs, i), SlotsOf(cs, i + 1); Stepped(cs[i], ds[n..n'], e, middle, carry)
    ensures var n, n' := SlotsOf(cs, i), SlotsOf(cs, i + 1);
      SteppedOf(cs, i + 1, ds, es[..n] + e + es[n'..], advance, carry)
  {
    hide Value, Slots, Count;
    var n, n' := SlotsOf(cs, i), SlotsOf(cs, i + 1);
    var es' := es[..n] + e + es[n'..];
    assert es'[..n] == es[..n] && es'[n..n'] == e;
    SamePrefix(cs, i, es, es');
    CarryOn(ValueOf(cs, i, ds), ValueOf(cs, i, es), CountOf(cs, i),
            Value(cs[i], ds[n..n']), Value(cs[i], e), Count(cs[i]), advance, middle, carry);
  }

  lemma SteppedNode(a: Argp, ds: seq<Level>, own: seq<Level>, below: seq<Level>,
                    advance: bool, middle: bool, carry: bool)
    requires Digits(a, ds) && |below| == SlotsOf(a.children, |a.children|)
    requires SteppedOf(a.children, |a.children|, Below(a, ds), below, advance, middle)
    requires |own| == (if Multiple(a) then 1 else 0)
    requires var d, d' := Own(a, ds), if Multiple(a) then own[0] as int else 0;
      0 <= d' < |Alternatives(a)| && d' + (if carry then |Alternatives(a)| else 0) == d + (if middle then 1 else 0)
    ensures Stepped(a, ds, own + below, advance, carry)
  {
    var cs, n, b := a.children, |a.children|, Below(a, ds);
    assert Below(a, own + below) == below;
    CarryOn(ValueOf(cs, n, b), ValueOf(cs, n, below), CountOf(cs, n),
            Own(a, ds), Own(a, own + below), |Alternatives(a)|, advance, middle, carry);
  }

  /** The children's levels come one after the other. */
  lemma {:induction false} SlotsMonotone(cs: seq<Argp>, i: nat, j: nat)
    requires i <= j <= |cs|
    ensures SlotsOf(cs, i) <= SlotsOf(cs, j)
    decreases j
  {
    hide Slots;
    if i < j {
      SlotsMonotone(cs, i, j - 1);
    }
  }

  lemma {:induction false} ChildDigits(cs: seq<Argp>, k: nat, ds: seq<Level>, i: nat)
    requires i < k <= |cs| && SlotsOf(cs, k) <= |ds| && DigitsOf(cs, k, ds)
    ensures SlotsOf(cs, i + 1) <= |ds| && DigitsOf(cs, i, ds)
    ensures Digits(cs[i], ds[SlotsOf(cs, i)..SlotsOf(cs, i + 1)])
    decreases k
  {
    hide Digits, Slots;
    SlotsMonotone(cs, i + 1, k);
    if i + 1 < k {
      ChildDigits(cs, k - 1, ds, i);
    }
  }

  /** The levels needed, counted as the source counts them. */
  method ArgsLevels(a: Argp) returns (n: nat)
    ensures n == Slots(a)
  {
    n := 0;
    if a.argsDoc.Some? && NewlineAt(a.argsDoc.value, 0) < |a.argsDoc.value| {
      n := 1;
    }
    ghost var own := n;
    for i := 0 to |a.children|
      invariant n == own + SlotsOf(a.children, i)
    {
      var m := ArgsLevels(a.children[i]);
      n := n + m;
    }
  }

  /** Piece `i` begins at `cp`; behind it come the other pieces, if there are any. */
  lemma SplitOn(doc: string, cp: nat, pieces: seq<string>, i: nat)
    requires cp <= |doc| && i < |pieces| && Split(doc, cp) == pieces[i..]
    ensures var nl := NewlineAt(doc, cp);
      && pieces[i] == doc[cp..nl] && (nl < |doc| <==> i + 1 < |pieces|)
      && (nl < |doc| ==> Split(doc, nl + 1) == pieces[i + 1..])
  {
    hide NewlineAt;
    assert Split(doc, cp)[0] == pieces[i] && Split(doc, cp)[1..] == pieces[i + 1..];
  }

  /** Skip to the alternative that `level` selects. */
  method Select(doc: string, level: Level) returns (piece: string, last: bool)
    requires 0 <= level as int < |Split(doc, 0)|
    ensures piece == Split(doc, 0)[level]
    ensures last <==> level as int == |Split(doc, 0)| - 1
  {
    hide NewlineAt, Split;
    ghost var pieces := Split(doc, 0);
    var cp: nat, nl := 0, NewlineAt(doc, 0);
    var i := 0;
    while i < level as int
      invariant 0 <= i <= level as int && cp <= |doc|
      invariant nl == NewlineAt(doc, cp) && Split(doc, cp) == pieces[i..]
    {
      SplitOn(doc, cp, pieces, i);
      cp := nl + 1;
      nl := NewlineAt(doc, cp);
      i := i + 1;
    }
    SplitOn(doc, cp, pieces, i);
    piece, last := doc[cp..nl], nl == |doc|;
  }

  /** The node's own alternative. */
  method OwnPattern(a: Argp, levels: array<Level>, slot: nat, ghost ds: seq<Level>)
    returns (multiple: bool, last: bool, own: seq<string>)
    requires Digits(a, ds) && (Multiple(a) ==> slot < levels.Length && levels[slot] == ds[0])
    ensures multiple == Multiple(a) && (last <==> Own(a, ds) == |Alternatives(a)| - 1)
    ensures own == if a.argsDoc.Some? then [Alternatives(a)[Own(a, ds)]] else []
  {
    multiple, last, own := false, true, [];
    if a.argsDoc.Some? {
      var doc, level := a.argsDoc.value, 0;
      if NewlineAt(doc, 0) < |doc| {
        multiple := true;
        level := levels[slot];
      }
      var piece;
      piece, last := Select(doc, level);
      own := [piece];
    }
  }

  /** Go to the next alternative, or back to the first. */
  method IncreaseOwn(levels: array<Level>, slot: nat, last: bool,
                     ghost pre: seq<Level>, ghost level: Level, ghost post: seq<Level>)
    returns (carry: bool, ghost mine: seq<Level>)
    requires levels[..] == pre + [level] + post && |pre| == slot
    requires 0 <= level && (level < 127 || last)
    modifies levels
    ensures carry == last && mine == [if last then 0 else level + 1]
    ensures levels[..] == pre + mine + post
  {
    carry, mine := true, [if last then 0 else level + 1];
    assert levels[slot] == levels[..][slot] == level;
    if !last {
      levels[slot] := levels[slot] + 1;
      carry := false;
    } else if levels[slot] > 0 {
      levels[slot] := 0;
    }
    assert levels[..] == (pre + [level] + post)[slot := mine[0]];
  }

  /** A node's level, then its children's. */
  lemma NodeLevels(a: Argp, pre: seq<Level>, ds: seq<Level>, post: seq<Level>)
    requires Digits(a, ds)
    ensures var k := if Multiple(a) then 1 else 0;
      k <= |ds| && pre + ds + post == (pre + ds[..k]) + Below(a, ds) + post
  {
    if Multiple(a) {
      Cut(pre, ds, 1, post);
    } else {
      Cut(pre, ds, 0, post);
      assert ds[0..] == ds;
    }
  }

  lemma Cut(pre: seq<Level>, ds: seq<Level>, k: nat, post: seq<Level>)
    requires k <= |ds|
    ensures pre + ds + post == (pre + ds[..k]) + ds[k..] + post
  {
    assert ds == ds[..k] + ds[k..];
  }

  /** A child's levels `e` within all the levels. */
  lemma Replace(pre: seq<Level>, es: seq<Level>, n: nat, n': nat, e: seq<Level>, post: seq<Level>)
    requires n <= n' <= |es|
    ensures pre + es + post == (pre + es[..n]) + es[n..n'] + (es[n'..] + post)
    ensures (pre + es[..n]) + e + (es[n'..] + post) == pre + (es[..n] + e + es[n'..]) + post
  {
    assert es == es[..n] + es[n..n'] + es[n'..];
  }

  lemma OwnThenBelow(pre: seq<Level>, mine: seq<Level>, below: seq<Level>, post: seq<Level>)
    ensures (pre + mine) + below + post == pre + (mine + below) + post == pre + mine + (below + post)
  {
  }

  /** The first `i` children have written `out` and turned their part of `ds` into that of `es`. */
  ghost predicate Walked(cs: seq<Argp>, i: nat, ds: seq<Level>, es: seq<Level>, out: seq<string>,
                         advance: bool, carry: bool)
    requires i <= |cs|
  {
    && |es| == |ds| && SlotsOf(cs, i) <= |ds| && es[SlotsOf(cs, i)..] == ds[SlotsOf(cs, i)..]
    && DigitsOf(cs, i, ds) && out == RenderOf(cs, i, ds) && SteppedOf(cs, i, ds, es, advance, carry)
  }

  lemma WalkedNone(cs: seq<Argp>, ds: seq<Level>, advance: bool)
    ensures Walked(cs, 0, ds, ds, [], advance, advance)
  {
  }

  /** What the next child finds. */
  lemma NextChild(cs: seq<Argp>, i: nat, ds: seq<Level>, es: seq<Level>, out: seq<string>, advance: bool, carry: bool)
    requires i < |cs| && Walked(cs, i, ds, es, out, advance, carry)
    requires |ds| == SlotsOf(cs, |cs|) && DigitsOf(cs, |cs|, ds)
    ensures var n, n' := SlotsOf(cs, i), SlotsOf(cs, i + 1);
      && n <= n' <= |ds| == |es| && es[n..n'] == ds[n..n'] && es[n'..] == ds[n'..] && Digits(cs[i], ds[n..n'])
  {
    hide Digits, Slots, SteppedOf, RenderOf;
    var n, n' := SlotsOf(cs, i), SlotsOf(cs, i + 1);
    ChildDigits(cs, |cs|, ds, i);
    assert es[n..n'] == es[n..][..n' - n] == ds[n..n'] && es[n'..] == es[n..][n' - n..] == ds[n'..];
  }

  /** What it leaves. */
  lemma WalkedOn(cs: seq<Argp>, i: nat, ds: seq<Level>, es: seq<Level>, e: seq<Level>, out: seq<string>, o: seq<string>,
      advance: bool, middle: bool, carry: bool)
    requires i < |cs| && Walked(cs, i, ds, es, out, advance, middle)
    requires |ds| == SlotsOf(cs, |cs|) && DigitsOf(cs, |cs|, ds)
    requires SlotsOf(cs, i) <= SlotsOf(cs, i + 1) <= |ds|
    requires var d := ds[SlotsOf(cs, i)..SlotsOf(cs, i + 1)];
      Stepped(cs[i], d, e, middle, carry) && o == Render(cs[i], d)
    ensures var n, n' := SlotsOf(cs, i), SlotsOf(cs, i + 1);
      Walked(cs, i + 1, ds, es[..n] + e + es[n'..], out + o, advance, carry)
  {
    var n, n' := SlotsOf(cs, i), SlotsOf(cs, i + 1);
    NextChild(cs, i, ds, es, out, advance, middle);
    SteppedChild(cs, i, ds, es, e, advance, middle, carry);
    hide Slots, SteppedOf, Render;
    assert |e| == n' - n;
    assert (es[..n] + e + es[n'..])[n'..] == es[n'..];
  }

  /** Step through the children, each carrying into the next. */
  method ChildrenUsage(cs: seq<Argp>, levels: array<Level>, slot: nat, advance: bool,
                       ghost pre: seq<Level>, ghost ds: seq<Level>, ghost post: seq<Level>)
    returns (carry: bool, next: nat, out: seq<string>, ghost ds': seq<Level>)
    requires forall i :: 0 <= i < |cs| ==> Countable(cs[i])
    requires |ds| == SlotsOf(cs, |cs|) && DigitsOf(cs, |cs|, ds)
    requires levels[..] == pre + ds + post && |pre| == slot
    modifies levels
    ensures levels[..] == pre + ds' + post && next == slot + |ds'| && |ds'| == |ds|
    ensures out == RenderOf(cs, |cs|, ds) && SteppedOf(cs, |cs|, ds, ds', advance, carry)
    decreases cs
  {
    hide Digits, DigitsOf, Slots, SteppedOf, Render, RenderOf, Countable;
    carry, next, out, ds' := advance, slot, [], ds;
    WalkedNone(cs, ds, advance);
    for i := 0 to |cs|
      invariant next == slot + SlotsOf(cs, i) && levels[..] == pre + ds' + post
      invariant Walked(cs, i, ds, ds', out, advance, carry)
    {
      ghost var n, n' := SlotsOf(cs, i), SlotsOf(cs, i + 1);
      NextChild(cs, i, ds, ds', out, advance, carry);
      var more, o;
      ghost var e, es := ds[n..n'], ds';
      Replace(pre, es, n, n', [], post);
      more, next, o, e := ArgsUsage(cs[i], levels, next, carry, pre + es[..n], e, es[n'..] + post);
      Replace(pre, es, n, n', e, post);
      WalkedOn(cs, i, ds, es, e, out, o, advance, carry, !more);
      ds' := es[..n] + e + es[n'..];
      carry, out := !more, out + o;
    }
  }

  /** Write the combination `ds` at the levels from `slot` on; if `advance`, move them one step up.
      `more` says that the step did not wrap around. */
  method ArgsUsage(a: Argp, levels: array<Level>, slot: nat, advance: bool,
                   ghost pre: seq<Level>, ghost ds: seq<Level>, ghost post: seq<Level>)
    returns (more: bool, next: nat, out: seq<string>, ghost ds': seq<Level>)
    requires Countable(a) && Digits(a, ds)
    requires levels[..] == pre + ds + post && |pre| == slot
    modifies levels
    ensures levels[..] == pre + ds' + post && next == slot + |ds'|
    ensures out == Render(a, ds) && Stepped(a, ds, ds', advance, !more)
    decreases a
  {
    assert Multiple(a) ==> levels[..][slot] == ds[0];
    var multiple, last, own := OwnPattern(a, levels, slot, ds);
    next := if multiple then slot + 1 else slot;
    NodeLevels(a, pre, ds, post);
    ghost var mine, below := ds[..next - slot], Below(a, ds);
    var carry, o;
    carry, next, o, below := ChildrenUsage(a.children, levels, next, advance, pre + mine, below, post);
    out := own + o;
    ghost var middle := carry;
    OwnThenBelow(pre, mine, below, post);
    if carry && multiple {
      assert mine == [ds[0]];
      carry, mine := IncreaseOwn(levels, slot, last, pre, ds[0], below + post);
      OwnThenBelow(pre, mine, below, post);
    }
    more, ds' := !carry, mine + below;
    SteppedNode(a, ds, mine, below, advance, middle, carry);
  }

  /** The usage loop of a help message: one line for each pattern. */
  method Patterns(a: Argp) returns (levels: array<Level>, shown: seq<seq<Level>>, lines: seq<seq<string>>)
    requires Countable(a)
    ensures fresh(levels) && |lines| == |shown| == Count(a)
    ensures forall i :: 0 <= i < |shown| ==> Digits(a, shown[i]) && Value(a, shown[i]) == i
    ensures forall i :: 0 <= i < |shown| ==> lines[i] == Render(a, shown[i]) && Shows(Preorder(a), shown[i], lines[i])
    ensures levels.Length == Slots(a) && forall i :: 0 <= i < levels.Length ==> levels[i] == 0
  {
    hide Digits, Value, Slots, Count, Render, Shows, Preorder;
    var n := ArgsLevels(a);
    levels := new Level[n](_ => 0);
    ghost var zero := levels[..];
    ZeroDigits(a, zero);
    shown, lines := [], [];
    var more := true;
    while more
      invariant levels.Length == n && Digits(a, levels[..])
      invariant |lines| == |shown| <= Count(a)
      invariant Value(a, levels[..]) == if more then |shown| else 0
      invariant !more ==> |shown| == Count(a)
      invariant forall i :: 0 <= i < |shown| ==> Digits(a, shown[i]) && Value(a, shown[i]) == i
      invariant forall i :: 0 <= i < |shown| ==>
        lines[i] == Render(a, shown[i]) && Shows(Preorder(a), shown[i], lines[i])
      decreases Count(a) - |shown|, more
    {
      var ds := levels[..];
      var next, line;
      ghost var ds';
      assert [] + ds + [] == ds;
      more, next, line, ds' := ArgsUsage(a, levels, 0, true, [], ds, []);
      assert [] + ds' + [] == ds';
      ValueInRange(a, ds);
      ValueInRange(a, levels[..]);
      RenderShows(a, ds);
      shown, lines := shown + [ds], lines + [line];
    }
    ValueInjective(a, levels[..], zero);
    assert forall i :: 0 <= i < n ==> levels[i] == levels[..][i] == zero[i];
  }

  lemma {:induction false} ZeroDigits(a: Argp, ds: seq<Level>)
    requires |ds| == Slots(a) && forall i :: 0 <= i < |ds| ==> ds[i] == 0
    ensures Digits(a, ds) && Value(a, ds) == 0
  {
    ZeroDigitsOf(a.children, |a.children|, Below(a, ds));
    assert CountOf(a.children, |a.children|) * Own(a, ds) == 0;
  }

  lemma {:induction false} ZeroDigitsOf(cs: seq<Argp>, i: nat, ds: seq<Level>)
    requires i <= |cs| && SlotsOf(cs, i) <= |ds| && forall k :: 0 <= k < |ds| ==> ds[k] == 0
    ensures DigitsOf(cs, i, ds) && ValueOf(cs, i, ds) == 0
  {
    hide Digits, Value, Slots, Count;
    if i > 0 {
      ZeroDigitsOf(cs, i - 1, ds);
      ZeroDigits(cs[i - 1], ds[SlotsOf(cs, i - 1)..SlotsOf(cs, i)]);
      assert CountOf(cs, i - 1) * 0 == 0;
    }
  }

  /** A listing in counting order shows every combination of alternatives exactly once. */
  lemma EveryPatternOnce(a: Argp, shown: seq<seq<Level>>, ds: seq<Level>)
    requires |shown| == Count(a) && Digits(a, ds)
    requires forall i :: 0 <= i < |shown| ==> Digits(a, shown[i]) && Value(a, shown[i]) == i
    ensures 0 <= Value(a, ds) < |shown|
    ensures forall i :: 0 <= i < |shown| ==> (shown[i] == ds <==> i == Value(a, ds))
  {
    ValueInRange(a, ds);
    ValueInjective(a, shown[Value(a, ds)], ds);
  }

  // ----- What a line says

  function Join(pieces: seq<string>): string {
    if pieces == [] then "" else if |pieces| == 1 then pieces[0] else pieces[0] + "\n" + Join(pieces[1..])
  }

  /** The pieces are those that newlines separate: put together again they give the text, and none holds a newline. */
  lemma {:induction false} SplitRejoins(doc: string, i: nat)
    requires i <= |doc|
    ensures Join(Split(doc, i)) == doc[i..] && forall k :: 0 <= k < |Split(doc, i)| ==> '\n' !in Split(doc, i)[k]
    decreases |doc| - i
  {
    hide Join, NewlineAt;
    var nl := NewlineAt(doc, i);
    assert '\n' !in doc[i..nl];
    if nl < |doc| {
      SplitRejoins(doc, nl + 1);
      JoinFirst(doc, i, nl, Split(doc, nl + 1));
      assert Split(doc, i) == [doc[i..nl]] + Split(doc, nl + 1);
    } else {
      assert doc[i..nl] == doc[i..] && Split(doc, i) == [doc[i..]];
      JoinOne(doc[i..]);
    }
  }

  lemma JoinOne(piece: string)
    ensures Join([piece]) == piece
  {
  }

  lemma JoinFirst(doc: string, i: nat, nl: nat, pieces: seq<string>)
    requires i <= nl < |doc| && doc[nl] == '\n' && pieces != [] && Join(pieces) == doc[nl + 1..]
    ensures Join([doc[i..nl]] + pieces) == doc[i..]
  {
    var all := [doc[i..nl]] + pieces;
    assert all[1..] == pieces;
    assert doc[i..nl] + "\n" == doc[i..nl + 1];
    assert doc[i..nl + 1] + doc[nl + 1..] == doc[i..];
  }

  /** The level byte of the `i`-th argp, counted over the argps before it; and its place in a line. */
  function SlotAt(nodes: seq<Argp>, i: nat): nat
    requires i <= |nodes|
  {
    if i == 0 then 0 else SlotAt(nodes, i - 1) + if Multiple(nodes[i - 1]) then 1 else 0
  }

  function TextAt(nodes: seq<Argp>, i: nat): nat
    requires i <= |nodes|
  {
    if i == 0 then 0 else TextAt(nodes, i - 1) + if nodes[i - 1].argsDoc.Some? then 1 else 0
  }

  function Choice(nodes: seq<Argp>, i: nat, ds: seq<Level>): int
    requires i < |nodes| && SlotAt(nodes, i + 1) <= |ds|
  {
    if Multiple(nodes[i]) then ds[SlotAt(nodes, i)] as int else 0
  }

  /** `texts` shows the argps in order: of each that has an args_doc the alternative that its own level selects. */
  ghost predicate Shows(nodes: seq<Argp>, ds: seq<Level>, texts: seq<string>) {
    && SlotAt(nodes, |nodes|) == |ds| && TextAt(nodes, |nodes|) == |texts|
    && forall i :: 0 <= i < |nodes| && nodes[i].argsDoc.Some? ==> ShowsAt(nodes, ds, texts, i)
  }

  ghost predicate ShowsAt(nodes: seq<Argp>, ds: seq<Level>, texts: seq<string>, i: nat)
    requires i < |nodes| && nodes[i].argsDoc.Some?
  {
    && SlotAt(nodes, i + 1) <= |ds| && TextAt(nodes, i) < |texts|
    && var pieces, k := Split(nodes[i].argsDoc.value, 0), Choice(nodes, i, ds);
       0 <= k < |pieces| && texts[TextAt(nodes, i)] == pieces[k]
  }

  lemma {:induction false} PlacesConcat(m: seq<Argp>, n: seq<Argp>, i: nat)
    requires i <= |n|
    ensures SlotAt(m + n, |m| + i) == SlotAt(m, |m|) + SlotAt(n, i)
    ensures TextAt(m + n, |m| + i) == TextAt(m, |m|) + TextAt(n, i)
  {
    hide Multiple;
    if i == 0 {
      PlacesPrefix(m, n, |m|);
    } else {
      PlacesConcat(m, n, i - 1);
      assert (m + n)[|m| + i - 1] == n[i - 1];
    }
  }

  lemma {:induction false} PlacesPrefix(m: seq<Argp>, n: seq<Argp>, i: nat)
    requires i <= |m|
    ensures SlotAt(m + n, i) == SlotAt(m, i) && TextAt(m + n, i) == TextAt(m, i)
  {
    hide Multiple;
    if i > 0 {
      PlacesPrefix(m, n, i - 1);
    }
  }

  lemma ShowsConcat(m: seq<Argp>, n: seq<Argp>, ds: seq<Level>, es: seq<Level>, texts: seq<string>, more: seq<string>)
    requires Shows(m, ds, texts) && Shows(n, es, more)
    ensures Shows(m + n, ds + es, texts + more)
  {
    hide Multiple, Split;
    var all := m + n;
    PlacesConcat(m, n, |n|);
    forall i | 0 <= i < |all| && all[i].argsDoc.Some? ensures ShowsAt(all, ds + es, texts + more, i) {
      if i < |m| {
        assert ShowsAt(m, ds, texts, i);
        PlacesPrefix(m, n, i);
        PlacesPrefix(m, n, i + 1);
      } else {
        assert ShowsAt(n, es, more, i - |m|);
        PlacesConcat(m, n, i - |m|);
        PlacesConcat(m, n, i - |m| + 1);
      }
    }
  }

  lemma ShowsOne(a: Argp, own: seq<Level>, text: seq<string>)
    requires |own| == (if Multiple(a) then 1 else 0)
    requires Multiple(a) ==> 0 <= own[0] as int < |Alternatives(a)|
    requires text == if a.argsDoc.Some? then [Alternatives(a)[if Multiple(a) then own[0] as int else 0]] else []
    ensures Shows([a], own, text)
  {
    hide Split;
    assert SlotAt([a], 1) == |own| && TextAt([a], 1) == |text|;
  }

  /** A line shows the argps of the tree in preorder. */
  lemma {:induction false} RenderShows(a: Argp, ds: seq<Level>)
    requires Digits(a, ds)
    ensures Shows(Preorder(a), ds, Render(a, ds))
  {
    hide Shows, DigitsOf, SlotsOf, PreorderOf, RenderOf, Split;
    var k := if Multiple(a) then 1 else 0;
    var own := if a.argsDoc.Some? then [Alternatives(a)[Own(a, ds)]] else [];
    ShowsOne(a, ds[..k], own);
    RenderOfShows(a.children, |a.children|, Below(a, ds));
    assert Below(a, ds)[..SlotsOf(a.children, |a.children|)] == Below(a, ds);
    ShowsConcat([a], PreorderOf(a.children, |a.children|), ds[..k], Below(a, ds),
                own, RenderOf(a.children, |a.children|, Below(a, ds)));
    assert ds[..k] + Below(a, ds) == ds;
  }

  lemma {:induction false} RenderOfShows(cs: seq<Argp>, i: nat, ds: seq<Level>)
    requires i <= |cs| && SlotsOf(cs, i) <= |ds| && DigitsOf(cs, i, ds)
    ensures Shows(PreorderOf(cs, i), ds[..SlotsOf(cs, i)], RenderOf(cs, i, ds))
  {
    hide Digits, Slots, Render, Preorder, ShowsAt;
    if i > 0 {
      var n, n' := SlotsOf(cs, i - 1), SlotsOf(cs, i);
      RenderOfShows(cs, i - 1, ds);
      RenderShows(cs[i - 1], ds[n..n']);
      ShowsConcat(PreorderOf(cs, i - 1), Preorder(cs[i - 1]), ds[..n], ds[n..n'],
                  RenderOf(cs, i - 1, ds), Render(cs[i - 1], ds[n..n']));
      assert ds[..n] + ds[n..n'] == ds[..n'];
    }
  }

  /** With all levels zero that is the first alternative of each. */
  lemma FirstPattern(a: Argp, ds: seq<Level>, i: nat)
    requires Digits(a, ds) && forall k :: 0 <= k < |ds| ==> ds[k] == 0
    requires i < |Preorder(a)| && Preorder(a)[i].argsDoc.Some?
    ensures var nodes, doc := Preorder(a), Preorder(a)[i].argsDoc.value;
      TextAt(nodes, i) < |Render(a, ds)| && Render(a, ds)[TextAt(nodes, i)] == doc[..NewlineAt(doc, 0)]
  {
    hide Digits, Render, Preorder;
    RenderShows(a, ds);
    assert ShowsAt(Preorder(a), ds, Render(a, ds), i);
  }

  // ----- In which order the lines come

  /** The levels `ds` come before `ds'`: a node's own level counts most, then its last child's, and so on. */
  predicate Earlier(a: Argp, ds: seq<Level>, ds': seq<Level>)
    requires Digits(a, ds) && Digits(a, ds')
  {
    || Own(a, ds) < Own(a, ds')
    || (Own(a, ds) == Own(a, ds') && EarlierOf(a.children, |a.children|, Below(a, ds), Below(a, ds')))
  }

  predicate EarlierOf(cs: seq<Argp>, i: nat, ds: seq<Level>, ds': seq<Level>)
    requires i <= |cs| && SlotsOf(cs, i) <= |ds| && SlotsOf(cs, i) <= |ds'|
    requires DigitsOf(cs, i, ds) && DigitsOf(cs, i, ds')
  {
    i > 0 &&
    var n, n' := SlotsOf(cs, i - 1), SlotsOf(cs, i);
    || Earlier(cs[i - 1], ds[n..n'], ds'[n..n'])
    || (ds[n..n'] == ds'[n..n'] && EarlierOf(cs, i - 1, ds, ds'))
  }

  lemma RadixOrder(low: int, high: int, low': int, high': int, radix: int)
    requires 0 <= low < radix && 0 <= low' < radix
    ensures low + radix * high < low' + radix * high' <==> high < high' || (high == high' && low < low')
  {
    MulMagnitude(radix, high - high');
    assert radix * (high - high') == radix * high - radix * high';
  }

  /** Lines are listed in that order. */
  lemma {:induction false} ValueOrder(a: Argp, ds: seq<Level>, ds': seq<Level>)
    requires Digits(a, ds) && Digits(a, ds')
    ensures Value(a, ds) < Value(a, ds') <==> Earlier(a, ds, ds')
  {
    hide ValueOf, CountOf, SlotsOf, DigitsOf, EarlierOf;
    var cs, n, b, b' := a.children, |a.children|, Below(a, ds), Below(a, ds');
    ValueOfInRange(cs, n, b);
    ValueOfInRange(cs, n, b');
    ValueOfOrder(cs, n, b, b');
    RadixOrder(ValueOf(cs, n, b), Own(a, ds), ValueOf(cs, n, b'), Own(a, ds'), CountOf(cs, n));
  }

  lemma EarlierParts(cs: seq<Argp>, i: nat, ds: seq<Level>, ds': seq<Level>, d: seq<Level>, d': seq<Level>)
    requires 0 < i <= |cs| && SlotsOf(cs, i) <= |ds| && SlotsOf(cs, i) <= |ds'|
    requires DigitsOf(cs, i, ds) && DigitsOf(cs, i, ds')
    requires d == ds[SlotsOf(cs, i - 1)..SlotsOf(cs, i)] && d' == ds'[SlotsOf(cs, i - 1)..SlotsOf(cs, i)]
    ensures EarlierOf(cs, i, ds, ds') <==> Earlier(cs[i - 1], d, d') || (d == d' && EarlierOf(cs, i - 1, ds, ds'))
  {
    hide Digits, Slots, Earlier;
  }

  lemma NoneEarlier(cs: seq<Argp>, ds: seq<Level>, ds': seq<Level>)
    ensures ValueOf(cs, 0, ds) == ValueOf(cs, 0, ds') && !EarlierOf(cs, 0, ds, ds')
  {
  }

  lemma {:induction false} ValueOfOrder(cs: seq<Argp>, i: nat, ds: seq<Level>, ds': seq<Level>)
    requires i <= |cs| && SlotsOf(cs, i) <= |ds| && SlotsOf(cs, i) <= |ds'|
    requires DigitsOf(cs, i, ds) && DigitsOf(cs, i, ds')
    ensures ValueOf(cs, i, ds) < ValueOf(cs, i, ds') <==> EarlierOf(cs, i, ds, ds')
  {
    hide Digits, Value, Slots, SlotsOf, Count, DigitsOf, ValueOf, CountOf, Earlier, EarlierOf;
    if i == 0 {
      NoneEarlier(cs, ds, ds');
    } else {
      SlotsMonotone(cs, i - 1, i);
      var n, n' := SlotsOf(cs, i - 1), SlotsOf(cs, i);
      var d, d' := ds[n..n'], ds'[n..n'];
      var low, high := ValueOfParts(cs, i, ds, d);
      var low', high' := ValueOfParts(cs, i, ds', d');
      RadixOrder(low, high, low', high', CountOf(cs, i - 1));
      ValueOfOrder(cs, i - 1, ds, ds');
      ValueOrder(cs[i - 1], d, d');
      EarlierParts(cs, i, ds, ds', d, d');
      if high == high' {
        ValueInjective(cs[i - 1], d, d');
      } else {
        assert d != d';
      }
    }
  }
}
