/**
 The tables argp-parse builds for getopt: one string of short options, one array of long options,
 one group for each argp that has options or a parser, and slots for the children's inputs.
 */
module Convert {
  import opened ArgpTree
  import opened Wrappers

  datatype LongOpt = End | Long(name: string, hasArg: int, val: int)

  datatype Group = Group(
    node: nat, parser: bool, shortEnd: nat, firstInput: nat, inputs: nat, parent: Option<(nat, nat)>)

  const COLON := 58
  const PLUS := 43
  const MINUS := 45

  // ----- Option values: the group in the high byte of an int, the user's key below

  /** Conversion to a 32-bit int. */
  function Wrap32(x: int): int {
    (x + 0x8000_0000) % 0x1_0000_0000 - 0x8000_0000
  }

  function Encode(key: int, group: nat): int {
    Wrap32(key % 0x100_0000 + (group + 1) * 0x100_0000)
  }

  function GroupKey(val: int): int {
    val / 0x100_0000
  }

  function UserKey(val: int): int {
    Wrap32(val * 0x100) / 0x100
  }

  /** The high byte as a signed number. */
  function HighByte(group: nat): int {
    var n := (group + 1) % 256;
    if n < 128 then n else n - 256
  }

  lemma EncodeParts(key: int, group: nat)
    ensures Encode(key, group) == key % 0x100_0000 + HighByte(group) * 0x100_0000
  {
  }

  lemma DecodeKey(low: int, high: int)
    requires 0 <= low < 0x100_0000
    ensures UserKey(low + high * 0x100_0000) == if low < 0x80_0000 then low else low - 0x100_0000
  {
    assert (low + high * 0x100_0000) * 0x100 == low * 0x100 + high * 0x1_0000_0000;
  }

  /** Decoding gives back the group exactly up to the 127th, and the key exactly if it fits 24
      bits with its sign; such a value is no getopt code and no letter. */
  lemma DecodeEncode(key: int, group: nat)
    ensures GroupKey(Encode(key, group)) == group + 1 <==> group < 127
    ensures UserKey(Encode(key, group)) == key <==> -0x80_0000 <= key < 0x80_0000
    ensures group < 127 ==> Encode(key, group) > 255
  {
    var low := key % 0x100_0000;
    EncodeParts(key, group);
    DecodeKey(low, HighByte(group));
    assert GroupKey(low + HighByte(group) * 0x100_0000) == HighByte(group);
    assert low == key - (key / 0x100_0000) * 0x100_0000;
  }

  // ----- What the tables should hold after the first `n` argps in preorder

  /** The option that option `j` is an alias of: the latest that is no alias, or the first of all. */
  function Real(opts: seq<Opt>, j: nat): (r: nat)
    requires j < |opts|
    ensures r <= j && (!opts[r].alias || r == 0)
    ensures forall k :: r < k <= j ==> opts[k].alias
  {
    if j == 0 || !opts[j].alias then j else Real(opts, j - 1)
  }

  /** Option `j` is for the parser, not only documentation. */
  predicate ForParser(opts: seq<Opt>, j: nat)
    requires j < |opts|
  {
    !opts[Real(opts, j)].doc
  }

  function EmitOne(opts: seq<Opt>, j: nat): (s: seq<int>)
    requires j < |opts|
    ensures |s| <= 3
  {
    var r := opts[Real(opts, j)];
    if ForParser(opts, j) && IsShort(opts[j]) then
      [opts[j].key] + Colons(r)
    else []
  }

  function Colons(r: Opt): (s: seq<int>)
    ensures |s| <= 2
  {
    if r.arg.None? then [] else if r.argOptional then [COLON, COLON] else [COLON]
  }

  function Emit(seen: seq<int>, opts: seq<Opt>, m: nat): seq<int>
    requires m <= |opts|
  {
    if m == 0 then seen else Emit(seen, opts, m - 1) + EmitOne(opts, m - 1)
  }

  function Options(a: Argp): seq<Opt> {
    if a.options.Some? then a.options.value else []
  }

  function ShortOf(prefix: seq<int>, all: seq<Argp>, n: nat): seq<int>
    requires n <= |all|
  {
    if n == 0 then prefix else
    Emit(ShortOf(prefix, all, n - 1), Options(all[n - 1]), |Options(all[n - 1])|)
  }

  predicate IsGroup(a: Argp) {
    a.options.Some? || a.parser
  }

  function GroupCount(all: seq<Argp>, n: nat): nat
    requires n <= |all|
  {
    if n == 0 then 0 else GroupCount(all, n - 1) + if IsGroup(all[n - 1]) then 1 else 0
  }

  /** Input slots are for the children of argps that form a group. */
  function InputsOf(all: seq<Argp>, n: nat): nat
    requires n <= |all|
  {
    if n == 0 then 0 else InputsOf(all, n - 1) + if IsGroup(all[n - 1]) then |all[n - 1].children| else 0
  }

  function HasArg(o: Opt): int {
    if o.arg.None? then 0 else if o.argOptional then 2 else 1
  }

  function LongOne(opts: seq<Opt>, j: nat, group: nat): LongOpt
    requires j < |opts| && opts[j].name.Some?
  {
    var r := opts[Real(opts, j)];
    Long(opts[j].name.value, HasArg(r), Encode(if opts[j].key != 0 then opts[j].key else r.key, group))
  }

  /** The first long option called `name` among the first `n`, or -1. */
  function FindName(longs: seq<LongOpt>, n: nat, name: string): (i: int)
    requires n <= |longs|
    ensures -1 <= i < n && (i >= 0 ==> longs[i].Long? && longs[i].name == name)
  {
    if n == 0 then -1 else
    var i := FindName(longs, n - 1, name);
    if i >= 0 then i else if longs[n - 1].Long? && longs[n - 1].name == name then n - 1 else -1
  }

  predicate Named(longs: seq<LongOpt>, name: string) {
    FindName(longs, |longs|, name) >= 0
  }

  lemma {:induction false} FindNameAmongMore(longs: seq<LongOpt>, more: seq<LongOpt>, m: nat, n: nat, name: string)
    requires m <= n <= |more| && m <= |longs| && longs[..m] == more[..m]
    ensures FindName(longs, m, name) >= 0 ==> FindName(more, n, name) == FindName(longs, m, name)
    ensures m == n ==> FindName(more, n, name) == FindName(longs, m, name)
    decreases n
  {
    if m < n {
      FindNameAmongMore(longs, more, m, n - 1, name);
    } else if m > 0 {
      assert longs[m - 1] == longs[..m][m - 1] == more[..m][m - 1] == more[m - 1];
      assert longs[..m][..m - 1] == longs[..m - 1] && more[..m][..m - 1] == more[..m - 1];
      FindNameAmongMore(longs, more, m - 1, n - 1, name);
    }
  }

  /** The first `m` options add those whose names are new. */
  function LongScan(seen: seq<LongOpt>, opts: seq<Opt>, group: nat, m: nat): seq<LongOpt>
    requires m <= |opts|
  {
    if m == 0 then seen else LongStep(LongScan(seen, opts, group, m - 1), opts, m - 1, group)
  }

  function LongStep(s: seq<LongOpt>, opts: seq<Opt>, j: nat, group: nat): seq<LongOpt>
    requires j < |opts|
  {
    if ForParser(opts, j) && opts[j].name.Some? && !Named(s, opts[j].name.value)
    then s + [LongOne(opts, j, group)] else s
  }

  function LongOf(all: seq<Argp>, n: nat): seq<LongOpt>
    requires n <= |all|
  {
    if n == 0 then [] else
    LongScan(LongOf(all, n - 1), Options(all[n - 1]), GroupCount(all, n - 1), |Options(all[n - 1])|)
  }

  // ----- Sizes

  datatype Sizes = Sizes(short: nat, long: nat, groups: nat, inputs: nat) {
    function Plus(s: Sizes): Sizes {
      Sizes(short + s.short, long + s.long, groups + s.groups, inputs + s.inputs)
    }
  }

  function OwnSizes(a: Argp): Sizes {
    Sizes(3 * |Options(a)|, |Options(a)|, if IsGroup(a) then 1 else 0, |a.children|)
  }

  function SizesOf(all: seq<Argp>, n: nat): Sizes
    requires n <= |all|
  {
    if n == 0 then Sizes(0, 0, 0, 0) else SizesOf(all, n - 1).Plus(OwnSizes(all[n - 1]))
  }

  /** `part` stands in `all` from position `k` on. */
  ghost predicate Within(all: seq<Argp>, k: nat, part: seq<Argp>) {
    k + |part| <= |all| && all[k..k + |part|] == part
  }

  lemma WithinParts(all: seq<Argp>, k: nat, part: seq<Argp>, rest: seq<Argp>)
    requires Within(all, k, part + rest)
    ensures Within(all, k, part) && Within(all, k + |part|, rest)
  {
    assert part == (part + rest)[..|part|] && rest == (part + rest)[|part|..];
  }

  /** The tree's argps stand in `all` in preorder from position `k` on. */
  ghost predicate TreeAt(a: Argp, all: seq<Argp>, k: nat) {
    k < |all| && all[k] == a && ForestAt(a.children, |a.children|, all, k + 1)
  }

  ghost predicate ForestAt(cs: seq<Argp>, i: nat, all: seq<Argp>, k: nat)
    requires i <= |cs|
  {
    if i == 0 then k <= |all|
    else ForestAt(cs, i - 1, all, k) && TreeAt(cs[i - 1], all, k + |PreorderOf(cs, i - 1)|)
  }

  lemma {:induction false} WithinIsTree(a: Argp, all: seq<Argp>, k: nat)
    requires Within(all, k, Preorder(a))
    ensures TreeAt(a, all, k)
    decreases a
  {
    WithinParts(all, k, [a], PreorderOf(a.children, |a.children|));
    assert all[k] == all[k..k + 1][0];
    WithinIsForest(a.children, |a.children|, all, k + 1);
  }

  lemma {:induction false} WithinIsForest(cs: seq<Argp>, i: nat, all: seq<Argp>, k: nat)
    requires i <= |cs| && Within(all, k, PreorderOf(cs, i))
    ensures ForestAt(cs, i, all, k)
    decreases cs, i
  {
    if i > 0 {
      WithinParts(all, k, PreorderOf(cs, i - 1), Preorder(cs[i - 1]));
      WithinIsForest(cs, i - 1, all, k);
      WithinIsTree(cs[i - 1], all, k + |PreorderOf(cs, i - 1)|);
    }
  }

  /** A tree's own argps in preorder. */
  lemma WholeTree(a: Argp)
    ensures TreeAt(a, Preorder(a), 0)
  {
    assert Preorder(a)[0..0 + |Preorder(a)|] == Preorder(a);
    WithinIsTree(a, Preorder(a), 0);
  }

  lemma {:induction false} ChildAt(cs: seq<Argp>, n: nat, all: seq<Argp>, k: nat, i: nat)
    requires i < n <= |cs| && ForestAt(cs, n, all, k)
    ensures TreeAt(cs[i], all, k + |PreorderOf(cs, i)|)
    decreases n
  {
    if i < n - 1 {
      ChildAt(cs, n - 1, all, k, i);
    }
  }

  /** A tree standing in `all` ends within it. */
  lemma {:induction false} TreeEnds(a: Argp, all: seq<Argp>, k: nat)
    requires TreeAt(a, all, k)
    ensures k + |Preorder(a)| <= |all|
    decreases a
  {
    ForestEnds(a.children, |a.children|, all, k + 1);
  }

  lemma {:induction false} ForestEnds(cs: seq<Argp>, i: nat, all: seq<Argp>, k: nat)
    requires i <= |cs| && ForestAt(cs, i, all, k)
    ensures k + |PreorderOf(cs, i)| <= |all|
    decreases cs, i
  {
    if i > 0 {
      ForestEnds(cs, i - 1, all, k);
      TreeEnds(cs[i - 1], all, k + |PreorderOf(cs, i - 1)|);
    }
  }

  function TreeSizes(a: Argp): Sizes {
    OwnSizes(a).Plus(ForestSizes(a.children, |a.children|))
  }

  function ForestSizes(cs: seq<Argp>, i: nat): Sizes
    requires i <= |cs|
  {
    if i == 0 then Sizes(0, 0, 0, 0) else ForestSizes(cs, i - 1).Plus(TreeSizes(cs[i - 1]))
  }

  /** Add up what the tables need, tree by tree. */
  method CalcSizes(a: Argp, sizes: Sizes) returns (total: Sizes)
    ensures total == sizes.Plus(TreeSizes(a))
    decreases a
  {
    total := sizes;
    if a.options.Some? || a.parser {
      total := total.(groups := total.groups + 1);
      if a.options.Some? {
        var n := |a.options.value|;
        total := total.(short := total.short + n * 3, long := total.long + n);
      }
    }
    ghost var cs, own := a.children, OwnSizes(a);
    assert total == sizes.Plus(own.(inputs := 0));
    for i := 0 to |a.children|
      invariant total == sizes.Plus(own.(inputs := i)).Plus(ForestSizes(cs, i))
    {
      ghost var f, t := ForestSizes(cs, i), TreeSizes(cs[i]);
      total := CalcSizes(a.children[i], total);
      total := total.(inputs := total.inputs + 1);
      assert ForestSizes(cs, i + 1) == f.Plus(t);
      ChildPlus(sizes, own, i, f, t);
    }
    PlusAssociates(sizes, own, ForestSizes(cs, |cs|));
  }

  lemma ChildPlus(s: Sizes, own: Sizes, i: nat, f: Sizes, t: Sizes)
    ensures var r := s.Plus(own.(inputs := i)).Plus(f).Plus(t);
      r.(inputs := r.inputs + 1) == s.Plus(own.(inputs := i + 1)).Plus(f.Plus(t))
  {
  }

  lemma PlusAssociates(s: Sizes, t: Sizes, u: Sizes)
    ensures s.Plus(t).Plus(u) == s.Plus(t.Plus(u))
  {
  }

  /** The sum over the tree is the sum over its argps in preorder. */
  lemma {:induction false} TreeSizesInOrder(all: seq<Argp>, k: nat, a: Argp)
    requires TreeAt(a, all, k)
    ensures k + |Preorder(a)| <= |all| && SizesOf(all, k + |Preorder(a)|) == SizesOf(all, k).Plus(TreeSizes(a))
    decreases a
  {
    ForestSizesInOrder(all, k + 1, a.children, |a.children|);
    PlusAssociates(SizesOf(all, k), OwnSizes(a), ForestSizes(a.children, |a.children|));
  }

  /** Each argp but the first hangs on a child list, and is counted as an input; and three characters are counted for
      every option. */
  lemma {:induction false} InputsAreChildren(a: Argp)
    ensures TreeSizes(a).inputs == |Preorder(a)| - 1 && TreeSizes(a).short == 3 * TreeSizes(a).long
    decreases a
  {
    ForestInputs(a.children, |a.children|);
  }

  lemma {:induction false} ForestInputs(cs: seq<Argp>, i: nat)
    requires i <= |cs|
    ensures var f := ForestSizes(cs, i); f.inputs == |PreorderOf(cs, i)| - i && f.short == 3 * f.long
    decreases cs, i
  {
    hide TreeSizes, Preorder;
    if i > 0 {
      ForestInputs(cs, i - 1);
      InputsAreChildren(cs[i - 1]);
    }
  }

  lemma {:induction false} ForestSizesInOrder(all: seq<Argp>, k: nat, cs: seq<Argp>, i: nat)
    requires i <= |cs| && ForestAt(cs, i, all, k)
    ensures k + |PreorderOf(cs, i)| <= |all|
    ensures SizesOf(all, k + |PreorderOf(cs, i)|) == SizesOf(all, k).Plus(ForestSizes(cs, i))
    decreases cs, i
  {
    hide TreeSizes, OwnSizes, TreeAt, Preorder;
    ForestEnds(cs, i, all, k);
    if i > 0 {
      var n := |PreorderOf(cs, i - 1)|;
      ForestSizesInOrder(all, k, cs, i - 1);
      TreeSizesInOrder(all, k + n, cs[i - 1]);
      PlusAssociates(SizesOf(all, k), ForestSizes(cs, i - 1), TreeSizes(cs[i - 1]));
      assert |PreorderOf(cs, i)| == n + |Preorder(cs[i - 1])|;
    }
  }

  /** The sizes bound what the tables hold; for groups they are exact. */
  lemma {:induction false} SizesSuffice(prefix: seq<int>, all: seq<Argp>, n: nat)
    requires n <= |all|
    ensures |ShortOf(prefix, all, n)| <= |prefix| + SizesOf(all, n).short && |LongOf(all, n)| <= SizesOf(all, n).long
    ensures GroupCount(all, n) == SizesOf(all, n).groups && InputsOf(all, n) <= SizesOf(all, n).inputs
  {
    hide Emit, LongScan;
    if n > 0 {
      var opts := Options(all[n - 1]);
      SizesSuffice(prefix, all, n - 1);
      EmitBound(ShortOf(prefix, all, n - 1), opts, |opts|);
      LongBound(LongOf(all, n - 1), opts, GroupCount(all, n - 1), |opts|);
    }
  }

  lemma {:induction false} EmitBound(seen: seq<int>, opts: seq<Opt>, m: nat)
    requires m <= |opts|
    ensures |Emit(seen, opts, m)| <= |seen| + 3 * m
    ensures |Emit(seen, opts, m)| == |seen| + 3 * m <==> OptionsAllLong(opts, m)
  {
    if m > 0 {
      EmitBound(seen, opts, m - 1);
      Tight(|Emit(seen, opts, m - 1)|, |Emit(seen, opts, m)|, |seen| + 3 * (m - 1), 3,
            OptionsAllLong(opts, m - 1), |EmitOne(opts, m - 1)| == 3);
    }
  }

  lemma {:induction false} LongBound(seen: seq<LongOpt>, opts: seq<Opt>, group: nat, m: nat)
    requires m <= |opts|
    ensures |LongScan(seen, opts, group, m)| <= |seen| + m
  {
    if m > 0 {
      LongBound(seen, opts, group, m - 1);
    }
  }

  // ----- The short-option string against its allocation

  datatype Flags = Flags(inOrder: bool, noArgs: bool)

  function Prefix(flags: Flags): seq<int> {
    if flags.inOrder then [MINUS] else if flags.noArgs then [PLUS] else []
  }

  /** The bytes allocated for the string with its terminator. */
  function ShortSpace(flags: Flags, sizes: Sizes): nat {
    (if flags.noArgs then 0 else 1) + sizes.short + 1
  }

  predicate ShortFits(flags: Flags, all: seq<Argp>) {
    |ShortOf(Prefix(flags), all, |all|)| + 1 <= ShortSpace(flags, SizesOf(all, |all|))
  }

  /** All of the first `n` argps' options take three characters each. */
  predicate AllLong(all: seq<Argp>, n: nat)
    requires n <= |all|
  {
    n == 0 || (AllLong(all, n - 1) && OptionsAllLong(Options(all[n - 1]), |Options(all[n - 1])|))
  }

  predicate OptionsAllLong(opts: seq<Opt>, m: nat)
    requires m <= |opts|
  {
    m == 0 || (OptionsAllLong(opts, m - 1) && |EmitOne(opts, m - 1)| == 3)
  }

  lemma NodeIsFullIffAllLong(prefix: seq<int>, all: seq<Argp>, n: nat)
    requires n < |all|
    ensures |ShortOf(prefix, all, n + 1)| <= |ShortOf(prefix, all, n)| + OwnSizes(all[n]).short
    ensures |ShortOf(prefix, all, n + 1)| == |ShortOf(prefix, all, n)| + OwnSizes(all[n]).short
      <==> OptionsAllLong(Options(all[n]), |Options(all[n])|)
  {
    var opts := Options(all[n]);
    EmitBound(ShortOf(prefix, all, n), opts, |opts|);
    assert ShortOf(prefix, all, n + 1) == Emit(ShortOf(prefix, all, n), opts, |opts|);
  }

  lemma Tight(x: nat, x': nat, bound: nat, more: nat, full: bool, full': bool)
    requires x <= bound && (x == bound <==> full)
    requires x' <= x + more && (x' == x + more <==> full')
    ensures x' <= bound + more && (x' == bound + more <==> full && full')
  {
  }

  lemma {:induction false} ShortIsFullIffAllLong(prefix: seq<int>, all: seq<Argp>, n: nat)
    requires n <= |all|
    ensures |ShortOf(prefix, all, n)| <= |prefix| + SizesOf(all, n).short
    ensures |ShortOf(prefix, all, n)| == |prefix| + SizesOf(all, n).short <==> AllLong(all, n)
  {
    hide Emit, OptionsAllLong, OwnSizes;
    if n > 0 {
      ShortIsFullIffAllLong(prefix, all, n - 1);
      NodeIsFullIffAllLong(prefix, all, n - 1);
      Tight(|ShortOf(prefix, all, n - 1)|, |ShortOf(prefix, all, n)|, |prefix| + SizesOf(all, n - 1).short,
            OwnSizes(all[n - 1]).short, AllLong(all, n - 1),
            OptionsAllLong(Options(all[n - 1]), |Options(all[n - 1])|));
    }
  }

  /** The string fits unless arguments are excluded, whose prefix is not allowed for, and no option
      leaves a spare character; with no options at all it does not fit either. */
  lemma ShortFitsIff(flags: Flags, all: seq<Argp>)
    ensures ShortFits(flags, all) <==> !(flags.noArgs && AllLong(all, |all|))
  {
    ShortIsFullIffAllLong(Prefix(flags), all, |all|);
  }

  /** An empty argp with arguments excluded: one byte is allocated, two are needed. */
  lemma PrefixNeedNotFit()
    ensures !ShortFits(Flags(false, true), [Argp(None, true, None, None, 0, [])])
  {
    var all := [Argp(None, true, None, None, 0, [])];
    assert OptionsAllLong(Options(all[0]), 0) && AllLong(all, 1);
    ShortFitsIff(Flags(false, true), all);
  }

  // ----- Filling the tables

  class Tables {
    const shortOpts: array<int>
    const longOpts: array<LongOpt>
    const groups: array<Group>
    const inputs: nat               // the number of input slots
    var shortEnd: nat
    var longEnd: nat
    var egroup: nat
    var inputsEnd: nat

    constructor (shorts: nat, longs: nat, groups: nat, inputs: nat)
      ensures fresh(shortOpts) && fresh(longOpts) && fresh(this.groups)
      ensures shortOpts.Length == shorts && longOpts.Length == longs
      ensures this.groups.Length == groups && this.inputs == inputs
      ensures shortEnd == longEnd == egroup == inputsEnd == 0
    {
      shortOpts := new int[shorts];
      longOpts := new LongOpt[longs];
      this.groups := new Group[groups](_ => Group(0, false, 0, 0, 0, None));
      this.inputs := inputs;
      shortEnd, longEnd, egroup, inputsEnd := 0, 0, 0, 0;
    }

    /** The strings and arrays are terminated. */
    ghost predicate Ended()
      reads this, shortOpts, longOpts
    {
      && shortEnd < shortOpts.Length && shortOpts[shortEnd] == 0
      && longEnd < longOpts.Length && longOpts[longEnd] == End
      && forall i :: 0 <= i < longEnd ==> longOpts[i].Long?
    }

    /** The tables hold what the first `k` argps need. */
    ghost predicate Holds(prefix: seq<int>, all: seq<Argp>, k: nat)
      reads this, shortOpts, longOpts, groups
    {
      && k <= |all| && Ended()
      && Shorts() == ShortOf(prefix, all, k) && Longs() == LongOf(all, k)
      && egroup == GroupCount(all, k) <= groups.Length && inputsEnd == InputsOf(all, k) <= inputs
      && GroupsOk(prefix, all, k, Groups())
    }

    /** There is room for all the argps. */
    ghost predicate Fits(prefix: seq<int>, all: seq<Argp>) {
      && |ShortOf(prefix, all, |all|)| < shortOpts.Length && |LongOf(all, |all|)| < longOpts.Length
      && GroupCount(all, |all|) <= groups.Length && InputsOf(all, |all|) <= inputs
    }

    function Groups(): seq<Group>
      requires egroup <= groups.Length
      reads this, groups
    {
      groups[..egroup]
    }

    function Shorts(): seq<int>
      requires shortEnd <= shortOpts.Length
      reads this, shortOpts
    {
      shortOpts[..shortEnd]
    }

    function Longs(): seq<LongOpt>
      requires longEnd <= longOpts.Length
      reads this, longOpts
    {
      longOpts[..longEnd]
    }

    method PutShort(c: int)
      requires shortEnd + 1 < shortOpts.Length
      modifies this`shortEnd, shortOpts
      ensures shortEnd == old(shortEnd) + 1 && Shorts() == old(Shorts()) + [c]
    {
      shortOpts[shortEnd] := c;
      shortEnd := shortEnd + 1;
    }

    method PutGroup(g: Group)
      requires egroup < groups.Length
      modifies this`egroup, this`inputsEnd, groups
      ensures egroup == old(egroup) + 1 && inputsEnd == old(inputsEnd) + g.inputs
      ensures Groups() == old(Groups()) + [g]
    {
      groups[egroup] := g;
      inputsEnd := inputsEnd + g.inputs;
      egroup := egroup + 1;
    }

    /** The offset of a long option, or -1. */
    method FindLong(name: string) returns (i: int)
      requires Ended()
      ensures i == FindName(Longs(), longEnd, name)
    {
      i := 0;
      while longOpts[i].Long?
        invariant 0 <= i <= longEnd && FindName(Longs(), i, name) == -1
        decreases longEnd - i
      {
        assert Longs()[i] == longOpts[i];
        if longOpts[i].name == name {
          FindNameAmongMore(Longs(), Longs(), i + 1, longEnd, name);
          return;
        }
        i := i + 1;
      }
      i := -1;
    }

    /** The tables are terminated and hold exactly these. */
    ghost predicate Have(shorts: seq<int>, longs: seq<LongOpt>)
      reads this, shortOpts, longOpts
    {
      Ended() && Shorts() == shorts && Longs() == longs
    }

    method AddShort(opts: seq<Opt>, j: nat, actual: nat, ghost shorts: seq<int>, ghost longs: seq<LongOpt>)
      requires j < |opts| && actual == Real(opts, j) && ForParser(opts, j)
      requires Have(shorts, longs) && |shorts| + |EmitOne(opts, j)| < shortOpts.Length
      modifies this`shortEnd, shortOpts
      ensures Have(shorts + EmitOne(opts, j), longs)
    {
      if IsShort(opts[j]) {
        PutShort(opts[j].key);
        if opts[actual].arg.Some? {
          PutShort(COLON);
          if opts[actual].argOptional {
            PutShort(COLON);
          }
        }
        shortOpts[shortEnd] := 0;
      } else {
        assert shorts + [] == shorts;
      }
    }

    method AddLong(opts: seq<Opt>, j: nat, actual: nat, group: nat, ghost shorts: seq<int>, ghost longs: seq<LongOpt>)
      requires j < |opts| && actual == Real(opts, j) && ForParser(opts, j)
      requires Have(shorts, longs) && |LongStep(longs, opts, j, group)| < longOpts.Length
      modifies this`longEnd, longOpts
      ensures Have(shorts, LongStep(longs, opts, j, group))
    {
      if opts[j].name.Some? {
        var found := FindLong(opts[j].name.value);
        if found < 0 {
          var key := if opts[j].key != 0 then opts[j].key else opts[actual].key;
          longOpts[longEnd] := Long(opts[j].name.value, HasArg(opts[actual]), Encode(key, group));
          longEnd := longEnd + 1;
          longOpts[longEnd] := End;
        }
      }
    }

    /** Option `j`, after `actual0` as the latest option that is no alias. */
    method AddOption(opts: seq<Opt>, j: nat, actual0: nat, group: nat,
        ghost shorts: seq<int>, ghost longs: seq<LongOpt>,
        ghost shorts': seq<int>, ghost longs': seq<LongOpt>)
      returns (actual: nat)
      requires j < |opts| && actual0 == (if j == 0 then 0 else Real(opts, j - 1))
      requires shorts' == shorts + EmitOne(opts, j) && longs' == LongStep(longs, opts, j, group)
      requires Have(shorts, longs) && |shorts'| < shortOpts.Length && |longs'| < longOpts.Length
      modifies this`shortEnd, this`longEnd, shortOpts, longOpts
      ensures actual == Real(opts, j) && Have(shorts', longs')
    {
      actual := if opts[j].alias then actual0 else j;
      if !opts[actual].doc {
        AddShort(opts, j, actual, shorts, longs);
        AddLong(opts, j, actual, group, shorts', longs);
      } else {
        assert shorts + [] == shorts;
      }
    }

    /** The first `j` options of an argp are in the tables, and `actual` is the latest that is no alias. */
    ghost predicate Scanned(opts: seq<Opt>, j: nat, actual: nat, group: nat, shorts: seq<int>, longs: seq<LongOpt>)
      reads this, shortOpts, longOpts
    {
      && j <= |opts| && actual == (if j == 0 then 0 else Real(opts, j - 1))
      && Have(Emit(shorts, opts, j), LongScan(longs, opts, group, j))
    }

    /** There is room for all options of an argp. */
    ghost predicate HasRoom(opts: seq<Opt>, group: nat, shorts: seq<int>, longs: seq<LongOpt>) {
      |Emit(shorts, opts, |opts|)| < shortOpts.Length && |LongScan(longs, opts, group, |opts|)| < longOpts.Length
    }

    /** The scan of one argp's options goes on by option `j`. */
    method ScanOption(opts: seq<Opt>, j: nat, actual0: nat, group: nat,
        ghost shorts: seq<int>, ghost longs: seq<LongOpt>)
      returns (actual: nat)
      requires j < |opts| && Scanned(opts, j, actual0, group, shorts, longs) && HasRoom(opts, group, shorts, longs)
      modifies this`shortEnd, this`longEnd, shortOpts, longOpts
      ensures Scanned(opts, j + 1, actual, group, shorts, longs)
    {
      ghost var s, l := Emit(shorts, opts, j), LongScan(longs, opts, group, j);
      ghost var s' := EmitNext(shorts, opts, j, s);
      ghost var l' := LongNext(longs, opts, group, j, l);
      actual := AddOption(opts, j, actual0, group, s, l, s', l');
    }

    /** One argp's options. */
    method AddOptions(opts: seq<Opt>, group: nat, ghost shorts: seq<int>, ghost longs: seq<LongOpt>)
      requires Have(shorts, longs) && HasRoom(opts, group, shorts, longs)
      modifies this`shortEnd, this`longEnd, shortOpts, longOpts
      ensures Have(Emit(shorts, opts, |opts|), LongScan(longs, opts, group, |opts|))
    {
      hide Have, Real;
      var actual, j := 0, 0;
      assert Scanned(opts, j, actual, group, shorts, longs);
      hide Emit, LongScan, Scanned, HasRoom;
      while j < |opts|
        invariant j <= |opts| && Scanned(opts, j, actual, group, shorts, longs)
      {
        actual := ScanOption(opts, j, actual, group, shorts, longs);
        j := j + 1;
      }
      ScannedAll(opts, actual, group, shorts, longs);
    }

    lemma ScannedAll(opts: seq<Opt>, actual: nat, group: nat, shorts: seq<int>, longs: seq<LongOpt>)
      requires Scanned(opts, |opts|, actual, group, shorts, longs)
      ensures Have(Emit(shorts, opts, |opts|), LongScan(longs, opts, group, |opts|))
    {
    }
  }

  /** The next option's letters, which stay within the whole. */
  lemma EmitNext(shorts: seq<int>, opts: seq<Opt>, j: nat, s: seq<int>) returns (s': seq<int>)
    requires j < |opts| && s == Emit(shorts, opts, j)
    ensures s' == s + EmitOne(opts, j) == Emit(shorts, opts, j + 1)
    ensures |s'| <= |Emit(shorts, opts, |opts|)|
  {
    s' := s + EmitOne(opts, j);
    EmitLengthens(shorts, opts, j + 1, |opts|);
  }

  /** The next option's name, which stays within the whole. */
  lemma LongNext(longs: seq<LongOpt>, opts: seq<Opt>, group: nat, j: nat, l: seq<LongOpt>) returns (l': seq<LongOpt>)
    requires j < |opts| && l == LongScan(longs, opts, group, j)
    ensures l' == LongStep(l, opts, j, group) == LongScan(longs, opts, group, j + 1)
    ensures |l'| <= |LongScan(longs, opts, group, |opts|)|
  {
    l' := LongStep(l, opts, j, group);
    LongGrows(longs, opts, group, j + 1, |opts|);
  }

  /** What has been emitted stays. */
  lemma {:induction false} EmitStays(seen: seq<int>, opts: seq<Opt>, n: nat, i: nat)
    requires n <= |opts| && i < |seen|
    ensures i < |Emit(seen, opts, n)| && Emit(seen, opts, n)[i] == seen[i]
  {
    hide EmitOne;
    if n > 0 {
      EmitStays(seen, opts, n - 1, i);
    }
  }

  lemma {:induction false} EmitLengthens(seen: seq<int>, opts: seq<Opt>, m: nat, n: nat)
    requires m <= n <= |opts|
    ensures |Emit(seen, opts, m)| <= |Emit(seen, opts, n)|
  {
    hide EmitOne;
    if m < n {
      EmitLengthens(seen, opts, m, n - 1);
    }
  }

  lemma {:induction false} LongGrows(seen: seq<LongOpt>, opts: seq<Opt>, group: nat, m: nat, n: nat)
    requires m <= n <= |opts|
    ensures |LongScan(seen, opts, group, m)| <= |LongScan(seen, opts, group, n)|
  {
    if m < n {
      LongGrows(seen, opts, group, m, n - 1);
    }
  }

  /** Group `g` stands for argp `k`. */
  ghost predicate GroupOk(prefix: seq<int>, all: seq<Argp>, k: nat, g: Group) {
    && k < |all| && g.node == k && g.parser == all[k].parser
    && g.shortEnd == |ShortOf(prefix, all, k + 1)|
    && g.firstInput == InputsOf(all, k) && g.inputs == |all[k].children|
  }

  /** The groups are those of the first `k` argps, in order, and an input that a group takes from
      its parent is one of the parent's slots. */
  ghost predicate GroupsOk(prefix: seq<int>, all: seq<Argp>, k: nat, groups: seq<Group>)
    requires k <= |all|
  {
    && |groups| == GroupCount(all, k)
    && (forall j :: 0 <= j < k && IsGroup(all[j]) ==>
          GroupCount(all, j) < |groups| && GroupOk(prefix, all, j, groups[GroupCount(all, j)]))
    && (forall g :: 0 <= g < |groups| ==> ParentOk(groups, g))
  }

  predicate ParentOk(groups: seq<Group>, g: nat)
    requires g < |groups|
  {
    groups[g].parent.Some? ==>
      var (parent, index) := groups[g].parent.value; parent < g && index < groups[parent].inputs
  }

  /** The place of a group's input: a slot of an existing group. */
  predicate ParentFits(parent: Option<(nat, nat)>, groups: seq<Group>) {
    parent.Some? ==> parent.value.0 < |groups| && parent.value.1 < groups[parent.value.0].inputs
  }

  lemma ParentFitsMore(parent: Option<(nat, nat)>, groups: seq<Group>, more: seq<Group>)
    requires ParentFits(parent, groups) && groups <= more
    ensures ParentFits(parent, more)
  {
  }

  lemma {:induction false} GroupCountGrows(all: seq<Argp>, m: nat, n: nat)
    requires m <= n <= |all|
    ensures GroupCount(all, m) <= GroupCount(all, n) && InputsOf(all, m) <= InputsOf(all, n)
  {
    if m < n {
      GroupCountGrows(all, m, n - 1);
    }
  }

  lemma {:induction false} ShortGrows(prefix: seq<int>, all: seq<Argp>, m: nat, n: nat)
    requires m <= n <= |all|
    ensures |ShortOf(prefix, all, m)| <= |ShortOf(prefix, all, n)|
  {
    hide ShortOf;
    if m < n {
      ShortGrows(prefix, all, m, n - 1);
      NodeGrows(prefix, all, n - 1);
    }
  }

  lemma NodeGrows(prefix: seq<int>, all: seq<Argp>, k: nat)
    requires k < |all|
    ensures |ShortOf(prefix, all, k)| <= |ShortOf(prefix, all, k + 1)|
  {
    EmitLengthens(ShortOf(prefix, all, k), Options(all[k]), 0, |Options(all[k])|);
  }

  lemma {:induction false} ShortStays(prefix: seq<int>, all: seq<Argp>, m: nat, n: nat, i: nat)
    requires m <= n <= |all| && i < |ShortOf(prefix, all, m)|
    ensures i < |ShortOf(prefix, all, n)| && ShortOf(prefix, all, n)[i] == ShortOf(prefix, all, m)[i]
  {
    hide ShortOf;
    if m < n {
      ShortStays(prefix, all, m, n - 1, i);
      NodeStays(prefix, all, n - 1, i);
    }
  }

  lemma NodeStays(prefix: seq<int>, all: seq<Argp>, k: nat, i: nat)
    requires k < |all| && i < |ShortOf(prefix, all, k)|
    ensures i < |ShortOf(prefix, all, k + 1)| && ShortOf(prefix, all, k + 1)[i] == ShortOf(prefix, all, k)[i]
  {
    EmitStays(ShortOf(prefix, all, k), Options(all[k]), |Options(all[k])|, i);
  }

  lemma {:induction false} LongOfGrows(all: seq<Argp>, m: nat, n: nat)
    requires m <= n <= |all|
    ensures |LongOf(all, m)| <= |LongOf(all, n)|
  {
    if m < n {
      LongOfGrows(all, m, n - 1);
      LongGrows(LongOf(all, n - 1), Options(all[n - 1]), GroupCount(all, n - 1), 0, |Options(all[n - 1])|);
    }
  }

  lemma GroupsSnoc(prefix: seq<int>, all: seq<Argp>, k: nat, groups: seq<Group>, g: Group)
    requires k < |all| && IsGroup(all[k]) && GroupsOk(prefix, all, k, groups) && GroupOk(prefix, all, k, g)
    requires ParentFits(g.parent, groups)
    ensures GroupsOk(prefix, all, k + 1, groups + [g])
  {
    forall i | 0 <= i < |groups + [g]| ensures ParentOk(groups + [g], i) {
      assert i < |groups| ==> ParentOk(groups, i);
    }
  }

  // ----- Which slot of its parent a group takes its input from

  /** The places of a tree's groups, of which the first is group `g` and takes its input from `parent`. */
  function Places(a: Argp, parent: Option<(nat, nat)>, g: nat): seq<Option<(nat, nat)>> {
    if IsGroup(a) then [parent] + PlacesOf(a.children, |a.children|, Some(g), g + 1)
    else PlacesOf(a.children, |a.children|, None, g)
  }

  /** Those of the first `i` children's groups. */
  function PlacesOf(cs: seq<Argp>, i: nat, inner: Option<nat>, g: nat): seq<Option<(nat, nat)>>
    requires i <= |cs|
  {
    if i == 0 then []
    else
      var before := PlacesOf(cs, i - 1, inner, g);
      before + Places(cs[i - 1], Slot(inner, i - 1), g + |before|)
  }

  function Slot(inner: Option<nat>, i: nat): Option<(nat, nat)> {
    if inner.Some? then Some((inner.value, i)) else None
  }

  function Parents(groups: seq<Group>): (parents: seq<Option<(nat, nat)>>)
    ensures |parents| == |groups|
  {
    seq(|groups|, g requires 0 <= g < |groups| => groups[g].parent)
  }

  lemma ParentsSnoc(groups: seq<Group>, g: Group)
    ensures Parents(groups + [g]) == Parents(groups) + [g.parent]
  {
  }

  lemma PlacesNext(cs: seq<Argp>, i: nat, inner: Option<nat>, g: nat, start: seq<Option<(nat, nat)>>)
    requires i < |cs|
    ensures var before := PlacesOf(cs, i, inner, g);
      start + before + Places(cs[i], Slot(inner, i), g + |before|) == start + PlacesOf(cs, i + 1, inner, g)
  {
  }

  lemma {:induction false} GroupCountConcat(p: seq<Argp>, q: seq<Argp>, n: nat)
    requires n <= |q|
    ensures GroupCount(p + q, |p| + n) == GroupCount(p, |p|) + GroupCount(q, n)
  {
    if n == 0 {
      GroupCountPrefix(p, q, |p|);
    } else {
      GroupCountConcat(p, q, n - 1);
    }
  }

  lemma {:induction false} GroupCountPrefix(p: seq<Argp>, q: seq<Argp>, n: nat)
    requires n <= |p|
    ensures GroupCount(p + q, n) == GroupCount(p, n)
  {
    if n > 0 {
      GroupCountPrefix(p, q, n - 1);
    }
  }

  lemma {:induction false} PlacesCount(a: Argp, parent: Option<(nat, nat)>, g: nat)
    ensures |Places(a, parent, g)| == GroupCount(Preorder(a), |Preorder(a)|)
    decreases a
  {
    var own := if IsGroup(a) then 1 else 0;
    PlacesOfCount(a.children, |a.children|, if IsGroup(a) then Some(g) else None, g + own);
    GroupCountConcat([a], PreorderOf(a.children, |a.children|), |PreorderOf(a.children, |a.children|)|);
    assert GroupCount([a], 1) == own;
  }

  lemma {:induction false} PlacesOfCount(cs: seq<Argp>, i: nat, inner: Option<nat>, g: nat)
    requires i <= |cs|
    ensures |PlacesOf(cs, i, inner, g)| == GroupCount(PreorderOf(cs, i), |PreorderOf(cs, i)|)
    decreases cs, i
  {
    hide Places, Preorder, IsGroup;
    if i > 0 {
      PlacesOfCount(cs, i - 1, inner, g);
      PlacesCount(cs[i - 1], Slot(inner, i - 1), g + |PlacesOf(cs, i - 1, inner, g)|);
      GroupCountConcat(PreorderOf(cs, i - 1), Preorder(cs[i - 1]), |Preorder(cs[i - 1])|);
    }
  }

  /** The group of argp `c` takes its input from `place`, if it is a group. */
  ghost predicate PlaceIs(all: seq<Argp>, places: seq<Option<(nat, nat)>>, c: nat, place: Option<(nat, nat)>)
    requires c < |all|
  {
    IsGroup(all[c]) ==> GroupCount(all, c) < |places| && places[GroupCount(all, c)] == place
  }

  lemma PlaceIsPrefix(p: seq<Argp>, q: seq<Argp>, places: seq<Option<(nat, nat)>>, more: seq<Option<(nat, nat)>>,
                      c: nat, place: Option<(nat, nat)>)
    requires c < |p| && PlaceIs(p, places, c, place)
    ensures PlaceIs(p + q, places + more, c, place)
  {
    GroupCountPrefix(p, q, c);
  }

  lemma PlaceIsBehind(p: seq<Argp>, q: seq<Argp>, before: seq<Option<(nat, nat)>>, places: seq<Option<(nat, nat)>>,
                      c: nat, place: Option<(nat, nat)>)
    requires c < |q| && PlaceIs(q, places, c, place) && |before| == GroupCount(p, |p|)
    ensures PlaceIs(p + q, before + places, |p| + c, place)
  {
    GroupCountConcat(p, q, c);
  }

  /** A child's group. */
  lemma {:induction false} ChildFirst(cs: seq<Argp>, n: nat, inner: Option<nat>, g: nat, i: nat)
    requires i < n <= |cs|
    ensures |PreorderOf(cs, i)| < |PreorderOf(cs, n)| && PreorderOf(cs, n)[|PreorderOf(cs, i)|] == cs[i]
    ensures PlaceIs(PreorderOf(cs, n), PlacesOf(cs, n, inner, g), |PreorderOf(cs, i)|, Slot(inner, i))
    decreases n
  {
    hide GroupCount, IsGroup, PlaceIs;
    var nodes, places := PreorderOf(cs, n - 1), PlacesOf(cs, n - 1, inner, g);
    var more := Places(cs[n - 1], Slot(inner, n - 1), g + |places|);
    if i < n - 1 {
      ChildFirst(cs, n - 1, inner, g, i);
      PlaceIsPrefix(nodes, Preorder(cs[n - 1]), places, more, |PreorderOf(cs, i)|, Slot(inner, i));
    } else {
      PlacesOfCount(cs, n - 1, inner, g);
      RootFirst(cs[n - 1], Slot(inner, n - 1), g + |places|);
      PlaceIsBehind(nodes, Preorder(cs[n - 1]), places, more, 0, Slot(inner, n - 1));
    }
  }

  lemma RootFirst(a: Argp, parent: Option<(nat, nat)>, g: nat)
    ensures PlaceIs(Preorder(a), Places(a, parent, g), 0, parent)
  {
  }

  /** Where the `i`-th child of the argp at `x` stands. */
  function ChildNode(all: seq<Argp>, x: nat, i: nat): nat
    requires x < |all| && i < |all[x].children|
  {
    x + 1 + |PreorderOf(all[x].children, i)|
  }

  /** The slot of the group of argp `x` for its `i`-th child, if that is a group: groups count from `g`. */
  function SlotOf(all: seq<Argp>, x: nat, i: nat, g: nat): Option<(nat, nat)>
    requires x < |all|
  {
    if IsGroup(all[x]) then Some((g + GroupCount(all, x), i)) else None
  }

  /** Every child's group takes its input from the slot that its parent's group has for it. */
  lemma {:induction false} ChildPlace(a: Argp, parent: Option<(nat, nat)>, g: nat, x: nat, i: nat)
    requires x < |Preorder(a)| && i < |Preorder(a)[x].children|
    ensures var all, c := Preorder(a), ChildNode(Preorder(a), x, i);
      c < |all| && all[c] == all[x].children[i] && PlaceIs(all, Places(a, parent, g), c, SlotOf(all, x, i, g))
    decreases a
  {
    hide PlaceIs, GroupCount;
    var cs, n, own := a.children, |a.children|, if IsGroup(a) then 1 else 0;
    var inner := if IsGroup(a) then Some(g) else None;
    var nodes, places := PreorderOf(cs, n), PlacesOf(cs, n, inner, g + own);
    var first := if IsGroup(a) then [parent] else [];
    assert Preorder(a) == [a] + nodes && Places(a, parent, g) == first + places;
    OwnCount(a, nodes);
    if x == 0 {
      ChildFirst(cs, n, inner, g + own, i);
      PlaceIsBehind([a], nodes, first, places, |PreorderOf(cs, i)|, Slot(inner, i));
    } else {
      ChildPlaceOf(cs, n, inner, g + own, x - 1, i);
      GroupCountConcat([a], nodes, x - 1);
      PlaceIsBehind([a], nodes, first, places, ChildNode(nodes, x - 1, i), SlotOf(nodes, x - 1, i, g + own));
    }
  }

  lemma OwnCount(a: Argp, nodes: seq<Argp>)
    ensures GroupCount([a], 1) == (if IsGroup(a) then 1 else 0) && GroupCount([a] + nodes, 0) == 0
  {
  }

  lemma {:induction false} ChildPlaceOf(cs: seq<Argp>, n: nat, inner: Option<nat>, g: nat, x: nat, i: nat)
    requires n <= |cs| && x < |PreorderOf(cs, n)| && i < |PreorderOf(cs, n)[x].children|
    ensures var all, c := PreorderOf(cs, n), ChildNode(PreorderOf(cs, n), x, i);
      && c < |all| && all[c] == all[x].children[i]
      && PlaceIs(all, PlacesOf(cs, n, inner, g), c, SlotOf(all, x, i, g))
    decreases cs, n
  {
    hide PlaceIs, GroupCount, Preorder, Places, IsGroup;
    var nodes, places := PreorderOf(cs, n - 1), PlacesOf(cs, n - 1, inner, g);
    var tree := Preorder(cs[n - 1]);
    var more := Places(cs[n - 1], Slot(inner, n - 1), g + |places|);
    if x < |nodes| {
      ChildPlaceOf(cs, n - 1, inner, g, x, i);
      GroupCountPrefix(nodes, tree, x);
      PlaceIsPrefix(nodes, tree, places, more, ChildNode(nodes, x, i), SlotOf(nodes, x, i, g));
    } else {
      PlacesOfCount(cs, n - 1, inner, g);
      ChildPlace(cs[n - 1], Slot(inner, n - 1), g + |places|, x - |nodes|, i);
      GroupCountConcat(nodes, tree, x - |nodes|);
      PlaceIsBehind(nodes, tree, places, more, ChildNode(tree, x - |nodes|, i),
                    SlotOf(tree, x - |nodes|, i, g + |places|));
    }
  }

  /** Every argp but the first is a child. */
  lemma {:induction false} ParentNode(a: Argp, c: nat) returns (x: nat, i: nat)
    requires 0 < c < |Preorder(a)|
    ensures x < c && i < |Preorder(a)[x].children| && ChildNode(Preorder(a), x, i) == c
    decreases a
  {
    var cs, n := a.children, |a.children|;
    var nodes := PreorderOf(cs, n);
    assert Preorder(a) == [a] + nodes;
    var root;
    root, x, i := ParentNodeOf(cs, n, c - 1);
    if !root {
      assert Preorder(a)[x + 1] == nodes[x];
      x := x + 1;
    }
  }

  lemma {:induction false} ParentNodeOf(cs: seq<Argp>, n: nat, c: nat) returns (root: bool, x: nat, i: nat)
    requires n <= |cs| && c < |PreorderOf(cs, n)|
    ensures if root then x == 0 && i < n && c == |PreorderOf(cs, i)|
            else x < c && i < |PreorderOf(cs, n)[x].children| && ChildNode(PreorderOf(cs, n), x, i) == c
    decreases cs, n
  {
    var nodes, tree := PreorderOf(cs, n - 1), Preorder(cs[n - 1]);
    assert PreorderOf(cs, n) == nodes + tree;
    if c < |nodes| {
      root, x, i := ParentNodeOf(cs, n - 1, c);
    } else if c == |nodes| {
      root, x, i := true, 0, n - 1;
    } else {
      x, i := ParentNode(cs[n - 1], c - |nodes|);
      assert PreorderOf(cs, n)[x + |nodes|] == tree[x];
      root, x := false, x + |nodes|;
    }
  }

  lemma GroupNodes(all: seq<Argp>, x: nat, y: nat)
    requires x < |all| && y < |all| && IsGroup(all[x]) && IsGroup(all[y])
    ensures GroupCount(all, x) == GroupCount(all, y) ==> x == y
  {
    if x < y {
      GroupCountGrows(all, x + 1, y);
    } else if y < x {
      GroupCountGrows(all, y + 1, x);
    }
  }

  /** The argp behind a group's place: the group's own if it has none, and else its parent and which child it is. */
  lemma PlaceNode(a: Argp, h: nat) returns (k: nat, x: nat, i: nat)
    requires h < |Places(a, None, 0)| && Places(a, None, 0)[h].Some?
    ensures var all := Preorder(a);
      && x < k < |all| && IsGroup(all[k]) && GroupCount(all, k) == h
      && i < |all[x].children| && ChildNode(all, x, i) == k
      && IsGroup(all[x]) && Places(a, None, 0)[h] == Some((GroupCount(all, x), i))
  {
    var all := Preorder(a);
    PlacesCount(a, None, 0);
    k := NodeOfGroup(all, |all|, h);
    if k == 0 {
      RootFirst(a, None, 0);
    }
    hide Places, Preorder, GroupCount;
    x, i := ParentNode(a, k);
    ChildPlace(a, None, 0, x, i);
  }

  /** No two groups take their inputs from the same slot. */
  lemma PlacesDistinct(a: Argp, g: nat, h: nat)
    requires g < h < |Places(a, None, 0)| && Places(a, None, 0)[g].Some?
    ensures Places(a, None, 0)[g] != Places(a, None, 0)[h]
  {
    hide Places, Preorder, GroupCount;
    if Places(a, None, 0)[g] == Places(a, None, 0)[h] {
      var k, x, i := PlaceNode(a, g);
      var l, y, j := PlaceNode(a, h);
      GroupNodes(Preorder(a), x, y);
    }
  }

  /** An argp without options and parser leaves the tables as they are. */
  lemma SkipNode(prefix: seq<int>, all: seq<Argp>, k: nat, groups: seq<Group>)
    requires k < |all| && !IsGroup(all[k]) && GroupsOk(prefix, all, k, groups)
    ensures ShortOf(prefix, all, k + 1) == ShortOf(prefix, all, k) && LongOf(all, k + 1) == LongOf(all, k)
    ensures GroupCount(all, k + 1) == GroupCount(all, k) && InputsOf(all, k + 1) == InputsOf(all, k)
    ensures GroupsOk(prefix, all, k + 1, groups)
  {
  }

  lemma SkipHolds(t: Tables, prefix: seq<int>, all: seq<Argp>, k: nat)
    requires k < |all| && !IsGroup(all[k]) && t.Holds(prefix, all, k)
    ensures t.Holds(prefix, all, k + 1)
  {
    SkipNode(prefix, all, k, t.Groups());
  }

  /** Convert a tree: its own options and group first, then its children. */
  method ConvertOptions(a: Argp, parent: Option<(nat, nat)>, t: Tables,
                        ghost prefix: seq<int>, ghost all: seq<Argp>, k: nat, ghost groups: seq<Group>)
    returns (next: nat)
    requires TreeAt(a, all, k) && t.Holds(prefix, all, k) && t.Fits(prefix, all)
    requires groups <= t.Groups() && ParentFits(parent, t.Groups())
    modifies t, t.shortOpts, t.longOpts, t.groups
    ensures next == k + |Preorder(a)| && t.Holds(prefix, all, next) && groups <= t.Groups()
    ensures Parents(t.Groups()) == Parents(old(t.Groups())) + Places(a, parent, old(t.egroup))
    decreases a, 0
  {
    hide Tables.Fits, ForestAt, PreorderOf, GroupsOk, ShortOf, LongOf, InputsOf, GroupCount, PlacesOf;
    ghost var start := Parents(t.Groups());
    var inner := None;
    if a.options.Some? || a.parser {
      AddGroup(a, parent, t, prefix, all, k, groups);
      inner := Some(t.egroup - 1);
    } else {
      SkipHolds(t, prefix, all, k);
    }
    next := ConvertChildren(a.children, inner, t, prefix, all, k + 1, groups, t.Groups());
    assert start + [parent] + PlacesOf(a.children, |a.children|, Some(|start|), |start| + 1)
      == start + ([parent] + PlacesOf(a.children, |a.children|, Some(|start|), |start| + 1));
  }

  method ConvertChildren(cs: seq<Argp>, inner: Option<nat>, t: Tables, ghost prefix: seq<int>, ghost all: seq<Argp>,
                         k: nat, ghost groups: seq<Group>, ghost now: seq<Group>) returns (next: nat)
    requires ForestAt(cs, |cs|, all, k) && t.Holds(prefix, all, k) && t.Fits(prefix, all)
    requires groups <= now <= t.Groups()
    requires inner.Some? ==> inner.value < |now| && now[inner.value].inputs == |cs|
    modifies t, t.shortOpts, t.longOpts, t.groups
    ensures next == k + |PreorderOf(cs, |cs|)| && t.Holds(prefix, all, next) && groups <= t.Groups()
    ensures Parents(t.Groups()) == Parents(old(t.Groups())) + PlacesOf(cs, |cs|, inner, old(t.egroup))
    decreases cs
  {
    hide Tables.Fits, TreeAt, ForestAt, GroupsOk, ShortOf, LongOf, InputsOf, GroupCount, Places, Parents;
    ghost var start := Parents(t.Groups());
    next := k;
    var i := 0;
    assert start + PlacesOf(cs, 0, inner, |start|) == start;
    while i < |cs|
      invariant i <= |cs| && next == k + |PreorderOf(cs, i)|
      invariant t.Holds(prefix, all, next)
      invariant now <= t.Groups()
      invariant Parents(t.Groups()) == start + PlacesOf(cs, i, inner, |start|)
    {
      ChildAt(cs, |cs|, all, k, i);
      PlacesNext(cs, i, inner, |start|, start);
      next := ConvertChild(cs[i], i, |cs|, inner, t, prefix, all, next, now);
      i := i + 1;
    }
  }

  method ConvertChild(c: Argp, i: nat, n: nat, inner: Option<nat>, t: Tables,
                      ghost prefix: seq<int>, ghost all: seq<Argp>, k: nat, ghost now: seq<Group>) returns (next: nat)
    requires i < n && TreeAt(c, all, k) && t.Holds(prefix, all, k) && t.Fits(prefix, all)
    requires now <= t.Groups() && (inner.Some? ==> inner.value < |now| && now[inner.value].inputs == n)
    modifies t, t.shortOpts, t.longOpts, t.groups
    ensures next == k + |Preorder(c)| && t.Holds(prefix, all, next) && now <= t.Groups()
    ensures Parents(t.Groups()) == Parents(old(t.Groups())) + Places(c, Slot(inner, i), old(t.egroup))
    decreases c, 1
  {
    var position := if inner.Some? then Some((inner.value, i)) else None;
    ParentFitsMore(position, now, t.Groups());
    next := ConvertOptions(c, position, t, prefix, all, k, now);
  }

  /** What one more argp adds, and that there is room for it. */
  lemma NextNode(prefix: seq<int>, all: seq<Argp>, k: nat)
    requires k < |all|
    ensures var opts := Options(all[k]);
      && ShortOf(prefix, all, k + 1) == Emit(ShortOf(prefix, all, k), opts, |opts|)
      && LongOf(all, k + 1) == LongScan(LongOf(all, k), opts, GroupCount(all, k), |opts|)
    ensures |ShortOf(prefix, all, k + 1)| <= |ShortOf(prefix, all, |all|)|
    ensures |LongOf(all, k + 1)| <= |LongOf(all, |all|)|
    ensures GroupCount(all, k + 1) <= GroupCount(all, |all|) && InputsOf(all, k + 1) <= InputsOf(all, |all|)
  {
    ShortGrows(prefix, all, k + 1, |all|);
    LongOfGrows(all, k + 1, |all|);
    GroupCountGrows(all, k + 1, |all|);
  }

  method AddNodeOptions(a: Argp, t: Tables, ghost prefix: seq<int>, ghost all: seq<Argp>, ghost k: nat)
    requires k < |all| && all[k] == a && t.Ended()
    requires t.Shorts() == ShortOf(prefix, all, k) && t.Longs() == LongOf(all, k) && t.egroup == GroupCount(all, k)
    requires |ShortOf(prefix, all, |all|)| < t.shortOpts.Length && |LongOf(all, |all|)| < t.longOpts.Length
    modifies t`shortEnd, t`longEnd, t.shortOpts, t.longOpts
    ensures t.Ended()
    ensures t.Shorts() == ShortOf(prefix, all, k + 1) && t.Longs() == LongOf(all, k + 1)
  {
    NextNode(prefix, all, k);
    if a.options.Some? {
      t.AddOptions(a.options.value, t.egroup, ShortOf(prefix, all, k), LongOf(all, k));
    }
  }

  method AddGroup(a: Argp, parent: Option<(nat, nat)>, t: Tables,
                  ghost prefix: seq<int>, ghost all: seq<Argp>, k: nat, ghost groups: seq<Group>)
    requires k < |all| && all[k] == a && IsGroup(a) && t.Holds(prefix, all, k) && t.Fits(prefix, all)
    requires groups <= t.Groups() && ParentFits(parent, t.Groups())
    modifies t, t.shortOpts, t.longOpts, t.groups
    ensures t.Holds(prefix, all, k + 1) && groups <= t.Groups()
    ensures t.egroup == old(t.egroup) + 1 && t.Groups()[t.egroup - 1].inputs == |a.children|
    ensures Parents(t.Groups()) == Parents(old(t.Groups())) + [parent]
  {
    NextNode(prefix, all, k);
    AddNodeOptions(a, t, prefix, all, k);
    var g := Group(k, a.parser, t.shortEnd, t.inputsEnd, |a.children|, parent);
    GroupsSnoc(prefix, all, k, t.Groups(), g);
    ParentsSnoc(t.Groups(), g);
    t.PutGroup(g);
  }

  // ----- The whole construction

  function All(argp: Option<Argp>): seq<Argp> {
    if argp.Some? then Preorder(argp.value) else []
  }

  /** Empty tables, but for the prefix of the string. */
  method Allocate(flags: Flags, sizes: Sizes) returns (t: Tables)
    requires |Prefix(flags)| < ShortSpace(flags, sizes)
    ensures fresh(t) && fresh(t.shortOpts) && fresh(t.longOpts) && fresh(t.groups)
    ensures t.shortOpts.Length == ShortSpace(flags, sizes) && t.longOpts.Length == sizes.long + 1
    ensures t.groups.Length == sizes.groups + 1 && t.inputs == sizes.inputs
    ensures t.Ended() && t.Shorts() == Prefix(flags) && t.Longs() == [] && t.egroup == 0 && t.inputsEnd == 0
  {
    t := new Tables(ShortSpace(flags, sizes), sizes.long + 1, sizes.groups + 1, sizes.inputs);
    if flags.inOrder {
      t.PutShort(MINUS);
    } else if flags.noArgs {
      t.PutShort(PLUS);
    }
    t.shortOpts[t.shortEnd] := 0;
    t.longOpts[t.longEnd] := End;
  }

  /** The sizes counted on a tree give room for its tables. */
  lemma TreeFits(argp: Option<Argp>, flags: Flags)
    requires ShortFits(flags, All(argp))
    ensures var all, sizes := All(argp), if argp.Some? then TreeSizes(argp.value) else Sizes(0, 0, 0, 0);
      && |ShortOf(Prefix(flags), all, |all|)| < ShortSpace(flags, sizes)
      && |Prefix(flags)| < ShortSpace(flags, sizes) && |LongOf(all, |all|)| <= sizes.long
      && GroupCount(all, |all|) == sizes.groups && InputsOf(all, |all|) <= sizes.inputs
  {
    var all := All(argp);
    if argp.Some? {
      WholeTree(argp.value);
      TreeSizesInOrder(all, 0, argp.value);
    }
    SizesSuffice(Prefix(flags), all, |all|);
    ShortGrows(Prefix(flags), all, 0, |all|);
  }

  /** Measure the tree, allocate, and convert: no write leaves an allocation if the string of short
      options fits. */
  method BuildTables(argp: Option<Argp>, flags: Flags) returns (t: Tables)
    requires ShortFits(flags, All(argp))
    ensures fresh(t) && t.Holds(Prefix(flags), All(argp), |All(argp)|)
    ensures Parents(t.Groups()) == if argp.Some? then Places(argp.value, None, 0) else []
  {
    ghost var all, prefix := All(argp), Prefix(flags);
    TreeFits(argp, flags);
    var sizes := Sizes(0, 0, 0, 0);
    if argp.Some? {
      sizes := CalcSizes(argp.value, sizes);
    }
    t := Allocate(flags, sizes);
    assert t.Groups() == [] && GroupsOk(prefix, all, 0, []);
    if argp.Some? {
      WholeTree(argp.value);
      var next := ConvertOptions(argp.value, None, t, prefix, all, 0, []);
      assert [] + Places(argp.value, None, 0) == Places(argp.value, None, 0);
    }
  }

  // ----- Who gets a short option

  /** The first position of `c` in `s`, or the length (strchr). */
  function IndexOf(s: seq<int>, c: int): nat {
    IndexFrom(s, c, 0)
  }

  function IndexFrom(s: seq<int>, c: int, from: nat): (i: nat)
    requires from <= |s|
    ensures from <= i <= |s| && (i < |s| ==> s[i] == c)
    ensures forall x :: from <= x < i ==> s[x] != c
    decreases |s| - from
  {
    if from == |s| || s[from] == c then from else IndexFrom(s, c, from + 1)
  }

  /** One of the first `m` options gives the parser the letter `key`. */
  predicate ParserOffers(opts: seq<Opt>, m: nat, key: int)
    requires m <= |opts|
  {
    m > 0 && (ParserOffers(opts, m - 1, key)
              || (IsShort(opts[m - 1]) && opts[m - 1].key == key && ForParser(opts, m - 1)))
  }

  predicate ParserDefines(a: Argp, key: int) {
    ParserOffers(Options(a), |Options(a)|, key)
  }

  lemma InConcat(s: seq<int>, t: seq<int>, key: int)
    ensures key in s + t <==> key in s || key in t
  {
  }

  lemma InEmitOne(opts: seq<Opt>, j: nat, key: int)
    requires j < |opts| && key != COLON
    ensures key in EmitOne(opts, j) <==> IsShort(opts[j]) && opts[j].key == key && ForParser(opts, j)
  {
    var colons := Colons(opts[Real(opts, j)]);
    InConcat([opts[j].key], colons, key);
    assert colons == [] || colons == [COLON] || colons == [COLON, COLON];
  }

  lemma {:induction false} InEmit(seen: seq<int>, opts: seq<Opt>, m: nat, key: int)
    requires m <= |opts| && key != COLON
    ensures key in Emit(seen, opts, m) <==> key in seen || ParserOffers(opts, m, key)
  {
    hide EmitOne;
    if m > 0 {
      InEmit(seen, opts, m - 1, key);
      InConcat(Emit(seen, opts, m - 1), EmitOne(opts, m - 1), key);
      InEmitOne(opts, m - 1, key);
    }
  }

  /** One of the first `n` argps gives the parser the letter `key`. */
  predicate DefinedBefore(all: seq<Argp>, n: nat, key: int)
    requires n <= |all|
  {
    n > 0 && (DefinedBefore(all, n - 1, key) || ParserDefines(all[n - 1], key))
  }

  lemma {:induction false} InShortOf(prefix: seq<int>, all: seq<Argp>, n: nat, key: int)
    requires n <= |all| && key != COLON
    ensures key in ShortOf(prefix, all, n) <==> key in prefix || DefinedBefore(all, n, key)
  {
    if n > 0 {
      InShortOf(prefix, all, n - 1, key);
      InEmit(ShortOf(prefix, all, n - 1), Options(all[n - 1]), |Options(all[n - 1])|, key);
    }
  }

  lemma {:induction false} DefinedBeforeIff(all: seq<Argp>, n: nat, key: int)
    requires n <= |all|
    ensures DefinedBefore(all, n, key) <==> exists k :: 0 <= k < n && ParserDefines(all[k], key)
  {
    if n > 0 {
      DefinedBeforeIff(all, n - 1, key);
    }
  }

  /** The string before argp `k` ends where the last group before it ends. */
  lemma {:induction false} EndBefore(prefix: seq<int>, all: seq<Argp>, k: nat, groups: seq<Group>)
    requires k <= |all| && GroupsOk(prefix, all, |all|, groups)
    ensures GroupCount(all, k) <= |groups|
    ensures |ShortOf(prefix, all, k)| ==
      if GroupCount(all, k) == 0 then |prefix| else groups[GroupCount(all, k) - 1].shortEnd
  {
    hide Emit;
    GroupCountGrows(all, k, |all|);
    if k > 0 {
      EndBefore(prefix, all, k - 1, groups);
      if IsGroup(all[k - 1]) {
        assert GroupOk(prefix, all, k - 1, groups[GroupCount(all, k - 1)]);
      } else {
        ShortSkips(prefix, all, k - 1);
      }
    }
  }

  lemma ShortSkips(prefix: seq<int>, all: seq<Argp>, k: nat)
    requires k < |all| && !IsGroup(all[k])
    ensures ShortOf(prefix, all, k + 1) == ShortOf(prefix, all, k)
  {
  }

  lemma {:induction false} NodeOfGroup(all: seq<Argp>, n: nat, g: nat) returns (k: nat)
    requires n <= |all| && g < GroupCount(all, n)
    ensures k < n && IsGroup(all[k]) && GroupCount(all, k) == g
  {
    if g < GroupCount(all, n - 1) {
      k := NodeOfGroup(all, n - 1, g);
    } else {
      k := n - 1;
    }
  }

  /** The input slots of a group lie before those of every later group, and all of them within the allocation. */
  lemma InputSlicesDisjoint(prefix: seq<int>, all: seq<Argp>, groups: seq<Group>, g: nat, h: nat)
    requires GroupsOk(prefix, all, |all|, groups) && g < h < |groups|
    ensures groups[g].firstInput + groups[g].inputs <= groups[h].firstInput
    ensures groups[h].firstInput + groups[h].inputs <= InputsOf(all, |all|)
  {
    var k := NodeOfGroup(all, |all|, g);
    var l := NodeOfGroup(all, |all|, h);
    assert GroupOk(prefix, all, k, groups[g]) && GroupOk(prefix, all, l, groups[h]);
    if l <= k {
      GroupCountGrows(all, l, k);
    } else {
      GroupCountGrows(all, k + 1, l);
    }
    GroupCountGrows(all, l + 1, |all|);
  }

  /** Argp `k` is the first in preorder that gives the parser the letter `key`. */
  ghost predicate FirstDefiner(all: seq<Argp>, k: nat, key: int) {
    && k < |all| && ParserDefines(all[k], key)
    && forall i :: 0 <= i < k ==> !ParserDefines(all[i], key)
  }

  /** The first group that ends behind position `i` is that of the argp whose options stand there. */
  lemma FirstEndStraddles(prefix: seq<int>, all: seq<Argp>, groups: seq<Group>, i: nat, g: nat) returns (k: nat)
    requires GroupsOk(prefix, all, |all|, groups) && g < |groups| && |prefix| <= i < groups[g].shortEnd
    requires g > 0 ==> groups[g - 1].shortEnd <= i
    ensures k < |all| && k == groups[g].node && |ShortOf(prefix, all, k)| <= i < |ShortOf(prefix, all, k + 1)|
  {
    hide ShortOf;
    k := NodeOfGroup(all, |all|, g);
    assert GroupOk(prefix, all, k, groups[g]);
    EndBefore(prefix, all, k, groups);
  }

  /** A letter whose first occurrence is behind the options before argp `k` is new with argp `k`. */
  lemma OccursBetween(prefix: seq<int>, all: seq<Argp>, key: int, k: nat)
    requires k < |all|
    requires |ShortOf(prefix, all, k)| <= IndexOf(ShortOf(prefix, all, |all|), key) < |ShortOf(prefix, all, k + 1)|
    ensures key !in ShortOf(prefix, all, k) && key in ShortOf(prefix, all, k + 1)
  {
    hide ShortOf;
    var s, low, high := ShortOf(prefix, all, |all|), ShortOf(prefix, all, k), ShortOf(prefix, all, k + 1);
    var i := IndexOf(s, key);
    ShortStays(prefix, all, k + 1, |all|, i);
    assert high[i] == key;
    forall x | 0 <= x < |low| ensures low[x] != key {
      ShortStays(prefix, all, k, |all|, x);
    }
  }

  lemma NewLetterIsDefined(prefix: seq<int>, all: seq<Argp>, key: int, k: nat)
    requires k < |all| && key != COLON
    requires key !in ShortOf(prefix, all, k) && key in ShortOf(prefix, all, k + 1)
    ensures FirstDefiner(all, k, key)
  {
    InShortOf(prefix, all, k, key);
    DefinedBeforeIff(all, k, key);
    InEmit(ShortOf(prefix, all, k), Options(all[k]), |Options(all[k])|, key);
  }

  /** A letter's first occurrence is among its first definer's options. */
  lemma FirstOccurrenceIsDefiner(prefix: seq<int>, all: seq<Argp>, key: int, k: nat)
    requires k < |all| && key != COLON && key !in prefix
    requires |ShortOf(prefix, all, k)| <= IndexOf(ShortOf(prefix, all, |all|), key) < |ShortOf(prefix, all, k + 1)|
    ensures FirstDefiner(all, k, key)
  {
    OccursBetween(prefix, all, key, k);
    NewLetterIsDefined(prefix, all, key, k);
  }

  lemma FirstEndIsDefiner(prefix: seq<int>, all: seq<Argp>, groups: seq<Group>, key: int, g: nat)
    requires GroupsOk(prefix, all, |all|, groups) && key != COLON && key !in prefix && g < |groups|
    requires var i := IndexOf(ShortOf(prefix, all, |all|), key);
      i < groups[g].shortEnd && (g > 0 ==> groups[g - 1].shortEnd <= i)
    ensures FirstDefiner(all, groups[g].node, key)
  {
    var s := ShortOf(prefix, all, |all|);
    BehindPrefix(prefix, all, key);
    var k := FirstEndStraddles(prefix, all, groups, IndexOf(s, key), g);
    FirstOccurrenceIsDefiner(prefix, all, key, k);
  }

  lemma BehindPrefix(prefix: seq<int>, all: seq<Argp>, key: int)
    requires key !in prefix
    ensures |prefix| <= IndexOf(ShortOf(prefix, all, |all|), key)
  {
    ShortGrows(prefix, all, 0, |all|);
    var i := IndexOf(ShortOf(prefix, all, |all|), key);
    if i < |prefix| {
      ShortStays(prefix, all, 0, |all|, i);
    }
  }

  /** The first of `n` groups that ends behind `shortIndex`, or `n`. */
  method FirstEnd(groups: array<Group>, n: nat, shortIndex: nat) returns (group: nat)
    requires n <= groups.Length
    ensures group <= n && (group < n ==> groups[group].shortEnd > shortIndex)
    ensures forall h :: 0 <= h < group ==> groups[h].shortEnd <= shortIndex
  {
    group := 0;
    while group < n
      invariant group <= n
      invariant forall h :: 0 <= h < group ==> groups[h].shortEnd <= shortIndex
    {
      if groups[group].shortEnd > shortIndex {
        return;
      }
      group := group + 1;
    }
  }

  /** Find the group a short option belongs to: that of the first argp that defines it. */
  method GroupOfShort(t: Tables, opt: int, ghost prefix: seq<int>, ghost all: seq<Argp>) returns (g: Option<nat>)
    requires t.Holds(prefix, all, |all|) && opt != COLON && opt !in prefix
    ensures g.None? <==> forall k :: 0 <= k < |all| ==> !ParserDefines(all[k], opt)
    ensures g.Some? ==> g.value < t.egroup && FirstDefiner(all, t.groups[g.value].node, opt)
  {
    hide ShortOf, GroupOk;
    g := None;
    InShortOf(prefix, all, |all|, opt);
    DefinedBeforeIff(all, |all|, opt);
    var shortIndex := IndexOf(t.Shorts(), opt);
    if shortIndex < t.shortEnd {
      var group := FirstEnd(t.groups, t.egroup, shortIndex);
      EndBefore(prefix, all, |all|, t.Groups());
      BehindPrefix(prefix, all, opt);
      assert group < t.egroup by {
        assert t.egroup > 0 ==> t.Groups()[t.egroup - 1] == t.groups[t.egroup - 1];
      }
      FirstEndIsDefiner(prefix, all, t.Groups(), opt, group);
      g := Some(group);
    }
  }

  // ----- Whether a letter takes an argument

  /** What getopt reads behind a letter at `i`: no argument, a required or an optional one. */
  function ArgRead(s: seq<int>, i: nat): int {
    if i + 1 >= |s| || s[i + 1] != COLON then 0 else if i + 2 >= |s| || s[i + 2] != COLON then 1 else 2
  }

  /** Option `j` of argp `k` is the first in preorder that gives the parser the letter. */
  ghost predicate FirstToOffer(all: seq<Argp>, k: nat, j: nat, key: int) {
    && FirstDefiner(all, k, key) && j < |Options(all[k])|
    && IsShort(Options(all[k])[j]) && Options(all[k])[j].key == key && ForParser(Options(all[k]), j)
    && !ParserOffers(Options(all[k]), j, key)
  }

  lemma IndexAt(s: seq<int>, c: int, i: nat)
    requires i < |s| && s[i] == c && forall x :: 0 <= x < i ==> s[x] != c
    ensures IndexOf(s, c) == i
  {
  }

  lemma {:induction false} EmitKeeps(seen: seq<int>, opts: seq<Opt>, m: nat, n: nat)
    requires m <= n <= |opts|
    ensures Emit(seen, opts, m) <= Emit(seen, opts, n)
    decreases n
  {
    hide EmitOne;
    if m < n {
      EmitKeeps(seen, opts, m, n - 1);
    }
  }

  lemma {:induction false} ShortKeeps(prefix: seq<int>, all: seq<Argp>, m: nat, n: nat)
    requires m <= n <= |all|
    ensures ShortOf(prefix, all, m) <= ShortOf(prefix, all, n)
    decreases n
  {
    hide ShortOf;
    if m < n {
      ShortKeeps(prefix, all, m, n - 1);
      NodeKeeps(prefix, all, n - 1);
    }
  }

  lemma NodeKeeps(prefix: seq<int>, all: seq<Argp>, k: nat)
    requires k < |all|
    ensures ShortOf(prefix, all, k) <= ShortOf(prefix, all, k + 1)
  {
    EmitKeeps(ShortOf(prefix, all, k), Options(all[k]), 0, |Options(all[k])|);
  }

  lemma NewLetter(prefix: seq<int>, all: seq<Argp>, k: nat, j: nat, key: int)
    requires FirstToOffer(all, k, j, key) && key != COLON && key !in prefix
    ensures key !in Emit(ShortOf(prefix, all, k), Options(all[k]), j)
  {
    hide Emit, ShortOf, ParserOffers;
    InShortOf(prefix, all, k, key);
    DefinedBeforeIff(all, k, key);
    InEmit(ShortOf(prefix, all, k), Options(all[k]), j, key);
  }

  lemma LetterStays(prefix: seq<int>, all: seq<Argp>, k: nat, j: nat)
    requires k < |all| && j < |Options(all[k])|
    ensures var opts := Options(all[k]);
      Emit(ShortOf(prefix, all, k), opts, j) + EmitOne(opts, j) <= ShortOf(prefix, all, |all|)
  {
    var opts, seen := Options(all[k]), ShortOf(prefix, all, k);
    EmitKeeps(seen, opts, j + 1, |opts|);
    ShortKeeps(prefix, all, k + 1, |all|);
  }

  /** The letter's first occurrence, and the colons behind it, are those of the first option that offers it. */
  lemma LetterPlace(prefix: seq<int>, all: seq<Argp>, k: nat, j: nat, key: int) returns (before: seq<int>)
    requires FirstToOffer(all, k, j, key) && key != COLON && key !in prefix
    ensures before + ([key] + Colons(Options(all[k])[Real(Options(all[k]), j)])) <= ShortOf(prefix, all, |all|)
    ensures IndexOf(ShortOf(prefix, all, |all|), key) == |before|
  {
    hide Emit, ShortOf, Colons;
    var s := ShortOf(prefix, all, |all|);
    before := Emit(ShortOf(prefix, all, k), Options(all[k]), j);
    NewLetter(prefix, all, k, j, key);
    LetterStays(prefix, all, k, j);
    assert s[..|before|] == before && s[|before|] == key;
    forall x | 0 <= x < |before| ensures s[x] != key {
      assert s[..|before|][x] == before[x];
    }
    IndexAt(s, key, |before|);
  }

  lemma ColonsRead(s: seq<int>, before: seq<int>, key: int, r: Opt)
    requires before + ([key] + Colons(r)) <= s
    ensures var i, next := |before|, |before| + 1 + HasArg(r);
      next <= |s| && s[i] == key
      && (ArgRead(s, i) == HasArg(r) <==> HasArg(r) == 2 || next == |s| || s[next] != COLON)
  {
    var part := [key] + Colons(r);
    assert s[|before|..|before| + |part|] == part;
    assert forall x :: |before| <= x < |before| + |part| ==> s[x] == part[x - |before|];
  }

  /**
   What getopt reads of a letter's argument is what the option says that first offers the letter, or that this is an
   alias of, exactly unless the next option has the letter ':' and the argument is not an optional one.
   */
  lemma LetterArg(prefix: seq<int>, all: seq<Argp>, k: nat, j: nat, key: int)
    requires FirstToOffer(all, k, j, key) && key != COLON && key !in prefix
    ensures var s, r := ShortOf(prefix, all, |all|), Options(all[k])[Real(Options(all[k]), j)];
      var i, next := IndexOf(s, key), IndexOf(s, key) + 1 + HasArg(r);
      && i < |s| && s[i] == key && next <= |s|
      && (ArgRead(s, i) == HasArg(r) <==> HasArg(r) == 2 || next == |s| || s[next] != COLON)
  {
    hide ParserDefines, ShortOf, IndexOf, Colons, HasArg, ArgRead;
    var before := LetterPlace(prefix, all, k, j, key);
    ColonsRead(ShortOf(prefix, all, |all|), before, key, Options(all[k])[Real(Options(all[k]), j)]);
  }

  // ----- What a long name is bound to

  function Lookup(longs: seq<LongOpt>, name: string): Option<LongOpt> {
    var i := FindName(longs, |longs|, name);
    if i >= 0 then Some(longs[i]) else None
  }

  /** The first of the first `m` options that gives the parser the name. */
  function FirstNamed(opts: seq<Opt>, m: nat, group: nat, name: string): Option<LongOpt>
    requires m <= |opts|
  {
    if m == 0 then None else
    var f := FirstNamed(opts, m - 1, group, name);
    if f.Some? then f
    else if ForParser(opts, m - 1) && opts[m - 1].name == Some(name) then Some(LongOne(opts, m - 1, group))
    else None
  }

  /** The first definition of the name in the first `n` argps. */
  function FirstLong(all: seq<Argp>, n: nat, name: string): Option<LongOpt>
    requires n <= |all|
  {
    if n == 0 then None else
    var f := FirstLong(all, n - 1, name);
    if f.Some? then f
    else FirstNamed(Options(all[n - 1]), |Options(all[n - 1])|, GroupCount(all, n - 1), name)
  }

  lemma LookupSnoc(s: seq<LongOpt>, e: LongOpt, name: string)
    requires e.Long?
    ensures Lookup(s + [e], name) ==
      if Lookup(s, name).Some? then Lookup(s, name) else if e.name == name then Some(e) else None
  {
    assert (s + [e])[..|s|] == s[..|s|];
    FindNameAmongMore(s, s + [e], |s|, |s|, name);
  }

  lemma {:induction false} ScanBindsFirst(seen: seq<LongOpt>, opts: seq<Opt>, group: nat, m: nat, name: string)
    requires m <= |opts|
    ensures Lookup(LongScan(seen, opts, group, m), name) ==
      if Lookup(seen, name).Some? then Lookup(seen, name) else FirstNamed(opts, m, group, name)
  {
    if m > 0 {
      ScanBindsFirst(seen, opts, group, m - 1, name);
      if ForParser(opts, m - 1) && opts[m - 1].name.Some? {
        LookupSnoc(LongScan(seen, opts, group, m - 1), LongOne(opts, m - 1, group), name);
      }
    }
  }

  /** A long name is bound to its first definition in preorder. */
  lemma {:induction false} NameIsFirstDefinition(all: seq<Argp>, n: nat, name: string)
    requires n <= |all|
    ensures Lookup(LongOf(all, n), name) == FirstLong(all, n, name)
  {
    if n > 0 {
      var opts := Options(all[n - 1]);
      NameIsFirstDefinition(all, n - 1, name);
      ScanBindsFirst(LongOf(all, n - 1), opts, GroupCount(all, n - 1), |opts|, name);
    }
  }

  /** Option `j` gives the parser the name. */
  predicate Names(opts: seq<Opt>, j: nat, name: string)
    requires j < |opts|
  {
    ForParser(opts, j) && opts[j].name == Some(name)
  }

  ghost predicate NoneNames(opts: seq<Opt>, m: nat, name: string)
    requires m <= |opts|
  {
    forall i :: 0 <= i < m ==> !Names(opts, i, name)
  }

  /** Option `j` of argp `k` is the first in preorder that gives the parser the name. */
  ghost predicate FirstToName(all: seq<Argp>, k: nat, j: nat, name: string) {
    && k < |all| && j < |Options(all[k])| && Names(Options(all[k]), j, name) && NoneNames(Options(all[k]), j, name)
    && forall h :: 0 <= h < k ==> NoneNames(Options(all[h]), |Options(all[h])|, name)
  }

  lemma {:induction false} FirstNamedNone(opts: seq<Opt>, m: nat, group: nat, name: string)
    requires m <= |opts| && NoneNames(opts, m, name)
    ensures FirstNamed(opts, m, group, name) == None
  {
    if m > 0 {
      FirstNamedNone(opts, m - 1, group, name);
      assert !Names(opts, m - 1, name);
    }
  }

  lemma {:induction false} FirstNamedIs(opts: seq<Opt>, m: nat, group: nat, name: string, j: nat)
    requires j < m <= |opts| && Names(opts, j, name) && NoneNames(opts, j, name)
    ensures FirstNamed(opts, m, group, name) == Some(LongOne(opts, j, group))
    decreases m
  {
    if j < m - 1 {
      FirstNamedIs(opts, m - 1, group, name, j);
    } else {
      FirstNamedNone(opts, j, group, name);
    }
  }

  lemma {:induction false} FirstLongNone(all: seq<Argp>, n: nat, name: string)
    requires n <= |all| && forall h :: 0 <= h < n ==> NoneNames(Options(all[h]), |Options(all[h])|, name)
    ensures FirstLong(all, n, name) == None
  {
    if n > 0 {
      FirstLongNone(all, n - 1, name);
      FirstNamedNone(Options(all[n - 1]), |Options(all[n - 1])|, GroupCount(all, n - 1), name);
    }
  }

  lemma {:induction false} FirstLongIs(all: seq<Argp>, n: nat, name: string, k: nat, j: nat)
    requires k < n <= |all| && FirstToName(all, k, j, name)
    ensures FirstLong(all, n, name) == Some(LongOne(Options(all[k]), j, GroupCount(all, k)))
    decreases n
  {
    if k < n - 1 {
      FirstLongIs(all, n - 1, name, k, j);
    } else {
      FirstLongNone(all, k, name);
      FirstNamedIs(Options(all[k]), |Options(all[k])|, GroupCount(all, k), name, j);
    }
  }

  /**
   What the parser gets from a long name: the group is that of the argp which first gives the name, exactly if no
   more than 126 groups come before it, and the key is the user's, exactly if that fits 24 bits with its sign; and
   whether it takes an argument is said by the option that the name is an alias of.
   */
  lemma GroupOfLong(prefix: seq<int>, all: seq<Argp>, groups: seq<Group>, k: nat, j: nat, name: string)
    requires GroupsOk(prefix, all, |all|, groups) && FirstToName(all, k, j, name)
    ensures Lookup(LongOf(all, |all|), name).Some? && Lookup(LongOf(all, |all|), name).value.Long?
    ensures var entry, g := Lookup(LongOf(all, |all|), name).value, GroupCount(all, k);
      var o, owner := Options(all[k])[j], Options(all[k])[Real(Options(all[k]), j)];
      var key := if o.key != 0 then o.key else owner.key;
      && g < |groups| && groups[g].node == k && entry.hasArg == HasArg(owner)
      && (GroupKey(entry.val) - 1 == g <==> g < 127)
      && (UserKey(entry.val) == key <==> -0x80_0000 <= key < 0x80_0000)
  {
    NameIsFirstDefinition(all, |all|, name);
    FirstLongIs(all, |all|, name, k, j);
    var o, owner := Options(all[k])[j], Options(all[k])[Real(Options(all[k]), j)];
    DecodeEncode(if o.key != 0 then o.key else owner.key, GroupCount(all, k));
    assert GroupOk(prefix, all, k, groups[GroupCount(all, k)]);
  }

  /** No name occurs twice: looking up an entry's name finds that entry. */
  ghost predicate NamesDistinct(longs: seq<LongOpt>) {
    forall i :: 0 <= i < |longs| ==> longs[i].Long? && FindName(longs, |longs|, longs[i].name) == i
  }

  lemma DistinctSnoc(s: seq<LongOpt>, e: LongOpt)
    requires NamesDistinct(s) && e.Long? && !Named(s, e.name)
    ensures NamesDistinct(s + [e])
  {
    assert (s + [e])[..|s|] == s[..|s|];
    forall i | 0 <= i < |s + [e]| ensures FindName(s + [e], |s + [e]|, (s + [e])[i].name) == i {
      FindNameAmongMore(s, s + [e], |s|, |s|, (s + [e])[i].name);
    }
  }

  lemma {:induction false} ScanDistinct(seen: seq<LongOpt>, opts: seq<Opt>, group: nat, m: nat)
    requires m <= |opts| && NamesDistinct(seen)
    ensures NamesDistinct(LongScan(seen, opts, group, m))
  {
    if m > 0 {
      ScanDistinct(seen, opts, group, m - 1);
      var s := LongScan(seen, opts, group, m - 1);
      if ForParser(opts, m - 1) && opts[m - 1].name.Some? && !Named(s, opts[m - 1].name.value) {
        DistinctSnoc(s, LongOne(opts, m - 1, group));
      }
    }
  }

  lemma {:induction false} LongNamesDistinct(all: seq<Argp>, n: nat)
    requires n <= |all|
    ensures NamesDistinct(LongOf(all, n))
  {
    if n > 0 {
      LongNamesDistinct(all, n - 1);
      ScanDistinct(LongOf(all, n - 1), Options(all[n - 1]), GroupCount(all, n - 1), |Options(all[n - 1])|);
    }
  }
}
