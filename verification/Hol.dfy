/**
 The help list: one entry for each option with its aliases, all entries sharing one string of
 short-option letters in which an option's letter is missing if an earlier option shadows it.
 */
module Hol {
  import opened ArgpTree
  import opened Wrappers
  import opened Cluster

  /** What the option tree alone says of an entry: the position of its argp in preorder, its
      options, its sorting group, and the (group, index) keys of its clusters from the root. */
  datatype Row = Row(node: nat, opts: seq<Opt>, group: int, path: seq<(int, int)>)

  /** An entry in memory: its letters start at position `so` of the shared string. */
  datatype Entry = Entry(node: nat, opts: seq<Opt>, so: nat, group: int, cluster: Cluster?)

  // ----- The flat construction

  /** The letters after the first `n` of `opts`: each short key goes in at its first occurrence. */
  function Scan(seen: seq<int>, opts: seq<Opt>, n: nat): seq<int>
    requires n <= |opts|
  {
    if n == 0 then seen else
    var s := Scan(seen, opts, n - 1);
    if IsShort(opts[n - 1]) && opts[n - 1].key !in s then s + [opts[n - 1].key] else s
  }

  /** The letters after the first `n` rows. */
  function ScanRows(seen: seq<int>, rows: seq<Row>, n: nat): seq<int>
    requires n <= |rows|
  {
    if n == 0 then seen else
    Scan(ScanRows(seen, rows, n - 1), rows[n - 1].opts, |rows[n - 1].opts|)
  }

  function RunEnd(opts: seq<Opt>, i: nat): (j: nat)
    requires i <= |opts|
    ensures i <= j <= |opts|
    ensures forall k :: i <= k < j ==> opts[k].alias
    ensures j < |opts| ==> !opts[j].alias
    decreases |opts| - i
  {
    if i == |opts| || !opts[i].alias then i else RunEnd(opts, i + 1)
  }

  /** A group header without a number of its own opens the next group. */
  function GroupOf(o: Opt, current: int): int {
    if o.group != 0 then o.group
    else if o.name.None? && o.key == 0 then current + 1
    else current
  }

  /** The rows of one options array from position `i` on. */
  function OwnRows(opts: seq<Opt>, i: nat, current: int, node: nat, path: seq<(int, int)>): seq<Row>
    requires i <= |opts|
    decreases |opts| - i
  {
    if i == |opts| then [] else
    var j := RunEnd(opts, i + 1);
    var g := GroupOf(opts[i], current);
    [Row(node, opts[i..j], g, path)] + OwnRows(opts, j, g, node, path)
  }

  /** Option `k` sets the group by number; or it is a header without one. */
  predicate SetsGroup(opts: seq<Opt>, k: nat)
    requires k < |opts|
  {
    !opts[k].alias && opts[k].group != 0
  }

  predicate IsHeader(opts: seq<Opt>, k: nat)
    requires k < |opts|
  {
    !opts[k].alias && opts[k].group == 0 && opts[k].name.None? && opts[k].key == 0
  }

  /** The last of the first `n` options that sets the group, or -1. */
  function LastSet(opts: seq<Opt>, n: nat): (l: int)
    requires n <= |opts|
    ensures -1 <= l < n && (l >= 0 ==> SetsGroup(opts, l))
    ensures forall k :: l < k < n ==> !SetsGroup(opts, k)
  {
    if n == 0 then -1 else if SetsGroup(opts, n - 1) then n - 1 else LastSet(opts, n - 1)
  }

  function Headers(opts: seq<Opt>, m: nat, n: nat): nat
    requires m <= n <= |opts|
    decreases n
  {
    if m == n then 0 else Headers(opts, m, n - 1) + if IsHeader(opts, n - 1) then 1 else 0
  }

  /** The group in force behind the first `n` options: the last one set by number, or 0, and the headers since. */
  function GroupTo(opts: seq<Opt>, n: nat): int
    requires n <= |opts|
  {
    var l := LastSet(opts, n);
    (if l >= 0 then opts[l].group else 0) + Headers(opts, l + 1, n)
  }

  lemma GroupNext(opts: seq<Opt>, i: nat)
    requires i < |opts|
    ensures GroupTo(opts, i + 1) == if opts[i].alias then GroupTo(opts, i) else GroupOf(opts[i], GroupTo(opts, i))
  {
  }

  lemma {:induction false} GroupPast(opts: seq<Opt>, i: nat, j: nat)
    requires i <= j <= |opts| && forall k :: i <= k < j ==> opts[k].alias
    ensures GroupTo(opts, j) == GroupTo(opts, i)
    decreases j
  {
    if i < j {
      GroupPast(opts, i, j - 1);
      GroupNext(opts, j - 1);
    }
  }

  /** An entry's group is the one in force at its first option. */
  lemma {:induction false} RowGroups(opts: seq<Opt>, i: nat, node: nat, path: seq<(int, int)>, e: nat) returns (p: nat)
    requires i <= |opts| && (i < |opts| ==> !opts[i].alias)
    requires e < |OwnRows(opts, i, GroupTo(opts, i), node, path)|
    ensures i <= p < |opts| && !opts[p].alias
    ensures var r := OwnRows(opts, i, GroupTo(opts, i), node, path)[e];
      r.opts == opts[p..RunEnd(opts, p + 1)] && r.group == GroupTo(opts, p + 1)
    decreases |opts| - i
  {
    hide GroupTo, GroupOf;
    var j := RunEnd(opts, i + 1);
    GroupNext(opts, i);
    GroupPast(opts, i + 1, j);
    if e == 0 {
      p := i;
    } else {
      p := RowGroups(opts, j, node, path, e - 1);
    }
  }

  function ChildPath(c: Argp, i: nat, path: seq<(int, int)>): seq<(int, int)> {
    if Clustered(c) then path + [(c.group, i)] else path
  }

  /** The rows of a tree whose root is number `node` in preorder. */
  function TreeRows(a: Argp, node: nat, path: seq<(int, int)>): seq<Row> {
    (if a.options.Some? then OwnRows(a.options.value, 0, 0, node, path) else [])
    + ChildRows(a.children, |a.children|, node + 1, path)
  }

  function ChildRows(cs: seq<Argp>, i: nat, node: nat, path: seq<(int, int)>): seq<Row>
    requires i <= |cs|
  {
    if i == 0 then [] else
    ChildRows(cs, i - 1, node, path)
    + TreeRows(cs[i - 1], node + |PreorderOf(cs, i - 1)|, ChildPath(cs[i - 1], i - 1, path))
  }

  /** No options array starts with an alias. */
  predicate Sound(a: Argp) {
    && (a.options.Some? && a.options.value != [] ==> !a.options.value[0].alias)
    && forall i :: 0 <= i < |a.children| ==> Sound(a.children[i])
  }

  // ----- Lists in memory that are the flat construction

  function Keys(c: Cluster?): seq<(int, int)>
    requires c != null ==> Rooted(c)
    decreases if c == null then 0 else c.depth + 1
  {
    if c == null then [] else Keys(c.parent) + [(c.group, c.index)]
  }

  ghost predicate Shows(e: Entry, r: Row) {
    && e.node == r.node && e.opts == r.opts && e.group == r.group
    && (e.cluster != null ==> Rooted(e.cluster)) && Keys(e.cluster) == r.path
  }

  /** `entries` with `letters` are the rows, laid out as one flat scan would. */
  ghost predicate Flat(entries: seq<Entry>, letters: seq<int>, rows: seq<Row>) {
    && |entries| == |rows|
    && letters == ScanRows([], rows, |rows|)
    && forall i :: 0 <= i < |rows| ==> Placed(entries[i], rows, i)
  }

  /** `e` is row `i`, and its letters begin where those of the earlier rows end. */
  ghost predicate Placed(e: Entry, rows: seq<Row>, i: nat)
    requires i < |rows|
  {
    Shows(e, rows[i]) && e.so == |ScanRows([], rows, i)|
  }

  lemma {:induction false} ScanGrows(seen: seq<int>, opts: seq<Opt>, n: nat)
    requires n <= |opts|
    ensures seen <= Scan(seen, opts, n)
  {
    if n > 0 {
      ScanGrows(seen, opts, n - 1);
    }
  }

  lemma {:induction false} ScanFurther(seen: seq<int>, opts: seq<Opt>, m: nat, n: nat)
    requires m <= n <= |opts|
    ensures Scan(seen, opts, m) <= Scan(seen, opts, n)
  {
    if m < n {
      ScanFurther(seen, opts, m, n - 1);
    }
  }

  lemma {:induction false} RowsFurther(seen: seq<int>, rows: seq<Row>, m: nat, n: nat)
    requires m <= n <= |rows|
    ensures ScanRows(seen, rows, m) <= ScanRows(seen, rows, n)
  {
    if m < n {
      RowsFurther(seen, rows, m, n - 1);
      ScanGrows(ScanRows(seen, rows, n - 1), rows[n - 1].opts, |rows[n - 1].opts|);
    }
  }

  predicate Distinct(s: seq<int>) {
    forall i, j :: 0 <= i < j < |s| ==> s[i] != s[j]
  }

  lemma {:induction false} ScanDistinct(seen: seq<int>, opts: seq<Opt>, n: nat)
    requires n <= |opts| && Distinct(seen)
    ensures Distinct(Scan(seen, opts, n))
  {
    if n > 0 {
      ScanDistinct(seen, opts, n - 1);
    }
  }

  lemma {:induction false} RowsDistinct(seen: seq<int>, rows: seq<Row>, n: nat)
    requires n <= |rows| && Distinct(seen)
    ensures Distinct(ScanRows(seen, rows, n))
  {
    if n > 0 {
      RowsDistinct(seen, rows, n - 1);
      ScanDistinct(ScanRows(seen, rows, n - 1), rows[n - 1].opts, |rows[n - 1].opts|);
    }
  }

  lemma {:induction false} ScanRowsPrefix(seen: seq<int>, rows: seq<Row>, rows': seq<Row>, n: nat)
    requires n <= |rows| && n <= |rows'| && rows[..n] == rows'[..n]
    ensures ScanRows(seen, rows, n) == ScanRows(seen, rows', n)
  {
    if n > 0 {
      assert rows[n - 1] == rows[..n][n - 1] == rows'[..n][n - 1] == rows'[n - 1];
      assert rows[..n][..n - 1] == rows[..n - 1] && rows'[..n][..n - 1] == rows'[..n - 1];
      ScanRowsPrefix(seen, rows, rows', n - 1);
    }
  }

  /** Scanning on through more rows is scanning them after what the first have left. */
  lemma {:induction false} ScanRowsAppend(rows: seq<Row>, more: seq<Row>, n: nat)
    requires n <= |more|
    ensures ScanRows([], rows + more, |rows| + n) == ScanRows(ScanRows([], rows, |rows|), more, n)
  {
    if n == 0 {
      assert (rows + more)[..|rows|] == rows[..|rows|];
      ScanRowsPrefix([], rows + more, rows, |rows|);
    } else {
      ScanRowsAppend(rows, more, n - 1);
    }
  }

  // ----- Building

  lemma ScanRowsSnoc(rows: seq<Row>, r: Row, i: nat)
    requires i <= |rows|
    ensures ScanRows([], rows + [r], i) == ScanRows([], rows, i)
  {
    assert (rows + [r])[..i] == rows[..i];
    ScanRowsPrefix([], rows + [r], rows, i);
  }

  lemma FlatSnoc(entries: seq<Entry>, letters: seq<int>, rows: seq<Row>, e: Entry, r: Row)
    requires Flat(entries, letters, rows) && Shows(e, r) && e.so == |letters|
    ensures Flat(entries + [e], Scan(letters, r.opts, |r.opts|), rows + [r])
  {
    hide Shows, Scan;
    ScanRowsSnoc(rows, r, |rows|);
    forall i | 0 <= i < |rows + [r]| ensures Placed((entries + [e])[i], rows + [r], i) {
      ScanRowsSnoc(rows, r, i);
      if i < |rows| {
        assert Placed(entries[i], rows, i);
      }
    }
  }

  class Hol {
    var entries: seq<Entry>
    var letters: seq<int>
    var clusters: seq<Cluster>

    constructor ()
      ensures entries == [] && letters == [] && clusters == []
    {
      entries, letters, clusters := [], [], [];
    }
  }

  lemma FlatNone()
    ensures Flat([], [], [])
  {
  }

  /** The clusters that the entries are in. */
  function Homes(entries: seq<Entry>): (homes: seq<Cluster?>)
    ensures |homes| == |entries|
  {
    seq(|entries|, i requires 0 <= i < |entries| => entries[i].cluster)
  }

  lemma HomesConcat(a: seq<Entry>, b: seq<Entry>)
    ensures Homes(a + b) == Homes(a) + Homes(b)
  {
  }

  /** How many of the argps hang on entries that get a cluster. */
  function ClusterCount(nodes: seq<Argp>): nat {
    if nodes == [] then 0
    else ClusterCount(nodes[..|nodes| - 1]) + if Clustered(nodes[|nodes| - 1]) then 1 else 0
  }

  lemma {:induction false} ClusterCountConcat(a: seq<Argp>, b: seq<Argp>)
    ensures ClusterCount(a + b) == ClusterCount(a) + ClusterCount(b)
    decreases |b|
  {
    if b == [] {
      assert a + b == a;
    } else {
      ClusterCountConcat(a, b[..|b| - 1]);
      assert (a + b)[..|a + b| - 1] == a + b[..|b| - 1];
    }
  }

  lemma ClusterCountNext(cs: seq<Argp>, i: nat)
    requires i < |cs|
    ensures ClusterCount(PreorderOf(cs, i + 1)) == ClusterCount(PreorderOf(cs, i))
      + (if Clustered(cs[i]) then 1 else 0) + ClusterCount(PreorderOf(cs[i].children, |cs[i].children|))
  {
    var below := PreorderOf(cs[i].children, |cs[i].children|);
    ClusterCountConcat(PreorderOf(cs, i), [cs[i]] + below);
    ClusterCountConcat([cs[i]], below);
    assert ClusterCount([cs[i]]) == if Clustered(cs[i]) then 1 else 0 by {
      assert [cs[i]][..0] == [];
    }
  }

  ghost predicate AllDistinct(clusters: seq<Cluster>) {
    forall i, j :: 0 <= i < j < |clusters| ==> clusters[i] != clusters[j]
  }

  /** Every entry is in `cluster` or in one of `clusters`. */
  ghost predicate Housed(homes: seq<Cluster?>, cluster: Cluster?, clusters: seq<Cluster>) {
    forall i :: 0 <= i < |homes| ==> homes[i] == cluster || homes[i] in clusters
  }

  lemma HousedConcat(homes: seq<Cluster?>, more: seq<Cluster?>, cluster: Cluster?, clusters: seq<Cluster>)
    requires Housed(homes, cluster, clusters) && Housed(more, cluster, clusters)
    ensures Housed(homes + more, cluster, clusters)
  {
  }

  lemma DistinctConcat(a: seq<Cluster>, b: seq<Cluster>)
    requires AllDistinct(a) && AllDistinct(b) && forall c :: c in b ==> c !in a
    ensures AllDistinct(a + b)
  {
    forall i, j | 0 <= i < j < |a + b| ensures (a + b)[i] != (a + b)[j] {
      if i < |a| <= j {
        assert a[i] in a && b[j - |a|] in b;
      }
    }
  }

  lemma ChildHoused(homes: seq<Cluster?>, cluster: Cluster?, inner: seq<Cluster>, more: seq<Cluster>, clustered: bool)
    requires clustered ==> inner != []
    requires Housed(homes, if clustered then inner[0] else cluster, more)
    ensures Housed(homes, cluster, inner + more)
  {
  }

  /** A new cluster, if there is one, in front of the others. */
  ghost predicate InFront(now: seq<Cluster>, before: seq<Cluster>, clustered: bool) {
    if clustered then now != [] && now[1..] == before && now[0] !in before else now == before
  }

  lemma InFrontDistinct(now: seq<Cluster>, before: seq<Cluster>, clustered: bool)
    requires InFront(now, before, clustered) && AllDistinct(before)
    ensures AllDistinct(now)
    ensures forall c :: c in now <==> c in before || (clustered && c == now[0])
  {
    if clustered {
      assert now == [now[0]] + before;
    }
  }

  lemma HousedMore(homes: seq<Cluster?>, cluster: Cluster?, clusters: seq<Cluster>, clusters': seq<Cluster>)
    requires Housed(homes, cluster, clusters) && forall c :: c in clusters ==> c in clusters'
    ensures Housed(homes, cluster, clusters')
  {
  }

  /** The list of one argp's own options. */
  method MakeHol(a: Argp, node: nat, cluster: Cluster?) returns (hol: Hol)
    requires Sound(a) && (cluster != null ==> Rooted(cluster))
    ensures fresh(hol) && hol.clusters == []
    ensures Flat(hol.entries, hol.letters,
                 if a.options.Some? then OwnRows(a.options.value, 0, 0, node, Keys(cluster)) else [])
    ensures Housed(Homes(hol.entries), cluster, [])
  {
    hide Flat, Keys, Rooted, Scan;
    hol := new Hol();
    FlatNone();
    if a.options.None? {
      return;
    }
    var opts := a.options.value;
    var o, group := 0, 0;
    ghost var rows, path := [], Keys(cluster);
    while o < |opts|
      invariant o <= |opts| && (o < |opts| ==> !opts[o].alias)
      invariant rows + OwnRows(opts, o, group, node, path) == OwnRows(opts, 0, 0, node, path)
      invariant Flat(hol.entries, hol.letters, rows) && hol.clusters == []
      invariant Housed(Homes(hol.entries), cluster, [])
    {
      ghost var before, done := group, rows;
      var first, so := o, |hol.letters|;
      group := if opts[o].group != 0 then opts[o].group
               else if opts[o].name.None? && opts[o].key == 0 then group + 1 else group;
      var letters;
      o, letters := TakeRun(opts, first, hol.letters);
      ghost var r := Row(node, opts[first..o], group, path);
      OwnRowsNext(done, opts, first, before, node, path);
      rows := done + [r];
      var e := Entry(node, opts[first..o], so, group, cluster);
      FlatSnoc(hol.entries, hol.letters, done, e, r);
      HomesConcat(hol.entries, [e]);
      HousedConcat(Homes(hol.entries), Homes([e]), cluster, []);
      hol.entries, hol.letters := hol.entries + [e], letters;
    }
    assert rows + [] == rows;
  }

  lemma OwnRowsNext(done: seq<Row>, opts: seq<Opt>, i: nat, current: int, node: nat, path: seq<(int, int)>)
    requires i < |opts|
    ensures var j := RunEnd(opts, i + 1); var g := GroupOf(opts[i], current);
      done + OwnRows(opts, i, current, node, path)
        == done + [Row(node, opts[i..j], g, path)] + OwnRows(opts, j, g, node, path)
  {
  }

  /** An option and its aliases, with the letters not used before. */
  method TakeRun(opts: seq<Opt>, first: nat, letters0: seq<int>) returns (o: nat, letters: seq<int>)
    requires first < |opts|
    ensures o == RunEnd(opts, first + 1)
    ensures letters == Scan(letters0, opts[first..o], o - first)
  {
    ghost var end := RunEnd(opts, first + 1);
    ghost var run := opts[first..end];
    o, letters := first, letters0;
    var more := true;
    while more
      invariant first <= o <= end && (more <==> o < end)
      invariant letters == Scan(letters0, run, o - first)
      decreases end - o
    {
      assert opts[o] == run[o - first];
      if IsShort(opts[o]) && opts[o].key !in letters {
        letters := letters + [opts[o].key];
      }
      o := o + 1;
      more := o < |opts| && opts[o].alias;
    }
  }

  // ----- Appending

  /** The letter at `i`, or the terminator. */
  function Peek(letters: seq<int>, i: nat): int {
    if i < |letters| then letters[i] else 0
  }

  /** Against the next letter alone one can tell whether an option owns its letter. */
  lemma NextLetterTells(letters: seq<int>, seen: seq<int>, opts: seq<Opt>, n: nat)
    requires n < |opts| && Scan(seen, opts, n + 1) <= letters && Distinct(letters)
    ensures var s := Scan(seen, opts, n);
      s <= letters && (IsShort(opts[n]) && Peek(letters, |s|) == opts[n].key <==> IsShort(opts[n]) && opts[n].key !in s)
  {
    var s, s' := Scan(seen, opts, n), Scan(seen, opts, n + 1);
    assert s <= s';
    if IsShort(opts[n]) {
      if opts[n].key !in s {
        assert letters[|s|] == s'[|s|] == opts[n].key;
      } else {
        var i :| 0 <= i < |s| && s[i] == opts[n].key;
        assert letters[i] == opts[n].key;
      }
    }
  }

  /** `s` holds the letters of `a` and those of `b`. */
  ghost predicate Together(s: seq<int>, a: seq<int>, b: seq<int>) {
    forall k :: k in s <==> k in a || k in b
  }

  /** Add one entry's letters to `letters0`, passing over them in `more` from `at0` on. */
  method MergeEntry(hol: seq<int>, letters0: seq<int>, more: seq<int>, at0: nat, opts: seq<Opt>, ghost seen: seq<int>)
    returns (letters: seq<int>, at: nat)
    requires Distinct(more) && Scan(seen, opts, |opts|) <= more && at0 == |seen|
    requires Together(letters0, hol, seen)
    ensures letters == Scan(letters0, opts, |opts|) && at == |Scan(seen, opts, |opts|)|
    ensures Together(letters, hol, Scan(seen, opts, |opts|))
  {
    hide Distinct, Peek, IsShort;
    letters, at := letters0, at0;
    for i := 0 to |opts|
      invariant letters == Scan(letters0, opts, i) && at == |Scan(seen, opts, i)|
      invariant Together(letters, hol, Scan(seen, opts, i))
    {
      ScanFurther(seen, opts, i + 1, |opts|);
      NextLetterTells(more, seen, opts, i);
      var ch := Peek(more, at);
      if IsShort(opts[i]) && ch == opts[i].key {
        if ch !in hol {
          letters := letters + [ch];
        }
        at := at + 1;
      }
    }
  }

  /** Append `more` to `hol`; letters in `hol` shadow those in `more`. */
  method Append(hol: Hol, more: Hol, ghost rows: seq<Row>, ghost moreRows: seq<Row>)
    requires hol != more
    requires Flat(hol.entries, hol.letters, rows) && Flat(more.entries, more.letters, moreRows)
    modifies hol, more
    ensures Flat(hol.entries, hol.letters, rows + moreRows)
    ensures hol.clusters == old(hol.clusters) + old(more.clusters)
    ensures Homes(hol.entries) == Homes(old(hol.entries)) + Homes(old(more.entries))
  {
    hol.clusters := hol.clusters + more.clusters;
    more.clusters := [];
    if |more.entries| > 0 {
      if |hol.entries| == 0 {
        hol.entries, hol.letters := more.entries, more.letters;
        more.entries := [];
        assert rows + moreRows == moreRows;
      } else {
        hol.entries, hol.letters := Merge(hol.entries, hol.letters, more.entries, more.letters, rows, moreRows);
      }
    } else {
      assert rows + moreRows == rows;
    }
  }

  method Merge(entries0: seq<Entry>, hol: seq<int>, moreEntries: seq<Entry>, more: seq<int>,
               ghost rows: seq<Row>, ghost moreRows: seq<Row>)
    returns (entries: seq<Entry>, letters: seq<int>)
    requires Flat(entries0, hol, rows) && Flat(moreEntries, more, moreRows)
    ensures Flat(entries, letters, rows + moreRows)
    ensures Homes(entries) == Homes(entries0) + Homes(moreEntries)
  {
    entries, letters := entries0, hol;
    var at := 0;
    RowsDistinct([], moreRows, |moreRows|);
    assert rows + moreRows[..0] == rows;
    for i := 0 to |moreEntries|
      invariant at == |ScanRows([], moreRows, i)| && Together(letters, hol, ScanRows([], moreRows, i))
      invariant Flat(entries, letters, rows + moreRows[..i])
      invariant Homes(entries) == Homes(entries0) + Homes(moreEntries)[..i]
    {
      RowsFurther([], moreRows, i + 1, |moreRows|);
      var e := moreEntries[i].(so := |letters|);
      FlatSnoc(entries, letters, rows + moreRows[..i], e, moreRows[i]);
      assert rows + moreRows[..i] + [moreRows[i]] == rows + moreRows[..i + 1];
      HomesConcat(entries, [e]);
      assert Homes(moreEntries)[..i] + Homes([e]) == Homes(moreEntries)[..i + 1];
      ConcatHomes(Homes(entries0), Homes(moreEntries)[..i], Homes([e]));
      entries := entries + [e];
      letters, at := MergeEntry(hol, letters, more, at, e.opts, ScanRows([], moreRows, i));
    }
    assert moreRows[..|moreRows|] == moreRows;
  }

  lemma ConcatHomes(a: seq<Cluster?>, b: seq<Cluster?>, c: seq<Cluster?>)
    ensures a + b + c == a + (b + c)
  {
  }

  /** The list of a whole tree. */
  method ArgpHol(a: Argp, node: nat, cluster: Cluster?) returns (hol: Hol, next: nat)
    requires Sound(a) && (cluster != null ==> Rooted(cluster))
    ensures fresh(hol) && next == node + |Preorder(a)|
    ensures Flat(hol.entries, hol.letters, TreeRows(a, node, Keys(cluster)))
    ensures |hol.clusters| == ClusterCount(PreorderOf(a.children, |a.children|))
    ensures AllDistinct(hol.clusters) && forall c :: c in hol.clusters ==> fresh(c)
    ensures Housed(Homes(hol.entries), cluster, hol.clusters)
    decreases a, 0
  {
    hide Flat, Keys, Rooted, OwnRows, TreeRows, ChildRows, PreorderOf, Preorder, ChildPath;
    ghost var cs, path := a.children, Keys(cluster);
    ghost var own := if a.options.Some? then OwnRows(a.options.value, 0, 0, node, path) else [];
    RowsInOrder(a, node, path);
    hol := MakeHol(a, node, cluster);
    next := node + 1;
    for i := 0 to |a.children|
      invariant fresh(hol) && next == node + 1 + |PreorderOf(cs, i)|
      invariant Flat(hol.entries, hol.letters, own + ChildRows(cs, i, node + 1, path))
      invariant |hol.clusters| == ClusterCount(PreorderOf(cs, i))
      invariant AllDistinct(hol.clusters) && forall c :: c in hol.clusters ==> fresh(c)
      invariant Housed(Homes(hol.entries), cluster, hol.clusters)
    {
      NextRows(own, cs, i, node + 1, path);
      ghost var rows := ChildRows(cs, i, node + 1, path);
      ghost var moreRows := TreeRows(cs[i], next, ChildPath(cs[i], i, path));
      ghost var before, homes := hol.clusters, Homes(hol.entries);
      var more;
      more, next := ChildHol(hol, a.children[i], i, next, cluster);
      ghost var inner, homes' := hol.clusters, Homes(more.entries);
      assert InFront(inner, before, Clustered(cs[i]));
      InFrontDistinct(inner, before, Clustered(cs[i]));
      DistinctConcat(inner, more.clusters);
      HousedMore(homes, cluster, before, inner + more.clusters);
      ChildHoused(homes', cluster, inner, more.clusters, Clustered(cs[i]));
      HousedConcat(homes, homes', cluster, inner + more.clusters);
      Append(hol, more, own + rows, moreRows);
      ClusterCountNext(cs, i);
    }
  }

  /** The rows of a tree are its own, and then those of its children. */
  lemma RowsInOrder(a: Argp, node: nat, path: seq<(int, int)>)
    ensures var own := if a.options.Some? then OwnRows(a.options.value, 0, 0, node, path) else [];
      && own + ChildRows(a.children, 0, node + 1, path) == own && |PreorderOf(a.children, 0)| == 0
      && TreeRows(a, node, path) == own + ChildRows(a.children, |a.children|, node + 1, path)
      && |Preorder(a)| == 1 + |PreorderOf(a.children, |a.children|)|
  {
  }

  lemma NextRows(own: seq<Row>, cs: seq<Argp>, i: nat, node: nat, path: seq<(int, int)>)
    requires i < |cs|
    ensures |PreorderOf(cs, i + 1)| == |PreorderOf(cs, i)| + |Preorder(cs[i])|
    ensures own + ChildRows(cs, i + 1, node, path)
      == own + ChildRows(cs, i, node, path) + TreeRows(cs[i], node + |PreorderOf(cs, i)|, ChildPath(cs[i], i, path))
  {
    hide TreeRows, Preorder, ChildPath;
    RowsAssociate(own, ChildRows(cs, i, node, path),
      TreeRows(cs[i], node + |PreorderOf(cs, i)|, ChildPath(cs[i], i, path)));
  }

  lemma RowsAssociate(a: seq<Row>, b: seq<Row>, c: seq<Row>)
    ensures a + b + c == a + (b + c)
  {
  }

  /** A child that gets a cluster of its own. */
  predicate Clustered(c: Argp) {
    c.group != 0 || c.header.Some?
  }

  /** `cl` is the cluster of child number `i` within `parent`. */
  ghost predicate ClusterOf(cl: Cluster, c: Argp, i: nat, parent: Cluster?) {
    cl.group == c.group && cl.header == c.header.Some? && cl.index == i && cl.parent == parent && Rooted(cl)
  }

  /**
   The list of a child, in a cluster of its own if the child is grouped or has a header. The new cluster goes to
   the front of the parent's clusters; without one they stay as they are.
   */
  method ChildHol(hol: Hol, c: Argp, i: nat, node: nat, cluster: Cluster?) returns (more: Hol, next: nat)
    requires Sound(c) && (cluster != null ==> Rooted(cluster))
    modifies hol`clusters
    ensures fresh(more) && next == node + |Preorder(c)|
    ensures Flat(more.entries, more.letters, TreeRows(c, node, ChildPath(c, i, Keys(cluster))))
    ensures !Clustered(c) ==> hol.clusters == old(hol.clusters)
    ensures Clustered(c) ==>
      && hol.clusters != [] && hol.clusters[1..] == old(hol.clusters)
      && fresh(hol.clusters[0]) && ClusterOf(hol.clusters[0], c, i, cluster)
    ensures |more.clusters| == ClusterCount(PreorderOf(c.children, |c.children|)) && AllDistinct(more.clusters)
    ensures forall cl :: cl in more.clusters ==> fresh(cl) && cl !in hol.clusters
    ensures Housed(Homes(more.entries), if Clustered(c) then hol.clusters[0] else cluster, more.clusters)
    decreases c, 1
  {
    var inner := cluster;
    if c.group != 0 || c.header.Some? {
      inner := new Cluster(c.group, c.header.Some?, i, cluster);
      hol.clusters := [inner] + hol.clusters;
    }
    more, next := ArgpHol(c, node, inner);
  }

  // ----- What the letters mean

  lemma {:induction false} InScan(seen: seq<int>, opts: seq<Opt>, n: nat, key: int)
    requires n <= |opts|
    ensures key in Scan(seen, opts, n) <==> key in seen || Offers(opts[..n], key)
  {
    if n > 0 {
      InScan(seen, opts, n - 1, key);
      assert opts[..n] == opts[..n - 1] + [opts[n - 1]];
      if Offers(opts[..n - 1], key) {
        var i :| 0 <= i < n - 1 && IsShort(opts[..n - 1][i]) && opts[..n - 1][i].key == key;
        assert opts[..n][i] == opts[..n - 1][i];
      }
      if IsShort(opts[n - 1]) && opts[n - 1].key == key {
        assert opts[..n][n - 1] == opts[n - 1];
      }
      if Offers(opts[..n], key) {
        var i :| 0 <= i < n && IsShort(opts[..n][i]) && opts[..n][i].key == key;
        assert i < n - 1 ==> opts[..n - 1][i] == opts[..n][i];
      }
    }
  }

  lemma {:induction false} InScanRows(rows: seq<Row>, n: nat, key: int)
    requires n <= |rows|
    ensures key in ScanRows([], rows, n) <==> exists e :: 0 <= e < n && Offers(rows[e].opts, key)
  {
    if n > 0 {
      InScanRows(rows, n - 1, key);
      var last := rows[n - 1].opts;
      InScan(ScanRows([], rows, n - 1), last, |last|, key);
      assert last[..|last|] == last;
    }
  }

  /** Option `j` of row `e` has its letter in the shared string. */
  predicate Owns(rows: seq<Row>, e: nat, j: nat)
    requires e < |rows| && j < |rows[e].opts|
  {
    var o := rows[e].opts[j];
    IsShort(o) && o.key !in Scan(ScanRows([], rows, e), rows[e].opts, j)
  }

  /** The letters are those of all the options, each once, and an option owns its letter exactly
      if no earlier option offers it. */
  lemma LettersAreFirstOccurrences(rows: seq<Row>, e: nat, j: nat)
    requires e < |rows| && j < |rows[e].opts|
    ensures Distinct(ScanRows([], rows, |rows|))
    ensures forall key ::
      key in ScanRows([], rows, |rows|) <==> exists d :: 0 <= d < |rows| && Offers(rows[d].opts, key)
    ensures var o := rows[e].opts[j];
      Owns(rows, e, j) <==> IsShort(o) && !Offers(rows[e].opts[..j], o.key)
                            && forall d :: 0 <= d < e ==> !Offers(rows[d].opts, o.key)
  {
    RowsDistinct([], rows, |rows|);
    forall key ensures key in ScanRows([], rows, |rows|) <==> exists d :: 0 <= d < |rows| && Offers(rows[d].opts, key) {
      InScanRows(rows, |rows|, key);
    }
    var key := rows[e].opts[j].key;
    InScanRows(rows, e, key);
    InScan(ScanRows([], rows, e), rows[e].opts, j, key);
  }

  /** The visible options of row `e` among the first `n` that own their letters. */
  function OwnedVisible(rows: seq<Row>, e: nat, n: nat): seq<nat>
    requires e < |rows| && n <= |rows[e].opts|
  {
    if n == 0 then [] else
    OwnedVisible(rows, e, n - 1) + if Owns(rows, e, n - 1) && !rows[e].opts[n - 1].hidden then [n - 1] else []
  }

  /** They are visited in order, and they are the options that are not hidden and whose letters no earlier option
      offers. */
  lemma {:induction false} VisitedIff(rows: seq<Row>, e: nat, n: nat, j: nat)
    requires e < |rows| && n <= |rows[e].opts|
    ensures var visited := OwnedVisible(rows, e, n);
      && (forall i, k :: 0 <= i < k < |visited| ==> visited[i] < visited[k] < n)
      && (forall i :: 0 <= i < |visited| ==> visited[i] < n)
      && (j in visited <==> j < n && !rows[e].opts[j].hidden && FirstOffer(rows, e, j))
  {
    hide Owns, IsShort, Offers, FirstOffer;
    if n > 0 {
      VisitedIff(rows, e, n - 1, j);
      OwnsFirst(rows, e, n - 1);
    }
  }

  /** Option `j` of row `e` is the first of all that offers its letter. */
  ghost predicate FirstOffer(rows: seq<Row>, e: nat, j: nat)
    requires e < |rows| && j < |rows[e].opts|
  {
    var o := rows[e].opts[j];
    && IsShort(o) && !Offers(rows[e].opts[..j], o.key)
    && forall d :: 0 <= d < e ==> !Offers(rows[d].opts, o.key)
  }

  lemma OwnsFirst(rows: seq<Row>, e: nat, j: nat)
    requires e < |rows| && j < |rows[e].opts|
    ensures Owns(rows, e, j) <==> FirstOffer(rows, e, j)
  {
    LettersAreFirstOccurrences(rows, e, j);
  }

  /** Walk an entry's letters, calling back for each visible option with the option it is an alias
      of. Whatever the order of entries, the options visited are those that own their letters. */
  method ShortIterate(entry: Entry, letters: seq<int>, ghost rows: seq<Row>, ghost e: nat)
    returns (visited: seq<nat>, reals: seq<nat>)
    requires e < |rows| && letters == ScanRows([], rows, |rows|) && Placed(entry, rows, e)
    requires forall j :: 0 < j < |entry.opts| ==> entry.opts[j].alias
    ensures visited == OwnedVisible(rows, e, |entry.opts|)
    ensures |reals| == |visited| && forall i :: 0 <= i < |reals| ==> reals[i] == 0
  {
    hide Peek, IsShort, Owns, Scan, ScanRows;
    visited, reals := [], [];
    var actual, so := 0, entry.so;
    ghost var seen := ScanRows([], rows, e);
    NoneScanned(seen, entry.opts);
    for j := 0 to |entry.opts|
      invariant so == |Scan(seen, entry.opts, j)| && actual == 0
      invariant visited == OwnedVisible(rows, e, j)
      invariant |reals| == |visited| && forall i :: 0 <= i < |reals| ==> reals[i] == 0
    {
      LetterTells(rows, e, j);
      if IsShort(entry.opts[j]) && Peek(letters, so) == entry.opts[j].key {
        if !entry.opts[j].alias {
          actual := j;
        }
        if !entry.opts[j].hidden {
          visited, reals := visited + [j], reals + [actual];
        }
        so := so + 1;
      }
    }
  }

  lemma NoneScanned(seen: seq<int>, opts: seq<Opt>)
    ensures |seen| == |Scan(seen, opts, 0)|
  {
  }

  /** The test on the next letter tells whether option `j` of row `e` owns its letter, and so which letter is next. */
  lemma LetterTells(rows: seq<Row>, e: nat, j: nat)
    requires e < |rows| && j < |rows[e].opts|
    ensures var seen, opts, letters := ScanRows([], rows, e), rows[e].opts, ScanRows([], rows, |rows|);
      && (IsShort(opts[j]) && Peek(letters, |Scan(seen, opts, j)|) == opts[j].key <==> Owns(rows, e, j))
      && |Scan(seen, opts, j + 1)| == |Scan(seen, opts, j)| + if Owns(rows, e, j) then 1 else 0
  {
    var seen, opts := ScanRows([], rows, e), rows[e].opts;
    RowsDistinct([], rows, |rows|);
    RowsFurther([], rows, e + 1, |rows|);
    ScanFurther(seen, opts, j + 1, |opts|);
    NextLetterTells(ScanRows([], rows, |rows|), seen, opts, j);
  }

  // ----- Rows and the tree

  /** `rows` are made of the options of `nodes`, numbered from `base`, in order. */
  ghost predicate RowsOf(rows: seq<Row>, nodes: seq<Argp>, base: nat) {
    && (forall i :: 0 <= i < |rows| ==> base <= rows[i].node < base + |nodes| && OneOption(rows[i]))
    && (forall i, j :: 0 <= i < j < |rows| ==> rows[i].node <= rows[j].node)
    && (forall k :: 0 <= k < |nodes| ==> MadeOf(rows, base + k, nodes[k]))
  }

  /** An option and its aliases. */
  predicate OneOption(r: Row) {
    r.opts != [] && forall j :: 0 < j < |r.opts| ==> r.opts[j].alias
  }

  /** The rows numbered `node` offer the letters of `a`. */
  ghost predicate MadeOf(rows: seq<Row>, node: nat, a: Argp) {
    forall key :: Defines(a, key) <==> exists i :: 0 <= i < |rows| && RowDefines(rows[i], node, key)
  }

  predicate RowDefines(r: Row, node: nat, key: int) {
    r.node == node && Offers(r.opts, key)
  }

  lemma {:induction false} OwnRowsShape(opts: seq<Opt>, i: nat, current: int, node: nat, path: seq<(int, int)>)
    requires i <= |opts|
    ensures forall r :: r in OwnRows(opts, i, current, node, path) ==> r.node == node && OneOption(r)
    decreases |opts| - i
  {
    if i < |opts| {
      var j := RunEnd(opts, i + 1);
      OwnRowsShape(opts, j, GroupOf(opts[i], current), node, path);
      var r := Row(node, opts[i..j], GroupOf(opts[i], current), path);
      assert OneOption(r) by {
        assert forall k :: 0 < k < j - i ==> r.opts[k] == opts[i + k];
      }
    }
  }

  lemma {:induction false} OwnRowsOffer(opts: seq<Opt>, i: nat, current: int, node: nat, path: seq<(int, int)>,
                                        key: int)
    requires i <= |opts|
    ensures var rows := OwnRows(opts, i, current, node, path);
      Offers(opts[i..], key) <==> exists r :: r in rows && Offers(r.opts, key)
    decreases |opts| - i
  {
    if i < |opts| {
      var j := RunEnd(opts, i + 1);
      var g := GroupOf(opts[i], current);
      var r, rest := Row(node, opts[i..j], g, path), OwnRows(opts, j, g, node, path);
      OwnRowsOffer(opts, j, g, node, path, key);
      OffersSplit(opts[i..j], opts[j..], key);
      assert opts[i..] == opts[i..j] + opts[j..];
    }
  }

  lemma OffersSplit(a: seq<Opt>, b: seq<Opt>, key: int)
    ensures Offers(a + b, key) <==> Offers(a, key) || Offers(b, key)
  {
    if i :| 0 <= i < |a| && IsShort(a[i]) && a[i].key == key {
      assert (a + b)[i] == a[i];
    }
    if i :| 0 <= i < |b| && IsShort(b[i]) && b[i].key == key {
      assert (a + b)[|a| + i] == b[i];
    }
    if i :| 0 <= i < |a + b| && IsShort((a + b)[i]) && (a + b)[i].key == key {
      assert if i < |a| then (a + b)[i] == a[i] else (a + b)[i] == b[i - |a|];
    }
  }

  lemma MadeOfPart(before: seq<Row>, rows: seq<Row>, after: seq<Row>, node: nat, a: Argp)
    requires MadeOf(rows, node, a)
    requires forall i :: 0 <= i < |before| ==> before[i].node != node
    requires forall i :: 0 <= i < |after| ==> after[i].node != node
    ensures MadeOf(before + rows + after, node, a)
  {
    var all := before + rows + after;
    forall key ensures Defines(a, key) <==> exists i :: 0 <= i < |all| && RowDefines(all[i], node, key) {
      if i :| 0 <= i < |rows| && RowDefines(rows[i], node, key) {
        assert all[|before| + i] == rows[i];
      }
      if i :| 0 <= i < |all| && RowDefines(all[i], node, key) {
        assert |before| <= i < |before| + |rows| && all[i] == rows[i - |before|];
      }
    }
  }

  lemma RowsOfAppend(rows: seq<Row>, nodes: seq<Argp>, more: seq<Row>, moreNodes: seq<Argp>, base: nat)
    requires RowsOf(rows, nodes, base) && RowsOf(more, moreNodes, base + |nodes|)
    ensures RowsOf(rows + more, nodes + moreNodes, base)
  {
    var all, allNodes := rows + more, nodes + moreNodes;
    forall k | 0 <= k < |allNodes| ensures MadeOf(all, base + k, allNodes[k]) {
      if k < |nodes| {
        MadeOfPart([], rows, more, base + k, nodes[k]);
        assert [] + rows + more == all;
      } else {
        assert MadeOf(more, base + |nodes| + (k - |nodes|), moreNodes[k - |nodes|]);
        MadeOfPart(rows, more, [], base + k, moreNodes[k - |nodes|]);
        assert rows + more + [] == all;
      }
    }
  }

  lemma OwnRowsOf(a: Argp, node: nat, path: seq<(int, int)>)
    ensures RowsOf(if a.options.Some? then OwnRows(a.options.value, 0, 0, node, path) else [], [a], node)
  {
    hide OwnRows, Offers, OneOption;
    var own := if a.options.Some? then OwnRows(a.options.value, 0, 0, node, path) else [];
    if a.options.Some? {
      OwnRowsShape(a.options.value, 0, 0, node, path);
      forall key ensures Defines(a, key) <==> exists i :: 0 <= i < |own| && RowDefines(own[i], node, key) {
        OwnRowsOffer(a.options.value, 0, 0, node, path, key);
        assert a.options.value[0..] == a.options.value;
        if r :| r in own && Offers(r.opts, key) {
          var i :| 0 <= i < |own| && own[i] == r;
          assert RowDefines(own[i], node, key);
        }
      }
    }
    assert MadeOf(own, node, a);
    forall k | 0 <= k < |[a]| ensures MadeOf(own, node + k, [a][k]) {
    }
  }

  /** The list of a tree is flat over its argps in preorder. */
  lemma {:induction false} TreeRowsOf(a: Argp, node: nat, path: seq<(int, int)>)
    ensures RowsOf(TreeRows(a, node, path), Preorder(a), node)
  {
    hide RowsOf;
    var own := if a.options.Some? then OwnRows(a.options.value, 0, 0, node, path) else [];
    OwnRowsOf(a, node, path);
    assert TreeRows(a, node, path) == own + ChildRows(a.children, |a.children|, node + 1, path);
    assert Preorder(a) == [a] + PreorderOf(a.children, |a.children|);
    ChildRowsOf(a.children, |a.children|, node + 1, path);
    RowsOfAppend(own, [a], ChildRows(a.children, |a.children|, node + 1, path), PreorderOf(a.children, |a.children|),
                 node);
  }

  lemma NoRows(node: nat)
    ensures RowsOf([], [], node) && SameOpts([], [])
  {
  }

  lemma {:induction false} ChildRowsOf(cs: seq<Argp>, i: nat, node: nat, path: seq<(int, int)>)
    requires i <= |cs|
    ensures RowsOf(ChildRows(cs, i, node, path), PreorderOf(cs, i), node)
  {
    hide RowsOf, TreeRows, Preorder, ChildPath;
    if i == 0 {
      NoRows(node);
    } else {
      var next := node + |PreorderOf(cs, i - 1)|;
      ChildRowsOf(cs, i - 1, node, path);
      TreeRowsOf(cs[i - 1], next, ChildPath(cs[i - 1], i - 1, path));
      var rows, more := ChildRows(cs, i - 1, node, path), TreeRows(cs[i - 1], next, ChildPath(cs[i - 1], i - 1, path));
      assert ChildRows(cs, i, node, path) == rows + more;
      RowsOfAppend(rows, PreorderOf(cs, i - 1), more, Preorder(cs[i - 1]), node);
    }
  }

  /** The letter of an owning option belongs to the first argp in preorder that defines it. */
  lemma OwnerIsFirstDefiner(a: Argp, e: nat, j: nat)
    requires var rows := TreeRows(a, 0, []); e < |rows| && j < |rows[e].opts| && Owns(rows, e, j)
    ensures var rows := TreeRows(a, 0, []); var nodes := Preorder(a); var key := rows[e].opts[j].key;
      && rows[e].node < |nodes| && Defines(nodes[rows[e].node], key)
      && forall k :: 0 <= k < rows[e].node ==> !Defines(nodes[k], key)
  {
    var rows, nodes := TreeRows(a, 0, []), Preorder(a);
    var key := rows[e].opts[j].key;
    TreeRowsOf(a, 0, []);
    LettersAreFirstOccurrences(rows, e, j);
    assert RowDefines(rows[e], 0 + rows[e].node, key);
    assert MadeOf(rows, 0 + rows[e].node, nodes[rows[e].node]);
    forall i | 0 <= i < |rows| && Offers(rows[i].opts, key) ensures rows[i].node >= rows[e].node {
    }
    forall k | 0 <= k < rows[e].node ensures !Defines(nodes[k], key) {
      assert MadeOf(rows, 0 + k, nodes[k]);
    }
  }

  /** The options of the first `n` rows. */
  function RowOpts(rows: seq<Row>, n: nat): seq<Opt>
    requires n <= |rows|
  {
    if n == 0 then [] else RowOpts(rows, n - 1) + rows[n - 1].opts
  }

  /** The options of the first `n` argps. */
  function NodeOpts(nodes: seq<Argp>, n: nat): seq<Opt>
    requires n <= |nodes|
  {
    if n == 0 then [] else
    NodeOpts(nodes, n - 1) + if nodes[n - 1].options.Some? then nodes[n - 1].options.value else []
  }

  lemma {:induction false} RowOptsAppend(rows: seq<Row>, more: seq<Row>, n: nat)
    requires n <= |more|
    ensures RowOpts(rows + more, |rows| + n) == RowOpts(rows, |rows|) + RowOpts(more, n)
  {
    if n > 0 {
      RowOptsAppend(rows, more, n - 1);
    } else {
      RowOptsPrefix(rows, more, |rows|);
    }
  }

  lemma {:induction false} RowOptsPrefix(rows: seq<Row>, more: seq<Row>, n: nat)
    requires n <= |rows|
    ensures RowOpts(rows + more, n) == RowOpts(rows, n)
  {
    if n > 0 {
      RowOptsPrefix(rows, more, n - 1);
    }
  }

  lemma {:induction false} NodeOptsAppend(nodes: seq<Argp>, more: seq<Argp>, n: nat)
    requires n <= |more|
    ensures NodeOpts(nodes + more, |nodes| + n) == NodeOpts(nodes, |nodes|) + NodeOpts(more, n)
  {
    if n > 0 {
      NodeOptsAppend(nodes, more, n - 1);
    } else {
      NodeOptsPrefix(nodes, more, |nodes|);
    }
  }

  lemma {:induction false} NodeOptsPrefix(nodes: seq<Argp>, more: seq<Argp>, n: nat)
    requires n <= |nodes|
    ensures NodeOpts(nodes + more, n) == NodeOpts(nodes, n)
  {
    if n > 0 {
      NodeOptsPrefix(nodes, more, n - 1);
    }
  }

  lemma RowOptsCons(r: Row, rest: seq<Row>)
    ensures RowOpts([r] + rest, 1 + |rest|) == r.opts + RowOpts(rest, |rest|)
  {
    RowOptsAppend([r], rest, |rest|);
    assert RowOpts([r], 1) == RowOpts([r], 0) + r.opts == r.opts;
  }

  lemma {:induction false} OwnRowsOpts(opts: seq<Opt>, i: nat, current: int, node: nat, path: seq<(int, int)>)
    requires i <= |opts|
    ensures var rows := OwnRows(opts, i, current, node, path); RowOpts(rows, |rows|) == opts[i..]
    decreases |opts| - i
  {
    hide GroupOf, RunEnd;
    if i < |opts| {
      var j, g := RunEnd(opts, i + 1), GroupOf(opts[i], current);
      var r, rest := Row(node, opts[i..j], g, path), OwnRows(opts, j, g, node, path);
      OwnRowsOpts(opts, j, g, node, path);
      RowOptsCons(r, rest);
      assert opts[i..] == opts[i..j] + opts[j..];
    }
  }

  /** The rows hold every option of the nodes, in order. */
  ghost predicate SameOpts(rows: seq<Row>, nodes: seq<Argp>) {
    RowOpts(rows, |rows|) == NodeOpts(nodes, |nodes|)
  }

  lemma SameOptsAppend(rows: seq<Row>, nodes: seq<Argp>, more: seq<Row>, moreNodes: seq<Argp>)
    requires SameOpts(rows, nodes) && SameOpts(more, moreNodes)
    ensures SameOpts(rows + more, nodes + moreNodes)
  {
    RowOptsAppend(rows, more, |more|);
    NodeOptsAppend(nodes, moreNodes, |moreNodes|);
  }

  lemma OwnSameOpts(a: Argp, node: nat, path: seq<(int, int)>)
    ensures SameOpts(if a.options.Some? then OwnRows(a.options.value, 0, 0, node, path) else [], [a])
  {
    if a.options.Some? {
      OwnRowsOpts(a.options.value, 0, 0, node, path);
    }
    assert NodeOpts([a], 1) == NodeOpts([a], 0) + if a.options.Some? then a.options.value else [];
  }

  /** The entries hold every option of the tree, in preorder. */
  lemma {:induction false} TreeRowsOpts(a: Argp, node: nat, path: seq<(int, int)>)
    ensures SameOpts(TreeRows(a, node, path), Preorder(a))
  {
    hide SameOpts;
    var cs, n := a.children, |a.children|;
    var own := if a.options.Some? then OwnRows(a.options.value, 0, 0, node, path) else [];
    OwnSameOpts(a, node, path);
    ChildRowsOpts(cs, n, node + 1, path);
    assert TreeRows(a, node, path) == own + ChildRows(cs, n, node + 1, path) && Preorder(a) == [a] + PreorderOf(cs, n);
    SameOptsAppend(own, [a], ChildRows(cs, n, node + 1, path), PreorderOf(cs, n));
  }

  lemma {:induction false} ChildRowsOpts(cs: seq<Argp>, i: nat, node: nat, path: seq<(int, int)>)
    requires i <= |cs|
    ensures SameOpts(ChildRows(cs, i, node, path), PreorderOf(cs, i))
  {
    hide SameOpts, TreeRows, Preorder, ChildPath;
    if i == 0 {
      NoRows(node);
    } else {
      var nodes, more := PreorderOf(cs, i - 1), Preorder(cs[i - 1]);
      var inner := ChildPath(cs[i - 1], i - 1, path);
      ChildRowsOpts(cs, i - 1, node, path);
      TreeRowsOpts(cs[i - 1], node + |nodes|, inner);
      SameOptsAppend(ChildRows(cs, i - 1, node, path), nodes, TreeRows(cs[i - 1], node + |nodes|, inner), more);
    }
  }

  /** How many of the options from `i` on are not aliases. */
  function NonAliases(opts: seq<Opt>, i: nat): nat
    requires i <= |opts|
    decreases |opts| - i
  {
    if i == |opts| then 0 else (if opts[i].alias then 0 else 1) + NonAliases(opts, i + 1)
  }

  function Shorts(opts: seq<Opt>, n: nat): nat
    requires n <= |opts|
  {
    if n == 0 then 0 else Shorts(opts, n - 1) + if IsShort(opts[n - 1]) then 1 else 0
  }

  lemma {:induction false} SkipAliases(opts: seq<Opt>, i: nat)
    requires i <= |opts|
    ensures NonAliases(opts, i) == NonAliases(opts, RunEnd(opts, i))
    decreases |opts| - i
  {
    if i < |opts| && opts[i].alias {
      SkipAliases(opts, i + 1);
    }
  }

  /** The entries counted beforehand are exactly those built, and the letters fit their upper bound. */
  lemma {:induction false} ListFits(opts: seq<Opt>, i: nat, current: int, node: nat, path: seq<(int, int)>, n: nat)
    requires i <= |opts| && n <= |opts| && (i < |opts| ==> !opts[i].alias)
    ensures |OwnRows(opts, i, current, node, path)| == NonAliases(opts, i)
    ensures |Scan([], opts, n)| <= Shorts(opts, n)
    decreases n + |opts| - i
  {
    if i < |opts| {
      SkipAliases(opts, i + 1);
      ListFits(opts, RunEnd(opts, i + 1), GroupOf(opts[i], current), node, path, n);
    } else if n > 0 {
      ListFits(opts, i, current, node, path, n - 1);
    }
  }
}
