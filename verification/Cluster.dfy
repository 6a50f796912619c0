/**
 Clusters of help entries and the order in which argp-help prints them.
 */
module Cluster {

  class Cluster {
    const group: int
    const index: int
    const header: bool
    const parent: Cluster?
    const depth: nat

    constructor (group: int, header: bool, index: int, parent: Cluster?)
      requires parent == null || Rooted(parent)
      ensures this.group == group && this.index == index && this.header == header && this.parent == parent
      ensures Rooted(this)
    {
      this.group, this.index, this.header, this.parent := group, index, header, parent;
      this.depth := if parent == null then 0 else parent.depth + 1;
    }
  }

  /** Depths count the way up to a cluster without parent. */
  predicate Rooted(c: Cluster)
    decreases c.depth
  {
    if c.parent == null then c.depth == 0
    else c.depth == c.parent.depth + 1 && Rooted(c.parent)
  }

  /** From the root down to `c`. */
  function RootPath(c: Cluster): (path: seq<Cluster>)
    requires Rooted(c)
    ensures |path| == c.depth + 1 && path[c.depth] == c
    ensures c.parent != null ==> path[..c.depth] == RootPath(c.parent)
    decreases c.depth
  {
    if c.parent == null then [c] else RootPath(c.parent) + [c]
  }

  /** Groups print in the order 0, 1, ..., n, -m, ..., -1. */
  predicate GroupBefore(g1: int, g2: int) {
    if g1 >= 0 && g2 < 0 then true
    else if g1 < 0 && g2 >= 0 then false
    else g1 < g2
  }

  function GroupCmp(g1: int, g2: int, eq: int): (r: int)
    ensures g1 == g2 ==> r == eq
    ensures g1 != g2 ==> r != 0 && (r < 0 <==> GroupBefore(g1, g2))
  {
    if g1 == g2 then eq
    else if (g1 < 0 && g2 < 0) || (g1 >= 0 && g2 >= 0) then g1 - g2
    else g2 - g1
  }

  /** Siblings: by group, and within a group the later child first. */
  predicate Before(x: Cluster, y: Cluster) {
    GroupBefore(x.group, y.group) || (x.group == y.group && x.index > y.index)
  }

  predicate SameKey(x: Cluster, y: Cluster) {
    x.group == y.group && x.index == y.index
  }

  function SiblingCmp(x: Cluster, y: Cluster): (r: int)
    ensures r < 0 <==> Before(x, y)
    ensures r > 0 <==> Before(y, x)
    ensures r == 0 <==> SameKey(x, y)
  {
    GroupCmp(x.group, y.group, y.index - x.index)
  }

  /** Written out: groups from 0 up come first, then the negative ones up to -1; and within a group the later child. */
  lemma SiblingOrder(x: Cluster, y: Cluster)
    ensures SiblingCmp(x, y) < 0 <==>
      || (x.group >= 0 && y.group < 0)
      || ((x.group >= 0 <==> y.group >= 0) && (x.group < y.group || (x.group == y.group && x.index > y.index)))
    ensures SiblingCmp(x, y) == 0 <==> x.group == y.group && x.index == y.index
  {
  }

  /** Lexicographic comparison of root paths from level `i` on; a prefix compares equal. */
  function Lex(p: seq<Cluster>, q: seq<Cluster>, i: nat): int
    decreases |p| - i
  {
    if i >= |p| || i >= |q| then 0
    else if p[i] != q[i] then SiblingCmp(p[i], q[i])
    else Lex(p, q, i + 1)
  }

  /** `cl` is on the path `p`. */
  ghost predicate On(cl: Cluster, p: seq<Cluster>) {
    Rooted(cl) && cl.depth < |p| && RootPath(cl) == p[..cl.depth + 1]
  }

  lemma ParentOn(cl: Cluster, p: seq<Cluster>)
    requires On(cl, p)
    ensures p[cl.depth] == cl
    ensures cl.parent == null ==> cl.depth == 0
    ensures cl.parent != null ==> On(cl.parent, p) && cl.parent.depth + 1 == cl.depth
    ensures cl.parent != null ==> p[..cl.depth] == RootPath(cl.parent)
  {
    assert p[..cl.depth + 1][cl.depth] == p[cl.depth];
    assert p[..cl.depth + 1][..cl.depth] == p[..cl.depth];
  }

  lemma Meet(x: Cluster, y: Cluster, p: seq<Cluster>, q: seq<Cluster>)
    requires On(x, p) && On(y, q) && x.parent == y.parent
    requires x == y ==> |p| == x.depth + 1 || |q| == x.depth + 1
    ensures Lex(p, q, 0) == SiblingCmp(x, y)
  {
    ParentOn(x, p);
    ParentOn(y, q);
    assert x.depth == y.depth && p[..x.depth] == q[..x.depth];
    LexSkip(p, q, 0, x.depth);
  }

  /** Climb from both clusters until their parents agree, then compare. */
  method ClusterCmp(c1: Cluster, c2: Cluster) returns (r: int)
    requires Rooted(c1) && Rooted(c2)
    ensures r == Lex(RootPath(c1), RootPath(c2), 0)
  {
    ghost var p, q := RootPath(c1), RootPath(c2);
    assert p[..|p|] == p && q[..|q|] == q;
    var cl1: Cluster, cl2: Cluster := c1, c2;
    while cl1.depth > cl2.depth
      invariant On(cl1, p) && (cl1 == c1 || cl1.depth >= cl2.depth)
      decreases cl1.depth
    {
      ParentOn(cl1, p);
      cl1 := cl1.parent;
    }
    while cl2.depth > cl1.depth
      invariant On(cl2, q) && cl2.depth >= cl1.depth
      decreases cl2.depth
    {
      ParentOn(cl2, q);
      cl2 := cl2.parent;
    }
    while cl1.parent != cl2.parent
      invariant On(cl1, p) && On(cl2, q) && cl1.depth == cl2.depth
      invariant cl1 == cl2 ==> |p| == cl1.depth + 1 || |q| == cl1.depth + 1
      decreases cl1.depth
    {
      ParentOn(cl1, p);
      ParentOn(cl2, q);
      cl1, cl2 := cl1.parent, cl2.parent;
    }
    Meet(cl1, cl2, p, q);
    r := GroupCmp(cl1.group, cl2.group, cl2.index - cl1.index);
  }

  lemma {:induction false} LexSkip(p: seq<Cluster>, q: seq<Cluster>, i: nat, j: nat)
    requires i <= j <= |p| && j <= |q| && p[..j] == q[..j]
    ensures Lex(p, q, i) == Lex(p, q, j)
    decreases j - i
  {
    if i < j {
      assert p[i] == p[..j][i] == q[..j][i] == q[i];
      LexSkip(p, q, i + 1, j);
    }
  }

  /** The first level from `i` on at which the paths part, or the end of one of them. */
  function Fork(p: seq<Cluster>, q: seq<Cluster>, i: nat): (f: nat)
    requires i <= |p| && i <= |q| && p[..i] == q[..i]
    ensures i <= f <= |p| && f <= |q| && p[..f] == q[..f]
    ensures f < |p| && f < |q| ==> p[f] != q[f]
    ensures Lex(p, q, i) == if f < |p| && f < |q| then SiblingCmp(p[f], q[f]) else 0
    decreases |p| - i
  {
    if i == |p| || i == |q| || p[i] != q[i] then i else
    assert p[..i + 1] == p[..i] + [p[i]] && q[..i + 1] == q[..i] + [q[i]];
    Fork(p, q, i + 1)
  }

  ghost predicate Ancestor(c: Cluster, d: Cluster)
    requires Rooted(c) && Rooted(d)
  {
    RootPath(c) <= RootPath(d)
  }

  lemma {:induction false} PathParent(c: Cluster, i: nat)
    requires Rooted(c) && i <= c.depth
    ensures var x := RootPath(c)[i];
      Rooted(x) && x.depth == i && RootPath(x) == RootPath(c)[..i + 1]
      && x.parent == if i == 0 then null else RootPath(c)[i - 1]
    decreases c.depth
  {
    var path := RootPath(c);
    if i < c.depth {
      PathParent(c.parent, i);
      assert path[..c.depth][i] == path[i] && path[..c.depth][..i + 1] == path[..i + 1];
      assert i > 0 ==> path[..c.depth][i - 1] == path[i - 1];
    } else {
      assert path[..i + 1] == path;
      if c.parent != null {
        assert path[i - 1] == path[..i][i - 1] == RootPath(c.parent)[i - 1];
      }
    }
  }

  /** Unrelated clusters are compared as the two children of their lowest common ancestor; related
      ones compare equal. */
  lemma ComparesForkChildren(c: Cluster, d: Cluster)
    requires Rooted(c) && Rooted(d)
    ensures Ancestor(c, d) || Ancestor(d, c) ==> Lex(RootPath(c), RootPath(d), 0) == 0
    ensures !Ancestor(c, d) && !Ancestor(d, c) ==>
      exists x: Cluster, y: Cluster :: ForkChildren(c, d, x, y)
        && Lex(RootPath(c), RootPath(d), 0) == SiblingCmp(x, y)
  {
    var p, q := RootPath(c), RootPath(d);
    var f := Fork(p, q, 0);
    if f < |p| && f < |q| {
      PathParent(c, f);
      PathParent(d, f);
      assert f > 0 ==> p[f - 1] == p[..f][f - 1] == q[..f][f - 1] == q[f - 1];
      assert ForkChildren(c, d, p[f], q[f]);
      assert !(p <= q) && !(q <= p);
    } else if f == |p| {
      assert p[..f] == p && p <= q;
    } else {
      assert q[..f] == q && q <= p;
    }
  }

  /** Different siblings `x` and `y` above or at `c` and `d`. */
  ghost predicate ForkChildren(c: Cluster, d: Cluster, x: Cluster, y: Cluster)
    requires Rooted(c) && Rooted(d)
  {
    && Rooted(x) && Rooted(y) && Ancestor(x, c) && Ancestor(y, d)
    && x.parent == y.parent && x != y
  }

  lemma {:induction false} LexAntisymmetric(p: seq<Cluster>, q: seq<Cluster>, i: nat)
    ensures Lex(q, p, i) == -Lex(p, q, i)
    decreases |p| - i
  {
    if i < |p| && i < |q| && p[i] == q[i] {
      LexAntisymmetric(p, q, i + 1);
    }
  }

  lemma {:induction false} LexTransitive(p: seq<Cluster>, q: seq<Cluster>, r: seq<Cluster>, i: nat)
    requires Lex(p, q, i) < 0 && Lex(q, r, i) < 0
    ensures Lex(p, r, i) < 0
    decreases |p| - i
  {
    if i < |p| && i < |q| && i < |r| && p[i] == q[i] == r[i] {
      LexTransitive(p, q, r, i + 1);
    }
  }

  /** On any set of clusters pairwise unrelated by ancestry, whose siblings' keys differ, the
      comparison is a strict total order. */
  lemma StrictTotalOrder(c: Cluster, d: Cluster, e: Cluster)
    requires Rooted(c) && Rooted(d) && Rooted(e)
    ensures Lex(RootPath(c), RootPath(d), 0) == -Lex(RootPath(d), RootPath(c), 0)
    ensures Lex(RootPath(c), RootPath(d), 0) < 0 && Lex(RootPath(d), RootPath(e), 0) < 0 ==>
      Lex(RootPath(c), RootPath(e), 0) < 0
    ensures Lex(RootPath(c), RootPath(d), 0) == 0 <==>
      Ancestor(c, d) || Ancestor(d, c) || exists x: Cluster, y: Cluster :: ForkChildren(c, d, x, y) && SameKey(x, y)
  {
    var p, q, r := RootPath(c), RootPath(d), RootPath(e);
    LexAntisymmetric(p, q, 0);
    if Lex(p, q, 0) < 0 && Lex(q, r, 0) < 0 {
      LexTransitive(p, q, r, 0);
    }
    ComparesForkChildren(c, d);
    forall x: Cluster, y: Cluster | ForkChildren(c, d, x, y) && SameKey(x, y)
      ensures Lex(p, q, 0) == 0
    {
      ForkUnique(c, d, x, y);
    }
  }

  lemma ForkUnique(c: Cluster, d: Cluster, x: Cluster, y: Cluster)
    requires Rooted(c) && Rooted(d) && ForkChildren(c, d, x, y)
    ensures Lex(RootPath(c), RootPath(d), 0) == SiblingCmp(x, y)
  {
    var p, q, n := RootPath(c), RootPath(d), x.depth;
    assert x.depth == y.depth && RootPath(x)[..n] == RootPath(y)[..n];
    assert p[n] == RootPath(x)[n] == x && q[n] == RootPath(y)[n] == y;
    assert p[..n] == RootPath(x)[..n] && q[..n] == RootPath(y)[..n];
    LexSkip(p, q, 0, n);
  }

  /** Ties are not transitive: a cluster ties with each of two children that are ordered. */
  lemma ParentTiesWithChildren(p: Cluster, a: Cluster, b: Cluster)
    requires Rooted(p) && Rooted(a) && Rooted(b) && a.parent == p == b.parent && Before(a, b)
    ensures Lex(RootPath(a), RootPath(p), 0) == 0 == Lex(RootPath(p), RootPath(b), 0)
    ensures Lex(RootPath(a), RootPath(b), 0) < 0
  {
    assert Ancestor(p, a) && Ancestor(p, b) && Ancestor(a, a) && Ancestor(b, b);
    ComparesForkChildren(a, p);
    ComparesForkChildren(p, b);
    assert ForkChildren(a, b, a, b);
    ForkUnique(a, b, a, b);
  }
}
