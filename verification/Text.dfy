/**
 Characters and the scans that line wrapping performs on them.
 */
module Text {

  predicate IsBlank(c: char) {
    c == ' ' || c == '\t'
  }

  /** Ink is what wrapping must never touch: everything but blanks and newlines. */
  predicate IsInk(c: char) {
    !IsBlank(c) && c != '\n'
  }

  function Ink(s: string): string {
    if s == "" then "" else (if IsInk(s[0]) then [s[0]] else "") + Ink(s[1..])
  }

  /** The text without its blanks. */
  function Strip(s: string): string {
    if s == "" then "" else (if IsBlank(s[0]) then "" else [s[0]]) + Strip(s[1..])
  }

  /** The same characters, except that blanks may stand elsewhere. */
  ghost predicate SameUpToBlanks(s: string, t: string) {
    |s| == |t| && Strip(s) == Strip(t)
  }

  function Spaces(n: nat): (s: string)
    ensures |s| == n
    ensures forall i :: 0 <= i < n ==> s[i] == ' '
  {
    seq(n, _ => ' ')
  }

  lemma ConcatAssociates(a: string, b: string, c: string)
    ensures a + b + c == a + (b + c)
  {
  }

  lemma {:induction false} InkConcat(s: string, t: string)
    ensures Ink(s + t) == Ink(s) + Ink(t)
  {
    hide IsInk;
    if s == "" {
      assert s + t == t;
    } else {
      assert (s + t)[0] == s[0] && (s + t)[1..] == s[1..] + t;
      InkConcat(s[1..], t);
      ConcatAssociates(if IsInk(s[0]) then [s[0]] else "", Ink(s[1..]), Ink(t));
    }
  }

  lemma InkOne(c: char)
    ensures Ink([c]) == if IsInk(c) then [c] else ""
  {
    assert [c][1..] == "";
  }

  lemma {:induction false} InkNone(s: string)
    requires forall i :: 0 <= i < |s| ==> !IsInk(s[i])
    ensures Ink(s) == ""
  {
    if s != "" {
      InkNone(s[1..]);
    }
  }

  lemma {:induction false} StripConcat(s: string, t: string)
    ensures Strip(s + t) == Strip(s) + Strip(t)
  {
    hide IsBlank;
    if s == "" {
      assert s + t == t;
    } else {
      assert (s + t)[0] == s[0] && (s + t)[1..] == s[1..] + t;
      StripConcat(s[1..], t);
      ConcatAssociates(if IsBlank(s[0]) then "" else [s[0]], Strip(s[1..]), Strip(t));
    }
  }

  lemma {:induction false} InkOfStrip(s: string)
    ensures Ink(Strip(s)) == Ink(s)
  {
    if s != "" {
      InkOfStrip(s[1..]);
      var head := if IsBlank(s[0]) then "" else [s[0]];
      InkConcat(head, Strip(s[1..]));
      assert Ink(head) == if IsInk(s[0]) then [s[0]] else "";
    }
  }

  lemma {:induction false} StripSpaces(s: string)
    requires forall i :: 0 <= i < |s| ==> IsBlank(s[i])
    ensures Strip(s) == ""
  {
    if s != "" {
      StripSpaces(s[1..]);
    }
  }

  lemma StripLength(s: string)
    ensures |Strip(s)| <= |s|
  {
  }

  function Blanks(s: string): nat {
    StripLength(s);
    |s| - |Strip(s)|
  }

  /** For every blank, the characters other than blanks behind it: how early the blanks stand. */
  function Lead(s: string): nat {
    if s == "" then 0 else (if IsBlank(s[0]) then |Strip(s[1..])| else 0) + Lead(s[1..])
  }

  lemma {:induction false} LeadSnoc(s: string, c: char)
    ensures Lead(s + [c]) == Lead(s) + if IsBlank(c) then 0 else Blanks(s)
  {
    if s == "" {
      assert s + [c] == [c] && [c][1..] == "";
    } else {
      assert (s + [c])[0] == s[0] && (s + [c])[1..] == s[1..] + [c];
      LeadSnoc(s[1..], c);
      StripConcat(s[1..], [c]);
      assert Strip([c]) == if IsBlank(c) then "" else [c];
    }
  }

  /** The same characters, but some blanks of `t` stand earlier in `s`. */
  ghost predicate BlanksEarlier(s: string, t: string) {
    SameUpToBlanks(s, t) && Lead(s) > Lead(t)
  }

  lemma {:induction false} EarlierSuffix(s: string, t: string, c: string)
    requires BlanksEarlier(s, t)
    ensures BlanksEarlier(s + c, t + c)
    decreases |c|
  {
    if c == "" {
      assert s + c == s && t + c == t;
    } else {
      LeadSnoc(s, c[0]);
      LeadSnoc(t, c[0]);
      StripConcat(s, [c[0]]);
      StripConcat(t, [c[0]]);
      EarlierSuffix(s + [c[0]], t + [c[0]], c[1..]);
      assert s + [c[0]] + c[1..] == s + c && t + [c[0]] + c[1..] == t + c;
    }
  }

  lemma {:induction false} EarlierPrefix(a: string, s: string, t: string)
    requires BlanksEarlier(s, t)
    ensures BlanksEarlier(a + s, a + t)
  {
    if a == "" {
      assert a + s == s && a + t == t;
    } else {
      EarlierPrefix(a[1..], s, t);
      assert (a + s)[0] == a[0] && (a + s)[1..] == a[1..] + s;
      assert (a + t)[0] == a[0] && (a + t)[1..] == a[1..] + t;
    }
  }

  lemma {:induction false} LeadInFront(blanks: string, b: string)
    requires forall i :: 0 <= i < |blanks| ==> IsBlank(blanks[i])
    requires Strip(b) != ""
    ensures Lead(blanks + b) >= Lead(b) + |blanks|
    ensures Strip(blanks + b) == Strip(b)
  {
    if blanks == "" {
      assert blanks + b == b;
    } else {
      assert (blanks + b)[0] == blanks[0] && (blanks + b)[1..] == blanks[1..] + b;
      LeadInFront(blanks[1..], b);
    }
  }

  lemma {:induction false} LeadBehind(b: string, blanks: string)
    requires forall i :: 0 <= i < |blanks| ==> IsBlank(blanks[i])
    ensures Lead(b + blanks) == Lead(b)
    ensures Strip(b + blanks) == Strip(b)
    decreases |b| + |blanks|
  {
    if b != "" {
      assert (b + blanks)[0] == b[0] && (b + blanks)[1..] == b[1..] + blanks;
      LeadBehind(b[1..], blanks);
    } else if blanks != "" {
      assert b + blanks == blanks && (b + blanks)[1..] == b + blanks[1..];
      LeadBehind(b, blanks[1..]);
    }
  }

  lemma MoveOver(b: string, blanks: string)
    requires blanks != "" && Strip(b) != ""
    requires forall i :: 0 <= i < |blanks| ==> IsBlank(blanks[i])
    ensures BlanksEarlier(blanks + b, b + blanks)
  {
    LeadInFront(blanks, b);
    LeadBehind(b, blanks);
  }

  /** Blanks that pass over text stand earlier, and nothing else changes. */
  lemma MoveBlanks(a: string, b: string, blanks: string, c: string)
    requires blanks != "" && Strip(b) != ""
    requires forall i :: 0 <= i < |blanks| ==> IsBlank(blanks[i])
    ensures BlanksEarlier(a + blanks + b + c, a + b + blanks + c)
  {
    MoveOver(b, blanks);
    EarlierPrefix(a, blanks + b, b + blanks);
    EarlierSuffix(a + (blanks + b), a + (b + blanks), c);
    assert a + (blanks + b) == a + blanks + b && a + (b + blanks) == a + b + blanks;
  }

  lemma {:induction false} StripEnds(s: string)
    requires s != "" && !IsBlank(s[|s| - 1])
    ensures Strip(s) != ""
  {
    if |s| > 1 {
      StripEnds(s[1..]);
    }
  }

  /** `out` is `goal`, or if `moved` the same but for blanks that stand earlier. */
  ghost predicate Same(out: string, goal: string, moved: bool) {
    if moved then BlanksEarlier(out, goal) else out == goal
  }

  lemma SameAppend(a: string, b: string, t: string, moved: bool)
    requires Same(a, b, moved)
    ensures Same(a + t, b + t, moved)
  {
    if moved {
      EarlierSuffix(a, b, t);
    }
  }

  lemma SameTrans(a: string, b: string, c: string, moved: bool, moved': bool)
    requires Same(a, b, moved) && Same(b, c, moved')
    ensures Same(a, c, moved || moved')
  {
  }

  /** The first newline at or after `i`, or the end of the text (memchr). */
  function NewlineAt(s: string, i: nat): (r: nat)
    requires i <= |s|
    ensures i <= r <= |s|
    ensures forall x :: i <= x < r ==> s[x] != '\n'
    ensures r < |s| ==> s[r] == '\n'
    decreases |s| - i
  {
    if i == |s| || s[i] == '\n' then i else NewlineAt(s, i + 1)
  }

  /** The last blank at or before `k`, or -1; the byte just past the text counts as non-blank. */
  function LastBlank(s: string, k: int): (j: int)
    requires -1 <= k <= |s|
    ensures -1 <= j <= k
    ensures j >= 0 ==> j < |s| && IsBlank(s[j])
    ensures forall x :: j < x <= k && x < |s| ==> !IsBlank(s[x])
    decreases k + 1
  {
    if k < 0 || (k < |s| && IsBlank(s[k])) then k else LastBlank(s, k - 1)
  }

  /** Where the run of blanks that ends just before `j` begins. */
  function RunStart(s: string, j: nat): (e: nat)
    requires j <= |s|
    ensures e <= j
    ensures forall x :: e <= x < j ==> IsBlank(s[x])
    ensures e > 0 ==> !IsBlank(s[e - 1])
    decreases j
  {
    if j == 0 || !IsBlank(s[j - 1]) then j else RunStart(s, j - 1)
  }

  /** The first blank at or after `i`, or `nl`. */
  function WordEnd(s: string, i: nat, nl: nat): (q: nat)
    requires i <= nl <= |s|
    ensures i <= q <= nl
    ensures forall x :: i <= x < q ==> !IsBlank(s[x])
    ensures q < nl ==> IsBlank(s[q])
    decreases nl - i
  {
    if i == nl || IsBlank(s[i]) then i else WordEnd(s, i + 1, nl)
  }

  /** The first non-blank at or after `i`. */
  function SkipBlanks(s: string, i: nat): (n: nat)
    requires i <= |s|
    ensures i <= n <= |s|
    ensures forall x :: i <= x < n ==> IsBlank(s[x])
    ensures n < |s| ==> !IsBlank(s[n])
    decreases |s| - i
  {
    if i == |s| || !IsBlank(s[i]) then i else SkipBlanks(s, i + 1)
  }
}
