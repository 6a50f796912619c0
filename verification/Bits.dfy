/**
 Unsigned words, each held as its bits with the lowest first, and the bitwise operators of C on them. The printers of
 small values work on words of any width, everything else on words of 32 bits.
 */
module Bits {

  const BLANK := [
    false, false, false, false, false, false, false, false, false, false, false, false, false, false, false, false,
    false, false, false, false, false, false, false, false, false, false, false, false, false, false, false, false]

  type word = w: seq<bool> | |w| == 32 witness BLANK

  function Repeated(size: nat, bit: bool): (w: seq<bool>)
    ensures |w| == size && forall k :: 0 <= k < size ==> w[k] == bit
  {
    seq(size, k => bit)
  }

  const ZERO: word := Repeated(32, false)

  function Lowest(size: nat): (w: seq<bool>)
    requires size > 0
    ensures |w| == size && forall k :: 0 <= k < size ==> w[k] == (k == 0)
  {
    Repeated(size, false)[0 := true]
  }

  function Not(w: seq<bool>): (r: seq<bool>)
    ensures |r| == |w| && forall k :: 0 <= k < |w| ==> r[k] == !w[k]
  {
    seq(|w|, k requires 0 <= k < |w| => !w[k])
  }

  function And(v: seq<bool>, w: seq<bool>): (r: seq<bool>)
    requires |v| == |w|
    ensures |r| == |v| && forall k :: 0 <= k < |v| ==> r[k] == (v[k] && w[k])
  {
    seq(|v|, k requires 0 <= k < |v| => v[k] && w[k])
  }

  function Or(v: seq<bool>, w: seq<bool>): (r: seq<bool>)
    requires |v| == |w|
    ensures |r| == |v| && forall k :: 0 <= k < |v| ==> r[k] == (v[k] || w[k])
  {
    seq(|v|, k requires 0 <= k < |v| => v[k] || w[k])
  }

  function ShiftLeft(w: seq<bool>, n: nat): (r: seq<bool>)
    ensures |r| == |w| && forall k :: 0 <= k < |w| ==> r[k] == (k >= n && w[k - n])
  {
    seq(|w|, k requires 0 <= k < |w| => k >= n && w[k - n])
  }

  function ShiftRight(w: seq<bool>, n: nat): (r: seq<bool>)
    ensures |r| == |w| && forall k :: 0 <= k < |w| ==> r[k] == (k + n < |w| && w[k + n])
  {
    seq(|w|, k requires 0 <= k < |w| => k + n < |w| && w[k + n])
  }

  /** The mask that starts at 1 and has been shifted left `i` times; as many shifts as it has bits leave none. */
  function Mask(size: nat, i: nat): (w: seq<bool>)
    requires size > 0
    ensures |w| == size
  {
    ShiftLeft(Lowest(size), i)
  }

  lemma MaskNext(size: nat, i: nat)
    requires size > 0
    ensures Mask(size, 0) == Lowest(size) && Mask(size, i + 1) == ShiftLeft(Mask(size, i), 1)
  {
  }

  /** Testing `w & mask` against 0 tests bit `i`. */
  lemma MaskTestsBit(w: seq<bool>, i: nat)
    requires i < |w|
    ensures And(w, Mask(|w|, i)) != Repeated(|w|, false) <==> w[i]
  {
    assert And(w, Mask(|w|, i))[i] == w[i];
    assert !w[i] ==> forall k :: 0 <= k < |w| ==> !And(w, Mask(|w|, i))[k];
  }

  /** Ones in the lowest `n` places, by shifting all ones out and complementing. */
  function WidthMask(size: nat, n: nat): (w: seq<bool>)
    requires n <= size
    ensures |w| == size
  {
    if n == size then Repeated(size, true) else Not(ShiftLeft(Repeated(size, true), n))
  }

  lemma WidthMaskBits(size: nat, n: nat, k: nat)
    requires n <= size && k < size
    ensures WidthMask(size, n)[k] <==> k < n
  {
  }

  /** Bit `k` of a number held in words, lowest word first. */
  predicate BitAt(ws: seq<word>, k: nat)
    requires k < 32 * |ws|
  {
    ws[k / 32][k % 32]
  }

  /** The words needed for `bits` bits. */
  function Words(bits: nat): nat {
    (bits + 31) / 32
  }

  lemma BitOfWord(ws: seq<word>, j: nat, i: nat)
    requires j < |ws| && i < 32
    ensures BitAt(ws, 32 * j + i) == ws[j][i]
  {
    assert (32 * j + i) / 32 == j && (32 * j + i) % 32 == i;
  }
}
