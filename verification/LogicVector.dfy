/**
 The conversions between SystemC logic vectors and 32-bit buffer words: the 3-state and 2-state
 sc_lv conversions of carbon_sctypes.h, and carbon_uint_to_lv, carbon_lv_to_uint and
 carbon_setbidi_value of carbon_valutil.h.
 */
module LogicVector {

  import opened Bits

  datatype Logic = Zero | One | X | Z

  /** The bits a vector leaves in the value words, the drive words, and plain words. */
  function Highs(lv: seq<Logic>): (bits: seq<bool>)
    ensures |bits| == |lv|
  {
    seq(|lv|, k requires 0 <= k < |lv| => lv[k].One? || lv[k].Z?)
  }

  function Undriven(lv: seq<Logic>): (bits: seq<bool>)
    ensures |bits| == |lv|
  {
    seq(|lv|, k requires 0 <= k < |lv| => lv[k].Z?)
  }

  function Ones(lv: seq<Logic>): (bits: seq<bool>)
    ensures |bits| == |lv|
  {
    seq(|lv|, k requires 0 <= k < |lv| => lv[k].One?)
  }

  /** Word `j` holds `bits` where there are any, and elsewhere what it was. */
  ghost predicate WordHolds(w: word, was: word, bits: seq<bool>, j: nat) {
    forall b :: 0 <= b < 32 ==> w[b] == if 32 * j + b < |bits| then bits[32 * j + b] else was[b]
  }

  /** Words `ws` hold `bits`, and above them what they were. */
  ghost predicate Holds(ws: seq<word>, was: seq<word>, bits: seq<bool>)
    requires |ws| == |was|
  {
    forall k :: 0 <= k < 32 * |ws| ==> BitAt(ws, k) == if k < |bits| then bits[k] else BitAt(was, k)
  }

  lemma WordsHold(ws: seq<word>, was: seq<word>, bits: seq<bool>)
    requires |ws| == |was|
    requires forall j :: 0 <= j < |ws| ==> WordHolds(ws[j], was[j], bits, j)
    ensures Holds(ws, was, bits)
  {
    forall k | 0 <= k < 32 * |ws| ensures BitAt(ws, k) == if k < |bits| then bits[k] else BitAt(was, k) {
      assert WordHolds(ws[k / 32], was[k / 32], bits, k / 32);
      assert 32 * (k / 32) + k % 32 == k;
    }
  }

  /** Sets or clears bit `i` of word `j`. */
  method PutBit(a: array<word>, j: nat, ghost i: nat, mask: word, one: bool)
    requires j < a.Length && i < 32 && mask == Mask(32, i)
    modifies a
    ensures a[j] == old(a[j])[i := one]
    ensures forall p :: 0 <= p < a.Length && p != j ==> a[p] == old(a[p])
  {
    if one {
      a[j] := Or(a[j], mask);
    } else {
      a[j] := And(a[j], Not(mask));
    }
  }

  /** Bits `32 * j` up to `32 * j + i` of word `j` are in place. */
  ghost predicate Filled(w: word, was: word, bits: seq<bool>, j: nat, i: nat)
    requires i <= 32 && 32 * j + i <= |bits|
  {
    forall b :: 0 <= b < 32 ==> w[b] == if b < i then bits[32 * j + b] else was[b]
  }

  /** One word of the 3-state conversion. */
  method PutLogicWord(lv: seq<Logic>, value: array<word>, drive: array<word>, j: nat)
    requires value != drive && j < value.Length == drive.Length && 32 * j < |lv|
    modifies value, drive
    ensures WordHolds(value[j], old(value[j]), Highs(lv), j)
    ensures WordHolds(drive[j], old(drive[j]), Undriven(lv), j)
    ensures forall p :: 0 <= p < value.Length && p != j ==> value[p] == old(value[p]) && drive[p] == old(drive[p])
  {
    var mask := Lowest(32);
    var i, curBit := 0, 32 * j;
    while i < 32 && curBit < |lv|
      decreases |lv| - curBit
      invariant 0 <= i <= 32 && curBit == 32 * j + i <= |lv| && mask == Mask(32, i)
      invariant Filled(value[j], old(value[j]), Highs(lv), j, i)
      invariant Filled(drive[j], old(drive[j]), Undriven(lv), j, i)
      invariant forall p :: 0 <= p < value.Length && p != j ==> value[p] == old(value[p]) && drive[p] == old(drive[p])
    {
      match lv[curBit] {
        case One =>
          PutBit(value, j, i, mask, true);
          PutBit(drive, j, i, mask, false);
        case Zero =>
          PutBit(value, j, i, mask, false);
          PutBit(drive, j, i, mask, false);
        case X =>
          PutBit(value, j, i, mask, false);
          PutBit(drive, j, i, mask, false);
        case Z =>
          PutBit(value, j, i, mask, true);
          PutBit(drive, j, i, mask, true);
      }
      MaskNext(32, i);
      i, mask, curBit := i + 1, ShiftLeft(mask, 1), curBit + 1;
    }
  }

  /** Every bit of `lv` up to word `j` is in its value and its drive word, and the words from `j` on are unchanged. */
  ghost predicate Converted(lv: seq<Logic>, value: seq<word>, drive: seq<word>, v0: seq<word>, d0: seq<word>, j: nat)
    requires j <= |value| == |drive| == |v0| == |d0|
  {
    && (forall p :: 0 <= p < j ==>
          WordHolds(value[p], v0[p], Highs(lv), p) && WordHolds(drive[p], d0[p], Undriven(lv), p))
    && (forall p :: j <= p < |value| ==> value[p] == v0[p] && drive[p] == d0[p])
  }

  lemma ConvertedNone(lv: seq<Logic>, v0: seq<word>, d0: seq<word>)
    requires |v0| == |d0|
    ensures Converted(lv, v0, d0, v0, d0, 0)
  {
  }

  lemma ConvertedNext(lv: seq<Logic>, value: seq<word>, drive: seq<word>, value': seq<word>, drive': seq<word>,
      v0: seq<word>, d0: seq<word>, j: nat)
    requires j < |value| == |drive| == |value'| == |drive'| == |v0| == |d0| && Converted(lv, value, drive, v0, d0, j)
    requires WordHolds(value'[j], value[j], Highs(lv), j) && WordHolds(drive'[j], drive[j], Undriven(lv), j)
    requires forall p :: 0 <= p < |value| && p != j ==> value'[p] == value[p] && drive'[p] == drive[p]
    ensures Converted(lv, value', drive', v0, d0, j + 1)
  {
    hide WordHolds;
  }

  lemma ConvertedAll(lv: seq<Logic>, value: seq<word>, drive: seq<word>, v0: seq<word>, d0: seq<word>)
    requires |value| == |drive| == |v0| == |d0| && Converted(lv, value, drive, v0, d0, |value|)
    ensures Holds(value, v0, Highs(lv)) && Holds(drive, d0, Undriven(lv))
  {
    hide WordHolds, Holds;
    WordsHold(value, v0, Highs(lv));
    WordsHold(drive, d0, Undriven(lv));
  }

  /** The 3-state conversion of a vector into value and drive words. */
  method LvToBuf(lv: seq<Logic>, value: array<word>, drive: array<word>)
    requires value != drive && value.Length == drive.Length == Words(|lv|)
    modifies value, drive
    ensures Holds(value[..], old(value[..]), Highs(lv))
    ensures Holds(drive[..], old(drive[..]), Undriven(lv))
  {
    hide WordHolds, Holds, Converted;
    ghost var v0, d0 := value[..], drive[..];
    ConvertedNone(lv, v0, d0);
    var j := 0;
    while j < Words(|lv|)
      invariant 0 <= j <= Words(|lv|)
      invariant Converted(lv, value[..], drive[..], v0, d0, j)
    {
      ghost var v, d := value[..], drive[..];
      PutLogicWord(lv, value, drive, j);
      ConvertedNext(lv, v, d, value[..], drive[..], v0, d0, j);
      j := j + 1;
    }
    ConvertedAll(lv, value[..], drive[..], v0, d0);
  }

  /** What a pair of value and drive bits reads as. */
  function Read(value: seq<word>, drive: seq<word>, k: nat): Logic
    requires k < 32 * |value| && k < 32 * |drive|
  {
    if BitAt(drive, k) then Z else if BitAt(value, k) then One else Zero
  }

  /** The conversion of value and drive words back into a vector. */
  method BufToLv(value: seq<word>, drive: seq<word>, lv: array<Logic>)
    requires |value| == |drive| == Words(lv.Length)
    modifies lv
    ensures forall k :: 0 <= k < lv.Length ==> lv[k] == Read(value, drive, k)
  {
    var curBit := 0;
    var j := 0;
    while j < Words(lv.Length)
      invariant 0 <= j <= Words(lv.Length)
      invariant curBit == if 32 * j < lv.Length then 32 * j else lv.Length
      invariant forall k :: 0 <= k < curBit ==> lv[k] == Read(value, drive, k)
    {
      var mask, i := Lowest(32), 0;
      while i < 32 && curBit < lv.Length
        decreases lv.Length - curBit
        invariant 0 <= i <= 32 && curBit == 32 * j + i <= lv.Length && mask == Mask(32, i)
        invariant forall k :: 0 <= k < curBit ==> lv[k] == Read(value, drive, k)
      {
        MaskTestsBit(value[j], i);
        MaskTestsBit(drive[j], i);
        BitOfWord(value, j, i);
        BitOfWord(drive, j, i);
        lv[curBit] := if And(drive[j], mask) != ZERO then Z else if And(value[j], mask) != ZERO then One else Zero;
        MaskNext(32, i);
        i, mask, curBit := i + 1, ShiftLeft(mask, 1), curBit + 1;
      }
      j := j + 1;
    }
  }

  /** carbon_setbidi_value: value and drive words, and then a copy of the value words. */
  method SetBidi(lv: seq<Logic>, xdata: array<word>, idata: array<word>, xdrive: array<word>)
    requires xdata != idata && idata != xdrive && xdata != xdrive
    requires xdata.Length == idata.Length == xdrive.Length == Words(|lv|)
    modifies xdata, idata, xdrive
    ensures Holds(xdata[..], old(xdata[..]), Highs(lv))
    ensures Holds(xdrive[..], old(xdrive[..]), Undriven(lv))
    ensures idata[..] == xdata[..]
  {
    hide WordHolds, Holds, Converted;
    ghost var v0, d0 := xdata[..], xdrive[..];
    ConvertedNone(lv, v0, d0);
    var j := 0;
    while j < Words(|lv|)
      invariant 0 <= j <= Words(|lv|)
      invariant Converted(lv, xdata[..], xdrive[..], v0, d0, j)
    {
      ghost var v, d := xdata[..], xdrive[..];
      PutLogicWord(lv, xdata, xdrive, j);
      ConvertedNext(lv, v, d, xdata[..], xdrive[..], v0, d0, j);
      j := j + 1;
    }
    ghost var v, d := xdata[..], xdrive[..];
    ConvertedAll(lv, v, d, v0, d0);
    j := 0;
    while j < Words(|lv|)
      invariant 0 <= j <= Words(|lv|)
      invariant xdata[..] == v && xdrive[..] == d
      invariant forall p :: 0 <= p < j ==> idata[p] == v[p]
    {
      idata[j] := xdata[j];
      j := j + 1;
    }
  }

  /** What words hold determines them: so both conversions leave the same words where they found the same. */
  lemma HoldsUnique(v: seq<word>, w: seq<word>, was: seq<word>, bits: seq<bool>)
    requires |v| == |w| == |was| && Holds(v, was, bits) && Holds(w, was, bits)
    ensures v == w
  {
    SameBits(v, w);
  }

  /** carbon_uint_to_lv. */
  method UintToLv(uint: seq<word>, lv: array<Logic>)
    requires |uint| == Words(lv.Length)
    modifies lv
    ensures forall k :: 0 <= k < lv.Length ==> lv[k] == if BitAt(uint, k) then One else Zero
  {
    var curBit := 0;
    var j := 0;
    while j < Words(lv.Length)
      invariant 0 <= j <= Words(lv.Length)
      invariant curBit == if 32 * j < lv.Length then 32 * j else lv.Length
      invariant forall k :: 0 <= k < curBit ==> lv[k] == if BitAt(uint, k) then One else Zero
    {
      var mask, i := Lowest(32), 0;
      while i < 32 && curBit < lv.Length
        decreases lv.Length - curBit
        invariant 0 <= i <= 32 && curBit == 32 * j + i <= lv.Length && mask == Mask(32, i)
        invariant forall k :: 0 <= k < curBit ==> lv[k] == if BitAt(uint, k) then One else Zero
      {
        MaskTestsBit(uint[j], i);
        BitOfWord(uint, j, i);
        lv[curBit] := if And(uint[j], mask) == ZERO then Zero else One;
        MaskNext(32, i);
        i, mask, curBit := i + 1, ShiftLeft(mask, 1), curBit + 1;
      }
      j := j + 1;
    }
  }

  /** carbon_lv_to_uint. */
  method LvToUint(lv: seq<Logic>, uint: array<word>)
    requires uint.Length == Words(|lv|)
    modifies uint
    ensures Holds(uint[..], old(uint[..]), Ones(lv))
  {
    ghost var u0 := uint[..];
    var j := 0;
    while j < Words(|lv|)
      invariant 0 <= j <= Words(|lv|)
      invariant forall p :: 0 <= p < j ==> WordHolds(uint[p], u0[p], Ones(lv), p)
      invariant forall p :: j <= p < uint.Length ==> uint[p] == u0[p]
    {
      var mask := Lowest(32);
      var i, curBit := 0, 32 * j;
      while i < 32 && curBit < |lv|
        decreases |lv| - curBit
        invariant 0 <= i <= 32 && curBit == 32 * j + i <= |lv| && mask == Mask(32, i)
        invariant Filled(uint[j], u0[j], Ones(lv), j, i)
        invariant forall p :: 0 <= p < j ==> WordHolds(uint[p], u0[p], Ones(lv), p)
        invariant forall p :: j < p < uint.Length ==> uint[p] == u0[p]
      {
        PutBit(uint, j, i, mask, lv[curBit].One?);
        MaskNext(32, i);
        i, mask, curBit := i + 1, ShiftLeft(mask, 1), curBit + 1;
      }
      j := j + 1;
    }
    WordsHold(uint[..], u0, Ones(lv));
  }

  /** Words with the same bits are the same words. */
  lemma SameBits(v: seq<word>, w: seq<word>)
    requires |v| == |w|
    requires forall k :: 0 <= k < 32 * |v| ==> BitAt(v, k) == BitAt(w, k)
    ensures v == w
  {
    forall j | 0 <= j < |v| ensures v[j] == w[j] {
      forall i | 0 <= i < 32 ensures v[j][i] == w[j][i] {
        BitOfWord(v, j, i);
        BitOfWord(w, j, i);
        assert BitAt(v, 32 * j + i) == BitAt(w, 32 * j + i);
      }
    }
  }

  /** What the bits of a converted vector say, written out: the value bit is set for 1 and for Z, the drive bit for Z
      alone, and the bits above the vector stay what they were. */
  lemma LogicBits(lv: seq<Logic>, value: seq<word>, drive: seq<word>, v0: seq<word>, d0: seq<word>, k: nat)
    requires |value| == |v0| == |drive| == |d0| == Words(|lv|) && k < 32 * |value|
    requires Holds(value, v0, Highs(lv)) && Holds(drive, d0, Undriven(lv))
    ensures k < |lv| ==> (value[k / 32][k % 32] <==> lv[k] == One || lv[k] == Z)
    ensures k < |lv| ==> (drive[k / 32][k % 32] <==> lv[k] == Z)
    ensures k >= |lv| ==> value[k / 32][k % 32] == v0[k / 32][k % 32] && drive[k / 32][k % 32] == d0[k / 32][k % 32]
    ensures k < |lv| ==>
      (Read(value, drive, k) == Z <==> lv[k] == Z) && (Read(value, drive, k) == One <==> lv[k] == One)
  {
    assert BitAt(value, k) == (if k < |lv| then Highs(lv)[k] else BitAt(v0, k));
    assert BitAt(drive, k) == (if k < |lv| then Undriven(lv)[k] else BitAt(d0, k));
  }

  /** A vector with every X replaced by 0. */
  function NoX(lv: seq<Logic>): (r: seq<Logic>)
    ensures |r| == |lv|
  {
    seq(|lv|, k requires 0 <= k < |lv| => if lv[k].X? then Zero else lv[k])
  }

  /** Vector to 3-state buffer to vector: every bit comes back, except that X comes back as 0. */
  lemma LogicRoundTrip(lv: seq<Logic>, value: seq<word>, drive: seq<word>, v0: seq<word>, d0: seq<word>,
                       back: seq<Logic>)
    requires |value| == |v0| == |drive| == |d0| == Words(|lv|)
    requires Holds(value, v0, Highs(lv)) && Holds(drive, d0, Undriven(lv))
    requires |back| == |lv| && forall k :: 0 <= k < |lv| ==> back[k] == Read(value, drive, k)
    ensures back == NoX(lv)
    ensures back == lv <==> X !in lv
  {
    forall k | 0 <= k < |lv| ensures back[k] == NoX(lv)[k] {
      assert back[k] == Read(value, drive, k);
    }
    if back == lv {
      assert forall k :: 0 <= k < |lv| ==> lv[k] == NoX(lv)[k];
    }
  }

  /** Every undriven bit of the first `n` has its value bit set. */
  ghost predicate UndrivenHigh(value: seq<word>, drive: seq<word>, n: nat)
    requires n <= 32 * |value| && n <= 32 * |drive|
  {
    forall k :: 0 <= k < n && BitAt(drive, k) ==> BitAt(value, k)
  }

  /** Buffer to vector to buffer: the drive words always come back, the value words unless an undriven bit was 0. */
  lemma BufferRoundTrip(lv: seq<Logic>, v0: seq<word>, d0: seq<word>, value: seq<word>, drive: seq<word>)
    requires |value| == |v0| == |drive| == |d0| == Words(|lv|)
    requires forall k :: 0 <= k < |lv| ==> lv[k] == Read(v0, d0, k)
    requires Holds(value, v0, Highs(lv)) && Holds(drive, d0, Undriven(lv))
    ensures drive == d0
    ensures value == v0 <==> UndrivenHigh(v0, d0, |lv|)
  {
    SameBits(drive, d0);
    if UndrivenHigh(v0, d0, |lv|) {
      SameBits(value, v0);
    } else {
      var k :| 0 <= k < |lv| && BitAt(d0, k) && !BitAt(v0, k);
      assert BitAt(value, k);
    }
  }

  /** Words to vector to words: the low bits come back, and the bits above the vector stay the destination's. */
  lemma UintRoundTrip(lv: seq<Logic>, src: seq<word>, was: seq<word>, dst: seq<word>)
    requires |src| == |was| == |dst| == Words(|lv|)
    requires forall k :: 0 <= k < |lv| ==> lv[k] == if BitAt(src, k) then One else Zero
    requires Holds(dst, was, Ones(lv))
    ensures forall k :: 0 <= k < 32 * |dst| ==> BitAt(dst, k) == BitAt(if k < |lv| then src else was, k)
    ensures |lv| % 32 == 0 ==> dst == src
  {
    if |lv| % 32 == 0 {
      SameBits(dst, src);
    }
  }

  // ----- unsigned long, of 64 bits

  /** A 32-bit word as an unsigned long. */
  function Widened(w: word): (x: seq<bool>)
    ensures |x| == 64
  {
    w + ZERO
  }

  /** carbon_sc_to_uint32 of an unsigned long. */
  method ULongToBuf(x: seq<bool>, buf: array<word>)
    requires |x| == 64 && 0 < buf.Length <= 2
    modifies buf
    ensures forall i :: 0 <= i < buf.Length ==> buf[i] == x[32 * i..32 * i + 32]
  {
    var i := 0;
    while i < buf.Length
      invariant i <= buf.Length && forall p :: 0 <= p < i ==> buf[p] == x[32 * p..32 * p + 32]
    {
      buf[i] := ShiftRight(x, 32 * i)[..32];
      i := i + 1;
    }
  }

  /** carbon_uint32_to_sc of an unsigned long: the last shift is by 0, so a second word is not moved up. */
  method BufToULong(buf: seq<word>) returns (x: seq<bool>)
    requires 0 < |buf| <= 2
    ensures x == if |buf| == 1 then Widened(buf[0]) else Or(Widened(buf[1]), Widened(buf[0]))
  {
    x := Repeated(64, false);
    var i := |buf| - 1;
    while i >= 0
      invariant -1 <= i < |buf| && |x| == 64
      invariant x == if i == |buf| - 1 then Repeated(64, false) else if i == 0 then Widened(buf[1])
        else if |buf| == 1 then Widened(buf[0]) else Or(Widened(buf[1]), Widened(buf[0]))
    {
      x := Or(ShiftLeft(x, 32 * i), Widened(buf[i]));
      i := i - 1;
    }
  }

  /** Two words come out as the number they hold exactly if the upper one is 0. */
  lemma ULongReadsIff(low: word, high: word)
    ensures Or(Widened(high), Widened(low)) == low + high <==> high == ZERO
  {
    var x := Or(Widened(high), Widened(low));
    if x == low + high {
      forall k | 0 <= k < 32 ensures high[k] == ZERO[k] {
        assert x[32 + k] == (low + high)[32 + k];
      }
    }
  }

  /** An unsigned long comes back from its two words exactly if it fits the lower one. */
  lemma ULongRoundTrip(x: seq<bool>)
    requires |x| == 64
    ensures Or(Widened(x[32..]), Widened(x[..32])) == x <==> forall k :: 32 <= k < 64 ==> !x[k]
  {
    assert x == x[..32] + x[32..];
    ULongReadsIff(x[..32], x[32..]);
    if x[32..] == ZERO {
      forall k | 32 <= k < 64 ensures !x[k] {
        assert x[32..][k - 32] == ZERO[k - 32];
      }
    }
  }

  /** 2 to the power 32 is two words, and comes back as 1. */
  lemma ULongCanChange()
    ensures var x := ZERO + Lowest(32); x[..32] == ZERO && x[32..] == Lowest(32)
    ensures Or(Widened(Lowest(32)), Widened(ZERO)) == Lowest(64) != ZERO + Lowest(32)
  {
    assert Lowest(64)[0] && !(ZERO + Lowest(32))[0];
  }
}
