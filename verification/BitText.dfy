/**
 The printers of carbon_valutil.h: a number held in 32-bit words becomes a string of
 '0', '1' and 'Z', highest bit first. The code prints word by word, with fast paths for
 words that are fully driven; each method is proved against the character of one bit. The
 printers of small values are templates, and take words of any width.
 */
module BitText {

  import opened Bits

  /** The character of one bit. */
  function BitChar(one: bool, undriven: bool): char {
    if undriven then 'Z' else if one then '1' else '0'
  }

  /** The drive words of a net, where it has any: a set bit is driven. */
  datatype Drive = AllDriven | Driven(words: seq<word>)

  predicate IsDriven(drive: Drive, k: nat)
    requires drive.Driven? ==> k < 32 * |drive.words|
  {
    drive.AllDriven? || BitAt(drive.words, k)
  }

  /** The character of bit `k` of a value: undriven bits show as 'Z' unless the net is pulled. */
  function ValueChar(value: seq<word>, drive: Drive, pulled: bool, k: nat): char
    requires k < 32 * |value|
    requires drive.Driven? ==> k < 32 * |drive.words|
  {
    BitChar(BitAt(value, k), !pulled && !IsDriven(drive, k))
  }

  /** The character of bit `k` of a net driven from inside and outside: undriven when neither side drives it. */
  function BidiChar(idata: seq<word>, xdrive: seq<word>, idrive: seq<word>, pulled: bool, k: nat): char
    requires k < 32 * |idata| && k < 32 * |xdrive| && k < 32 * |idrive|
  {
    BitChar(BitAt(idata, k), !pulled && BitAt(xdrive, k) && !BitAt(idrive, k))
  }

  /** Writes the lowest `n` bits of `v`, bit 0 at `top` and the others leftwards. */
  method PutBits(s: array<char>, top: int, v: seq<bool>, n: nat)
    requires 0 < |v| && n <= |v| && n <= top + 1 <= s.Length
    modifies s
    ensures forall p :: top - n < p <= top ==> s[p] == BitChar(v[top - p], false)
    ensures forall p :: 0 <= p < s.Length && !(top - n < p <= top) ==> s[p] == old(s[p])
  {
    var mask := Lowest(|v|);
    var i := 0;
    while i < n
      invariant 0 <= i <= n
      invariant mask == Mask(|v|, i)
      invariant forall p :: top - i < p <= top ==> s[p] == BitChar(v[top - p], false)
      invariant forall p :: 0 <= p < s.Length && !(top - i < p <= top) ==> s[p] == old(s[p])
    {
      MaskTestsBit(v, i);
      s[top - i] := if And(v, mask) != Repeated(|v|, false) then '1' else '0';
      MaskNext(|v|, i);
      i, mask := i + 1, ShiftLeft(mask, 1);
    }
  }

  /** As PutBits, with 'Z' for each bit set in `z`. */
  method PutBitsOrZ(s: array<char>, top: int, v: seq<bool>, z: seq<bool>, n: nat)
    requires 0 < |v| == |z| && n <= |v| && n <= top + 1 <= s.Length
    modifies s
    ensures forall p :: top - n < p <= top ==> s[p] == BitChar(v[top - p], z[top - p])
    ensures forall p :: 0 <= p < s.Length && !(top - n < p <= top) ==> s[p] == old(s[p])
  {
    var mask := Lowest(|v|);
    var i := 0;
    while i < n
      invariant 0 <= i <= n
      invariant mask == Mask(|v|, i)
      invariant forall p :: top - i < p <= top ==> s[p] == BitChar(v[top - p], z[top - p])
      invariant forall p :: 0 <= p < s.Length && !(top - i < p <= top) ==> s[p] == old(s[p])
    {
      MaskTestsBit(v, i);
      MaskTestsBit(z, i);
      s[top - i] := if And(z, mask) != Repeated(|v|, false) then 'Z'
                    else if And(v, mask) != Repeated(|v|, false) then '1' else '0';
      MaskNext(|v|, i);
      i, mask := i + 1, ShiftLeft(mask, 1);
    }
  }

  /** Writes `n` bits, by the loop without 'Z' when the net is pulled or no bit is undriven. */
  method PutWord(s: array<char>, top: int, v: seq<bool>, z: seq<bool>, pulled: bool, n: nat)
    requires 0 < |v| == |z| && n <= |v| && n <= top + 1 <= s.Length
    modifies s
    ensures forall p :: top - n < p <= top ==> s[p] == BitChar(v[top - p], !pulled && z[top - p])
    ensures forall p :: 0 <= p < s.Length && !(top - n < p <= top) ==> s[p] == old(s[p])
  {
    if pulled || z == Repeated(|v|, false) {
      PutBits(s, top, v, n);
    } else {
      PutBitsOrZ(s, top, v, z, n);
    }
  }

  /** carbon_smallval_to_strNoNull, writing from index `base`. */
  method SmallToStrNoNull(s: array<char>, base: nat, v: seq<bool>, drive: seq<bool>, pulled: bool, width: nat)
    requires 0 < |v| == |drive| && width <= |v| && base + width <= s.Length
    modifies s
    ensures forall p :: base <= p < base + width ==>
      s[p] == BitChar(v[base + width - 1 - p], !pulled && !drive[base + width - 1 - p])
    ensures forall p :: 0 <= p < s.Length && !(base <= p < base + width) ==> s[p] == old(s[p])
  {
    PutWord(s, base + width - 1, v, And(Not(drive), WidthMask(|v|, width)), pulled, width);
  }

  /** The undriven bits of word `j`, of which the net has `n`. */
  function Undriven(drive: Drive, j: nat, n: nat): word
    requires n <= 32
    requires drive.Driven? ==> j < |drive.words|
  {
    if drive.AllDriven? then ZERO else And(Not(drive.words[j]), WidthMask(32, n))
  }

  lemma UndrivenBit(drive: Drive, j: nat, n: nat, i: nat)
    requires i < n <= 32
    requires drive.Driven? ==> j < |drive.words|
    ensures Undriven(drive, j, n)[i] <==> !IsDriven(drive, 32 * j + i)
  {
    if drive.Driven? {
      BitOfWord(drive.words, j, i);
    }
  }

  /** The characters of a value, lowest bit first. */
  function ValueText(value: seq<word>, drive: Drive, pulled: bool, width: nat): (text: seq<char>)
    requires width <= 32 * |value| && (drive.Driven? ==> width <= 32 * |drive.words|)
    ensures |text| == width
  {
    seq(width, k requires 0 <= k < width => ValueChar(value, drive, pulled, k))
  }

  /** The characters of a bidirectional net, lowest bit first. */
  function BidiText(idata: seq<word>, xdrive: seq<word>, idrive: seq<word>, pulled: bool, width: nat): (text: seq<char>)
    requires width <= 32 * |idata| && width <= 32 * |xdrive| && width <= 32 * |idrive|
    ensures |text| == width
  {
    seq(width, k requires 0 <= k < width => BidiChar(idata, xdrive, idrive, pulled, k))
  }

  /** The string `s` is `text`, highest bit first, and a terminator. */
  predicate Prints(s: seq<char>, text: seq<char>) {
    |text| < |s| && s[|text|] == '\0' && forall p :: 0 <= p < |text| ==> s[p] == text[|text| - 1 - p]
  }

  /** Characters `32 * j` up to `32 * j + n` of `text` are those of `v`, with 'Z' where `z` is set. */
  ghost predicate Reads(text: seq<char>, j: nat, n: nat, v: seq<bool>, z: seq<bool>)
    requires n <= |v| == |z| && 32 * j + n <= |text|
  {
    forall i :: 0 <= i < n ==> text[32 * j + i] == BitChar(v[i], z[i])
  }

  lemma ReadsAt(text: seq<char>, j: nat, n: nat, v: seq<bool>, z: seq<bool>, p: int)
    requires n <= |v| == |z| && 32 * j + n <= |text| && Reads(text, j, n, v, z)
    requires |text| - 32 * j - n <= p < |text| - 32 * j
    ensures text[|text| - 1 - p] == BitChar(v[|text| - 32 * j - 1 - p], z[|text| - 32 * j - 1 - p])
  {
    var i := |text| - 32 * j - 1 - p;
    assert text[32 * j + i] == BitChar(v[i], z[i]);
  }

  function Unless(pulled: bool, z: seq<bool>): (r: seq<bool>)
    ensures |r| == |z|
  {
    if pulled then Repeated(|z|, false) else z
  }

  lemma ValueReads(value: seq<word>, drive: Drive, pulled: bool, width: nat, j: nat, n: nat)
    requires width <= 32 * |value| && (drive.Driven? ==> width <= 32 * |drive.words|)
    requires n <= 32 && 32 * j + n <= width && j < |value| && (drive.Driven? ==> j < |drive.words|)
    ensures Reads(ValueText(value, drive, pulled, width), j, n, value[j], Unless(pulled, Undriven(drive, j, n)))
  {
    forall i | 0 <= i < n
      ensures ValueText(value, drive, pulled, width)[32 * j + i]
        == BitChar(value[j][i], Unless(pulled, Undriven(drive, j, n))[i])
    {
      BitOfWord(value, j, i);
      UndrivenBit(drive, j, n, i);
    }
  }

  lemma BidiReads(idata: seq<word>, xdrive: seq<word>, idrive: seq<word>, pulled: bool, width: nat, j: nat, n: nat)
    requires |idata| == |xdrive| == |idrive| && width <= 32 * |idata|
    requires n <= 32 && 32 * j + n <= width && j < |idata|
    ensures Reads(BidiText(idata, xdrive, idrive, pulled, width), j, n, idata[j],
      Unless(pulled, And(xdrive[j], Not(idrive[j]))))
  {
    forall i | 0 <= i < n
      ensures BidiText(idata, xdrive, idrive, pulled, width)[32 * j + i]
        == BitChar(idata[j][i], Unless(pulled, And(xdrive[j], Not(idrive[j])))[i])
    {
      BitOfWord(idata, j, i);
      BitOfWord(xdrive, j, i);
      BitOfWord(idrive, j, i);
    }
  }

  /** The characters of a small value, lowest bit first. */
  function SmallText(v: seq<bool>, drive: seq<bool>, pulled: bool, width: nat): (text: seq<char>)
    requires width <= |v| == |drive|
    ensures |text| == width
  {
    seq(width, k requires 0 <= k < width => BitChar(v[k], !pulled && !drive[k]))
  }

  /** carbon_smallval_to_str. */
  method SmallToStr(s: array<char>, v: seq<bool>, drive: seq<bool>, pulled: bool, width: nat)
    requires 0 < |v| == |drive| && width <= |v| && width < s.Length
    modifies s
    ensures Prints(s[..], SmallText(v, drive, pulled, width))
    ensures forall p :: width < p < s.Length ==> s[p] == old(s[p])
  {
    s[width] := '\0';
    SmallToStrNoNull(s, 0, v, drive, pulled, width);
  }

  /** Word `j` of a value, of which `n` bits are shown. */
  method PutValueWord(s: array<char>, v: word, z: word, pulled: bool, width: nat, j: nat, n: nat, ghost text: seq<char>)
    requires n <= 32 && 32 * j + n <= |text| == width <= s.Length
    requires Reads(text, j, n, v, Unless(pulled, z))
    modifies s
    ensures forall p :: width - 32 * j - n <= p < width - 32 * j ==> s[p] == text[width - 1 - p]
    ensures forall p :: 0 <= p < s.Length && !(width - 32 * j - n <= p < width - 32 * j) ==> s[p] == old(s[p])
  {
    var top := width - 32 * j - 1;
    PutWord(s, top, v, z, pulled, n);
    forall p | top - n < p <= top ensures s[p] == text[width - 1 - p] {
      ReadsAt(text, j, n, v, Unless(pulled, z), p);
    }
  }

  /** carbon_largeval_to_str. */
  method LargeToStr(s: array<char>, value: seq<word>, drive: Drive, pulled: bool, width: nat)
    requires 0 < width < s.Length
    requires |value| == Words(width) && (drive.Driven? ==> |drive.words| == Words(width))
    modifies s
    ensures Prints(s[..], ValueText(value, drive, pulled, width))
    ensures forall p :: width < p < s.Length ==> s[p] == old(s[p])
  {
    hide ValueText, Reads, Undriven, Unless;
    ghost var text := ValueText(value, drive, pulled, width);
    s[width] := '\0';
    var numWords := Words(width);
    var tail := if width % 32 == 0 then 32 else width % 32;
    var j := 0;
    while j < numWords - 1
      invariant 0 <= j <= numWords - 1
      invariant forall p :: width - 32 * j <= p < width ==> s[p] == text[width - 1 - p]
      invariant s[width] == '\0' && forall p :: width < p < s.Length ==> s[p] == old(s[p])
    {
      ValueReads(value, drive, pulled, width, j, 32);
      PutValueWord(s, value[j], Undriven(drive, j, 32), pulled, width, j, 32, text);
      j := j + 1;
    }
    ValueReads(value, drive, pulled, width, j, tail);
    PutValueWord(s, value[j], Undriven(drive, j, tail), pulled, width, j, tail, text);
  }

  /** Word `j` of a bidirectional net, of which `n` bits are shown. */
  method PutBidiWord(s: array<char>, idata: seq<bool>, xdrive: seq<bool>, idrive: seq<bool>, pulled: bool, width: nat,
      j: nat, n: nat, ghost text: seq<char>)
    requires 0 < |idata| == |xdrive| == |idrive| && n <= |idata| && 32 * j + n <= |text| == width <= s.Length
    requires Reads(text, j, n, idata, Unless(pulled, And(xdrive, Not(idrive))))
    modifies s
    ensures forall p :: width - 32 * j - n <= p < width - 32 * j ==> s[p] == text[width - 1 - p]
    ensures forall p :: 0 <= p < s.Length && !(width - 32 * j - n <= p < width - 32 * j) ==> s[p] == old(s[p])
  {
    var curPos := width - 32 * j - 1;
    var calcDrive := And(xdrive, Not(idrive));
    if calcDrive == Repeated(|idata|, false) {
      PutBits(s, curPos, idata, n);
    } else {
      SmallToStrNoNull(s, curPos - n + 1, idata, Not(calcDrive), pulled, n);
    }
    forall p | curPos - n < p <= curPos ensures s[p] == text[width - 1 - p] {
      ReadsAt(text, j, n, idata, Unless(pulled, calcDrive), p);
    }
  }

  /** The bits of a small bidirectional net that are driven: all but those that only the external mask has. */
  function SmallDrive(xdrive: seq<bool>, idrive: seq<bool>): (d: seq<bool>)
    requires |xdrive| == |idrive|
    ensures |d| == |xdrive|
  {
    seq(|xdrive|, k requires 0 <= k < |xdrive| => !xdrive[k] || idrive[k])
  }

  /** carbon_calcBidi_smallval. */
  method CalcBidiSmall(s: array<char>, idata: seq<bool>, xdrive: seq<bool>, idrive: seq<bool>, pulled: bool, width: nat)
    requires 0 < |idata| == |xdrive| == |idrive| && width <= |idata| && width < s.Length
    modifies s
    ensures Prints(s[..], SmallText(idata, SmallDrive(xdrive, idrive), pulled, width))
    ensures forall p :: width < p < s.Length ==> s[p] == old(s[p])
  {
    ghost var text := SmallText(idata, SmallDrive(xdrive, idrive), pulled, width);
    assert Reads(text, 0, width, idata, Unless(pulled, And(xdrive, Not(idrive))));
    s[width] := '\0';
    PutBidiWord(s, idata, xdrive, idrive, pulled, width, 0, width, text);
  }

  /** carbon_calcBidi_largeval. */
  method CalcBidiLarge(s: array<char>, idata: seq<word>, xdrive: seq<word>, idrive: seq<word>, pulled: bool, width: nat)
    requires 0 < width < s.Length
    requires |idata| == |xdrive| == |idrive| == Words(width)
    modifies s
    ensures Prints(s[..], BidiText(idata, xdrive, idrive, pulled, width))
    ensures forall p :: width < p < s.Length ==> s[p] == old(s[p])
  {
    hide BidiText, Reads, Unless, And, Not;
    ghost var text := BidiText(idata, xdrive, idrive, pulled, width);
    var numWords := Words(width);
    var tail := if width % 32 == 0 then 32 else width % 32;
    s[width] := '\0';
    var j := 0;
    while j < numWords - 1
      invariant 0 <= j <= numWords - 1
      invariant forall p :: width - 32 * j <= p < width ==> s[p] == text[width - 1 - p]
      invariant s[width] == '\0' && forall p :: width < p < s.Length ==> s[p] == old(s[p])
    {
      BidiReads(idata, xdrive, idrive, pulled, width, j, 32);
      PutBidiWord(s, idata[j], xdrive[j], idrive[j], pulled, width, j, 32, text);
      j := j + 1;
    }
    BidiReads(idata, xdrive, idrive, pulled, width, j, tail);
    PutBidiWord(s, idata[j], xdrive[j], idrive[j], pulled, width, j, tail, text);
  }

  // ----- What a printed string says of each bit

  /** The character of bit `k` of a net of `width` bits. */
  function CharAt(s: seq<char>, width: nat, k: nat): char
    requires k < width < |s|
  {
    s[width - 1 - k]
  }

  lemma PrintedText(s: seq<char>, text: seq<char>, k: nat)
    requires Prints(s, text) && k < |text|
    ensures CharAt(s, |text|, k) == text[k]
  {
    assert s[|text| - 1 - k] == text[|text| - 1 - (|text| - 1 - k)];
  }

  /** A printed value shows 'Z' exactly for an undriven bit of a net that is not pulled, and other bits as they are. */
  lemma ValueReadsBack(s: seq<char>, value: seq<word>, drive: Drive, pulled: bool, width: nat, k: nat)
    requires width <= 32 * |value| && (drive.Driven? ==> width <= 32 * |drive.words|) && k < width
    requires Prints(s, ValueText(value, drive, pulled, width))
    ensures var c, bit := CharAt(s, width, k), value[k / 32][k % 32];
      var z := !pulled && drive.Driven? && !drive.words[k / 32][k % 32];
      (c == 'Z' <==> z) && (c == '1' <==> !z && bit) && (c == '0' <==> !z && !bit)
  {
    PrintedText(s, ValueText(value, drive, pulled, width), k);
  }

  /** A printed bidirectional net shows 'Z' exactly for a bit of a net that is not pulled and that is driven neither
      from inside nor from outside. */
  lemma BidiReadsBack(s: seq<char>, idata: seq<word>, xdrive: seq<word>, idrive: seq<word>, pulled: bool,
                      width: nat, k: nat)
    requires |idata| == |xdrive| == |idrive| && k < width <= 32 * |idata|
    requires Prints(s, BidiText(idata, xdrive, idrive, pulled, width))
    ensures var c, bit := CharAt(s, width, k), idata[k / 32][k % 32];
      var z := !pulled && xdrive[k / 32][k % 32] && !idrive[k / 32][k % 32];
      (c == 'Z' <==> z) && (c == '1' <==> !z && bit) && (c == '0' <==> !z && !bit)
  {
    PrintedText(s, BidiText(idata, xdrive, idrive, pulled, width), k);
  }

  /** The drive words a bidirectional net shows: a bit is undriven when only the external mask is set. */
  function Drives(xdrive: seq<word>, idrive: seq<word>): (d: seq<word>)
    requires |xdrive| == |idrive|
    ensures |d| == |xdrive|
  {
    seq(|xdrive|, j requires 0 <= j < |xdrive| => Not(And(xdrive[j], Not(idrive[j]))))
  }

  /**
   The printers agree: a bidirectional net prints as the plain value with those drive words, at every
   width, and so by the routine for small values and by the one for large values.
   */
  lemma BidiPrintsAsValue(idata: seq<word>, xdrive: seq<word>, idrive: seq<word>, pulled: bool, width: nat)
    requires |idata| == |xdrive| == |idrive| && width <= 32 * |idata|
    ensures BidiText(idata, xdrive, idrive, pulled, width)
         == ValueText(idata, Driven(Drives(xdrive, idrive)), pulled, width)
  {
    forall k | 0 <= k < width
      ensures BidiText(idata, xdrive, idrive, pulled, width)[k]
           == ValueText(idata, Driven(Drives(xdrive, idrive)), pulled, width)[k]
    {
      var j := k / 32;
      assert Drives(xdrive, idrive)[j][k % 32] == !(xdrive[j][k % 32] && !idrive[j][k % 32]);
    }
  }

  /** The bits of a number held in 32-bit words, as one wide word. */
  function Flat(ws: seq<word>): (w: seq<bool>)
    ensures |w| == 32 * |ws|
  {
    seq(32 * |ws|, k requires 0 <= k < 32 * |ws| => BitAt(ws, k))
  }

  /** The printer of small values and that of large ones agree, however many 32-bit words the small one's word spans. */
  lemma SmallPrintsAsLarge(value: seq<word>, drive: seq<word>, pulled: bool, width: nat)
    requires |value| == |drive| && width <= 32 * |value|
    ensures SmallText(Flat(value), Flat(drive), pulled, width) == ValueText(value, Driven(drive), pulled, width)
  {
    forall k | 0 <= k < width
      ensures SmallText(Flat(value), Flat(drive), pulled, width)[k] == ValueText(value, Driven(drive), pulled, width)[k]
    {
      assert Flat(value)[k] == BitAt(value, k) && Flat(drive)[k] == BitAt(drive, k);
    }
  }
}
