/**
 What becomes of the text handed to a stream: it is scanned in chunks, each laid out from the column where the one
 before ended, under the margins in force when its characters were handed over.
 */
module History {
  import opened Text
  import opened Layout
  import opened Placement

  /** One scan: its text, the column it began at, the margins, where its text stood in the buffer, and the buffer's
      size. */
  datatype Chunk = Chunk(text: string, col: int, m: Margins, at: nat, cap: nat) {
    predicate Fits() {
      m.Valid() && col <= m.right
    }

    function Laid(): Laid
      requires Fits()
    {
      Lay(text, col, m)
    }

    predicate Overtakes()
      requires Fits()
    {
      Placement.Overtakes(text, col, m, at, cap)
    }
  }

  /** A character and the margins it was handed over under. */
  datatype Mark = Mark(c: char, m: Margins)

  function Marks(s: string, m: Margins): (marks: seq<Mark>)
    ensures |marks| == |s|
  {
    seq(|s|, i requires 0 <= i < |s| => Mark(s[i], m))
  }

  lemma MarksMore(marks: seq<Mark>, s: string, t: string, m: Margins)
    ensures marks + Marks(s + t, m) == marks + Marks(s, m) + Marks(t, m)
  {
    assert Marks(s + t, m) == Marks(s, m) + Marks(t, m);
  }

  /** Each chunk begins where the one before it ended, the first at column 0. */
  predicate Chained(chunks: seq<Chunk>)
    decreases |chunks|, 0
  {
    chunks == [] || (
      var init, last := chunks[..|chunks| - 1], chunks[|chunks| - 1];
      Chained(init) && last.Fits() && last.col == EndColumn(init))
  }

  function EndColumn(chunks: seq<Chunk>): int
    requires Chained(chunks)
    decreases |chunks|, 1
  {
    if chunks == [] then 0 else chunks[|chunks| - 1].Laid().col
  }

  function AllMarks(chunks: seq<Chunk>): seq<Mark> {
    if chunks == [] then [] else
    AllMarks(chunks[..|chunks| - 1]) + Marks(chunks[|chunks| - 1].text, chunks[|chunks| - 1].m)
  }

  /** The text of all chunks, before and after layout, and what line breaks replaced. */
  function AllText(chunks: seq<Chunk>): string {
    if chunks == [] then "" else AllText(chunks[..|chunks| - 1]) + chunks[|chunks| - 1].text
  }

  function AllLaid(chunks: seq<Chunk>): string
    requires Chained(chunks)
  {
    if chunks == [] then "" else AllLaid(chunks[..|chunks| - 1]) + chunks[|chunks| - 1].Laid().text
  }

  function AllDropped(chunks: seq<Chunk>): string
    requires Chained(chunks)
  {
    if chunks == [] then "" else AllDropped(chunks[..|chunks| - 1]) + chunks[|chunks| - 1].Laid().dropped
  }

  /** No scan met an exact fit with ink behind it. */
  predicate AllAvoid(chunks: seq<Chunk>)
    requires Chained(chunks)
  {
    forall i :: 0 <= i < |chunks| ==> chunks[i].Fits() && Avoids(chunks[i].text, chunks[i].col, chunks[i].m, IsInk)
  }

  /** In some scan margin blanks overtook buffered text. */
  predicate SomeOvertake(chunks: seq<Chunk>) {
    exists i :: 0 <= i < |chunks| && chunks[i].Fits() && chunks[i].Overtakes()
  }

  /** Without margins no scan does that. */
  lemma NoMarginsNoOvertake(chunks: seq<Chunk>)
    requires forall i :: 0 <= i < |chunks| ==> chunks[i].m.left == chunks[i].m.wrap == 0
    ensures !SomeOvertake(chunks)
  {
    if i :| 0 <= i < |chunks| && chunks[i].Fits() && chunks[i].Overtakes() {
      NoMarginOvertakes(chunks[i].text, chunks[i].col, chunks[i].m, chunks[i].at, chunks[i].cap);
    }
  }

  /** One more scan. */
  lemma Snoc(chunks: seq<Chunk>, s: Chunk)
    requires Chained(chunks) && s.Fits() && s.col == EndColumn(chunks)
    ensures Chained(chunks + [s]) && EndColumn(chunks + [s]) == s.Laid().col
    ensures AllMarks(chunks + [s]) == AllMarks(chunks) + Marks(s.text, s.m)
    ensures AllLaid(chunks + [s]) == AllLaid(chunks) + s.Laid().text
    ensures SomeOvertake(chunks + [s]) <==> SomeOvertake(chunks) || s.Overtakes()
  {
    var all := chunks + [s];
    assert all[..|all| - 1] == chunks && all[|chunks|] == s;
    SnocAny(chunks, s);
  }

  lemma SnocAny(chunks: seq<Chunk>, s: Chunk)
    requires s.Fits()
    ensures SomeOvertake(chunks + [s]) <==> SomeOvertake(chunks) || s.Overtakes()
  {
    var all := chunks + [s];
    assert all[|chunks|] == s && forall i :: 0 <= i < |chunks| ==> all[i] == chunks[i];
  }

  /** The account of ink: shown and replaced ink are what was given, and none is replaced exactly
      if every scan was clean. */
  ghost predicate Conserved(output: string, dropped: string, given: string, clean: bool) {
    && |Ink(output)| + |Ink(dropped)| == |Ink(given)|
    && (clean <==> Ink(dropped) == "")
    && (clean <==> Ink(output) == Ink(given))
  }

  lemma ConservedAppend(output: string, dropped: string, given: string, clean: bool, s: string)
    requires Conserved(output, dropped, given, clean)
    ensures Conserved(output + s, dropped, given + s, clean)
  {
    InkConcat(output, s);
    InkConcat(given, s);
  }

  lemma LayConserves(kept: string, dropped: string, given: string, clean: bool, s: Chunk)
    requires s.Fits() && Conserved(kept + s.text, dropped, given, clean)
    ensures Conserved(kept + s.Laid().text, dropped + s.Laid().dropped, given,
      clean && Avoids(s.text, s.col, s.m, IsInk))
  {
    InkConcat(kept, s.text);
    InkConcat(kept, s.Laid().text);
    InkConcat(dropped, s.Laid().dropped);
    InkAccounted(s.text, s.col, s.m);
    DropsInkIffExactFit(s.text, s.col, s.m);
  }

  lemma AvoidSnoc(chunks: seq<Chunk>, n: nat)
    requires Chained(chunks) && |chunks| == n + 1
    ensures Chained(chunks[..n]) && chunks[n].Fits()
    ensures AllAvoid(chunks)
      <==> AllAvoid(chunks[..n]) && Avoids(chunks[n].text, chunks[n].col, chunks[n].m, IsInk)
  {
    AllFit(chunks, n + 1);
    assert forall i :: 0 <= i < n ==> chunks[..n][i] == chunks[i];
  }

  lemma {:induction false} AllFit(chunks: seq<Chunk>, n: nat)
    requires Chained(chunks) && |chunks| == n
    ensures forall i :: 0 <= i < n ==> chunks[i].Fits()
    decreases n
  {
    if n > 0 {
      AllFit(chunks[..n - 1], n - 1);
      assert forall i :: 0 <= i < n - 1 ==> chunks[..n - 1][i] == chunks[i];
    }
  }

  /** Over any chain of scans the ink laid out is the ink given, in order, if and only if no scan
      met an exact fit. */
  lemma {:induction false} ScansConserve(chunks: seq<Chunk>)
    requires Chained(chunks)
    ensures Conserved(AllLaid(chunks), AllDropped(chunks), AllText(chunks), AllAvoid(chunks))
    decreases |chunks|
  {
    if chunks != [] {
      var n := |chunks| - 1;
      var init, s := chunks[..n], chunks[n];
      ScansConserve(init);
      ConservedAppend(AllLaid(init), AllDropped(init), AllText(init), AllAvoid(init), s.text);
      LayConserves(AllLaid(init), AllDropped(init), AllText(init) + s.text, AllAvoid(init), s);
      AvoidSnoc(chunks, n);
    }
  }

  /** The characters of marks, without the margins. */
  function Letters(marks: seq<Mark>): (s: string)
    ensures |s| == |marks|
  {
    seq(|marks|, i requires 0 <= i < |marks| => marks[i].c)
  }

  lemma {:induction false} LettersOfScans(chunks: seq<Chunk>)
    ensures Letters(AllMarks(chunks)) == AllText(chunks)
    decreases |chunks|
  {
    if chunks != [] {
      LettersOfScans(chunks[..|chunks| - 1]);
    }
  }

  /**
   The output `out` is accounted for by the scans: it is their layout, exactly unless in some scan margin blanks
   overtook text, and then but for blanks that stand earlier; and it has the ink of what they were given, in order,
   exactly if none met an exact fit.
   */
  ghost predicate Accounts(chunks: seq<Chunk>, out: string) {
    && Chained(chunks) && Same(out, AllLaid(chunks), SomeOvertake(chunks))
    && (Ink(out) == Ink(AllText(chunks)) <==> AllAvoid(chunks))
  }

  lemma RecordAccounts(chunks: seq<Chunk>, out: string)
    requires Chained(chunks) && Same(out, AllLaid(chunks), SomeOvertake(chunks))
    ensures Accounts(chunks, out)
  {
    ScansConserve(chunks);
    InkOfStrip(out);
    InkOfStrip(AllLaid(chunks));
  }
}
