/**
 Help and parser index the same option tree independently; here it is shown exactly when they agree.
 */
module Agreement {
  import opened ArgpTree
  import opened Wrappers
  import C = Convert
  import H = Hol

  /** Option `j` has a letter for help, but is only the alias of a piece of documentation and so not for the parser. */
  predicate OnlyShown(opts: seq<Opt>, j: nat)
    requires j < |opts|
  {
    IsShort(opts[j]) && !C.ForParser(opts, j)
  }

  /** No letter is only the alias of a piece of documentation. */
  predicate AllConsistent(all: seq<Argp>) {
    forall k :: 0 <= k < |all| ==> Consistent(C.Options(all[k]))
  }

  predicate Consistent(opts: seq<Opt>) {
    forall j :: 0 <= j < |opts| ==> !OnlyShown(opts, j)
  }

  lemma {:induction false} ParserOffersIff(opts: seq<Opt>, m: nat, key: int)
    requires m <= |opts|
    ensures C.ParserOffers(opts, m, key)
       <==> exists j :: 0 <= j < m && IsShort(opts[j]) && opts[j].key == key && !OnlyShown(opts, j)
  {
    if m > 0 {
      ParserOffersIff(opts, m - 1, key);
      if C.ParserOffers(opts, m - 1, key) {
        var j :| 0 <= j < m - 1 && IsShort(opts[j]) && opts[j].key == key && !OnlyShown(opts, j);
        assert 0 <= j < m && IsShort(opts[j]) && opts[j].key == key && !OnlyShown(opts, j);
      }
    }
  }

  /** Whatever an argp gives the parser, it gives help. */
  lemma ParserDefinesIsDefines(a: Argp, key: int)
    requires C.ParserDefines(a, key)
    ensures Defines(a, key)
  {
    var opts := C.Options(a);
    ParserOffersIff(opts, |opts|, key);
    var j :| 0 <= j < |opts| && IsShort(opts[j]) && opts[j].key == key && !OnlyShown(opts, j);
    assert Offers(opts, key);
  }

  lemma ConsistentDefines(a: Argp, key: int)
    requires Consistent(C.Options(a))
    ensures C.ParserDefines(a, key) <==> Defines(a, key)
  {
    var opts := C.Options(a);
    ParserOffersIff(opts, |opts|, key);
    if Defines(a, key) {
      var j :| 0 <= j < |opts| && IsShort(opts[j]) && opts[j].key == key;
      assert !OnlyShown(opts, j);
    }
  }

  // ----- Whose option a letter is

  /**
   The argp that owns a letter in the help list is the one whose group the parser picks for the letter, exactly if
   that argp gives the letter to the parser too.
   */
  lemma HelpAndParserAgree(a: Argp, e: nat, j: nat, picked: nat)
    requires var rows := H.TreeRows(a, 0, []); e < |rows| && j < |rows[e].opts| && H.Owns(rows, e, j)
    requires C.FirstDefiner(Preorder(a), picked, H.TreeRows(a, 0, [])[e].opts[j].key)
    ensures var row := H.TreeRows(a, 0, [])[e];
      && row.node < |Preorder(a)|
      && (picked == row.node <==> C.ParserDefines(Preorder(a)[row.node], row.opts[j].key))
  {
    var rows, all := H.TreeRows(a, 0, []), Preorder(a);
    var owner, key := rows[e].node, rows[e].opts[j].key;
    H.OwnerIsFirstDefiner(a, e, j);
    ParserDefinesIsDefines(all[picked], key);
    assert picked >= owner;
  }

  /** So they agree on every letter of a tree without letters that are only shown. */
  lemma ConsistentTreesAgree(a: Argp, e: nat, j: nat, picked: nat)
    requires var rows := H.TreeRows(a, 0, []); e < |rows| && j < |rows[e].opts| && H.Owns(rows, e, j)
    requires AllConsistent(Preorder(a))
    requires C.FirstDefiner(Preorder(a), picked, H.TreeRows(a, 0, [])[e].opts[j].key)
    ensures picked == H.TreeRows(a, 0, [])[e].node
  {
    var rows, all := H.TreeRows(a, 0, []), Preorder(a);
    HelpAndParserAgree(a, e, j, picked);
    H.OwnerIsFirstDefiner(a, e, j);
    ConsistentDefines(all[rows[e].node], rows[e].opts[j].key);
  }

  // ----- Which letters there are

  /** One of the argps gives the parser the letter. */
  ghost predicate ParserKnows(all: seq<Argp>, key: int) {
    exists k :: 0 <= k < |all| && C.ParserDefines(all[k], key)
  }

  /** One of the argps gives help the letter. */
  ghost predicate HelpKnows(all: seq<Argp>, key: int) {
    exists k :: 0 <= k < |all| && Defines(all[k], key)
  }

  /** The letters in the shared string of the help list. */
  function HelpLetters(a: Argp): seq<int> {
    H.ScanRows([], H.TreeRows(a, 0, []), |H.TreeRows(a, 0, [])|)
  }

  lemma LettersAreDefined(a: Argp, key: int)
    ensures key in HelpLetters(a) <==> HelpKnows(Preorder(a), key)
  {
    var rows, all := H.TreeRows(a, 0, []), Preorder(a);
    H.TreeRowsOf(a, 0, []);
    H.InScanRows(rows, |rows|, key);
    if k :| 0 <= k < |all| && Defines(all[k], key) {
      assert H.MadeOf(rows, 0 + k, all[k]);
    }
    if d :| 0 <= d < |rows| && Offers(rows[d].opts, key) {
      var k := rows[d].node;
      assert H.MadeOf(rows, 0 + k, all[k]) && H.RowDefines(rows[d], 0 + k, key);
    }
  }

  /** Help and the parser agree on whether there is a letter exactly if the parser knows it or no argp defines it. */
  lemma SameLetter(a: Argp, key: int)
    ensures (key in HelpLetters(a) <==> ParserKnows(Preorder(a), key))
       <==> (HelpKnows(Preorder(a), key) ==> ParserKnows(Preorder(a), key))
  {
    var all := Preorder(a);
    LettersAreDefined(a, key);
    if k :| 0 <= k < |all| && C.ParserDefines(all[k], key) {
      ParserDefinesIsDefines(all[k], key);
    }
  }

  /** Each letter that is only shown is an option's letter elsewhere in the tree. */
  ghost predicate Covered(all: seq<Argp>) {
    forall k, j :: 0 <= k < |all| && 0 <= j < |C.Options(all[k])| && OnlyShown(C.Options(all[k]), j) ==>
      ParserKnows(all, C.Options(all[k])[j].key)
  }

  lemma CoveredLetter(all: seq<Argp>, key: int)
    requires Covered(all) && HelpKnows(all, key)
    ensures ParserKnows(all, key)
  {
    var k :| 0 <= k < |all| && Defines(all[k], key);
    var opts := C.Options(all[k]);
    var j :| 0 <= j < |opts| && IsShort(opts[j]) && opts[j].key == key;
    ParserOffersIff(opts, |opts|, key);
    if !OnlyShown(opts, j) {
      assert C.ParserDefines(all[k], key);
    }
  }

  lemma OnlyShownIsDefined(all: seq<Argp>, k: nat, j: nat)
    requires k < |all| && j < |C.Options(all[k])| && OnlyShown(C.Options(all[k]), j)
    ensures HelpKnows(all, C.Options(all[k])[j].key)
  {
    assert Offers(C.Options(all[k]), C.Options(all[k])[j].key);
    assert Defines(all[k], C.Options(all[k])[j].key);
  }

  /** Help shows exactly the letters that the parser knows if and only if every letter that is only shown is covered. */
  lemma SameLetters(a: Argp)
    ensures (forall key :: key in HelpLetters(a) <==> ParserKnows(Preorder(a), key)) <==> Covered(Preorder(a))
  {
    var all := Preorder(a);
    if Covered(all) {
      forall key ensures key in HelpLetters(a) <==> ParserKnows(all, key) {
        SameLetter(a, key);
        if HelpKnows(all, key) {
          CoveredLetter(all, key);
        }
      }
    } else {
      var k, j :| 0 <= k < |all| && 0 <= j < |C.Options(all[k])| && OnlyShown(C.Options(all[k]), j)
        && !ParserKnows(all, C.Options(all[k])[j].key);
      var key := C.Options(all[k])[j].key;
      OnlyShownIsDefined(all, k, j);
      LettersAreDefined(a, key);
      assert key in HelpLetters(a) && !ParserKnows(all, key);
    }
  }

  lemma ConsistentIsCovered(all: seq<Argp>)
    ensures AllConsistent(all) ==> Covered(all)
  {
    if !Covered(all) {
      var k, j :| 0 <= k < |all| && 0 <= j < |C.Options(all[k])| && OnlyShown(C.Options(all[k]), j)
        && !ParserKnows(all, C.Options(all[k])[j].key);
      assert !Consistent(C.Options(all[k]));
    }
  }

  /** A tree that is not covered: an alias that lacks the documentation flag of the entry it belongs to. */
  lemma InconsistentTree(doc: Opt, alias: Opt)
    requires doc.doc && !doc.alias && alias.alias && IsShort(alias)
    ensures var a := Argp(Some([doc, alias]), true, None, None, 0, []);
      alias.key in HelpLetters(a) && !ParserKnows(Preorder(a), alias.key)
  {
    var opts := [doc, alias];
    var a := Argp(Some(opts), true, None, None, 0, []);
    assert Preorder(a) == [a] + PreorderOf([], 0) == [a];
    assert C.Real(opts, 1) == C.Real(opts, 0) == 0;
    assert OnlyShown(opts, 1) && !IsShort(opts[0]);
    ParserOffersIff(opts, 2, alias.key);
    OnlyShownIsDefined([a], 0, 1);
    LettersAreDefined(a, alias.key);
  }
}
