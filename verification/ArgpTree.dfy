/**
 The tree of option descriptions that argp is given.
 */
module ArgpTree {

  import opened Wrappers

  /** An entry of an options array; the array's end marker is not represented. */
  datatype Opt = Opt(
    name: Option<string>, key: int, arg: Option<string>,
    argOptional: bool, hidden: bool, alias: bool, doc: bool, group: int)

  /** A node of the tree; `header` and `group` are those of the child-list entry it hangs on. */
  datatype Argp = Argp(
    options: Option<seq<Opt>>, parser: bool, argsDoc: Option<string>,
    header: Option<string>, group: int, children: seq<Argp>)

  /** Printable characters of the C locale. */
  predicate IsPrint(key: int) {
    32 <= key <= 126
  }

  predicate IsShort(o: Opt) {
    !o.doc && IsPrint(o.key)
  }

  /** One of the options can be given as the letter `key`. */
  predicate Offers(opts: seq<Opt>, key: int) {
    exists i :: 0 <= i < |opts| && IsShort(opts[i]) && opts[i].key == key
  }

  predicate Defines(a: Argp, key: int) {
    a.options.Some? && Offers(a.options.value, key)
  }

  /** Every argp of the tree, parents first. */
  function Preorder(a: Argp): seq<Argp> {
    [a] + PreorderOf(a.children, |a.children|)
  }

  /** The trees of the first `i` children. */
  function PreorderOf(cs: seq<Argp>, i: nat): seq<Argp>
    requires i <= |cs|
  {
    if i == 0 then [] else PreorderOf(cs, i - 1) + Preorder(cs[i - 1])
  }
}
