/**
 The reducer protocol: `FieldReducerI` and `FieldD.reduce`. The Java double
 dispatch (the node calls back the visitor method named after its own class)
 becomes one exhaustive `match`, so the casts of the Java handlers cannot fail.
 A visitor is a record of per-variant folding functions over its state; each
 returns a new state instead of mutating the old one.
 */
module Reducer {
  import opened FieldChain

  /** `FieldReducerI`: one handler per variant of the chain. */
  datatype FieldReducer<!S> = FieldReducer(
    forPrimaryKey: (S, seq<string>) -> S,
    forColumn: (S, string, string) -> S,
    forEndOfFields: S -> S)

  /**
   `FieldD.reduce` together with the `next.reduce(...)` continuation of the
   handlers: every node before the sentinel is handed to its handler, front to
   back, each from the state the previous one produced, and the sentinel's
   handler gives the result.
   */
  function Reduce<S>(d: FieldD, ask: FieldReducer<S>, s: S): (r: S)
    ensures r == ask.forEndOfFields(FoldNodes(ask, s, Nodes(d)))
  {
    match d
    case PrimaryKey(cols, next) =>
      assert Nodes(d)[1..] == Nodes(next);
      Reduce(next, ask, ask.forPrimaryKey(s, cols))
    case Column(name, lbl, next) =>
      assert Nodes(d)[1..] == Nodes(next);
      Reduce(next, ask, ask.forColumn(s, name, lbl))
    case EndOfFields => ask.forEndOfFields(s)
  }

  /** The effect of one non-sentinel node on the state. */
  function Step<S>(ask: FieldReducer<S>, s: S, n: Node): S
  {
    match n
    case KeyNode(cols) => ask.forPrimaryKey(s, cols)
    case ColumnNode(name, lbl) => ask.forColumn(s, name, lbl)
  }

  /** Reference definition: a left fold of `Step` over a node sequence. */
  function FoldNodes<S>(ask: FieldReducer<S>, s: S, ns: seq<Node>): S
    decreases |ns|
  {
    if ns == [] then s else FoldNodes(ask, Step(ask, s, ns[0]), ns[1..])
  }

  /** Folding over two node sequences in a row is folding over their concatenation. */
  lemma {:induction false} FoldNodesAppend<S>(ask: FieldReducer<S>, s: S, xs: seq<Node>, ys: seq<Node>)
    ensures FoldNodes(ask, s, xs + ys) == FoldNodes(ask, FoldNodes(ask, s, xs), ys)
    decreases |xs|
  {
    if xs == [] {
      assert xs + ys == ys;
    } else {
      FoldNodesAppend(ask, Step(ask, s, xs[0]), xs[1..], ys);
      assert (xs + ys)[0] == xs[0];
      assert (xs + ys)[1..] == xs[1..] + ys;
    }
  }

  /** Reducing `Append(a, b)` reduces `b` from the state reached at the end of `a`. */
  lemma ReduceAppend<S>(a: FieldD, b: FieldD, ask: FieldReducer<S>, s: S)
    ensures Reduce(Append(a, b), ask, s) == Reduce(b, ask, FoldNodes(ask, s, Nodes(a)))
  {
    NodesAppend(a, b);
    FoldNodesAppend(ask, s, Nodes(a), Nodes(b));
  }
}
