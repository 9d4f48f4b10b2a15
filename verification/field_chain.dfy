/**
 The field-descriptor chain: the abstract class `FieldD` and its three
 subclasses become one inductive datatype. Unlike the Java objects, whose
 `next` fields can be reassigned, a value of this datatype is immutable,
 finite and ends in `EndOfFields`.
 */
module FieldChain {
  import opened Wrappers

  /**
   `PrimaryKey` keeps its key columns by name only: the key-column objects of
   the Java code are read for nothing but their `name`.
   */
  datatype FieldD =
    | PrimaryKey(cols: seq<string>, next: FieldD)
    | Column(name: string, columnLabel: string, next: FieldD)
    | EndOfFields

  /** One node of a chain without its continuation. */
  datatype Node = KeyNode(keyCols: seq<string>) | ColumnNode(colName: string, colLabel: string)

  /** The nodes from the head up to, not including, the sentinel. */
  function Nodes(d: FieldD): (r: seq<Node>)
    ensures d.EndOfFields? <==> r == []
  {
    match d
    case PrimaryKey(cols, next) => [KeyNode(cols)] + Nodes(next)
    case Column(name, lbl, next) => [ColumnNode(name, lbl)] + Nodes(next)
    case EndOfFields => []
  }

  /** The chain that visits the given nodes in order and then stops. */
  function FromNodes(ns: seq<Node>): (d: FieldD)
    ensures ns == [] <==> d.EndOfFields?
    decreases |ns|
  {
    if ns == [] then EndOfFields
    else match ns[0]
      case KeyNode(cols) => PrimaryKey(cols, FromNodes(ns[1..]))
      case ColumnNode(name, lbl) => Column(name, lbl, FromNodes(ns[1..]))
  }

  /** Every chain is exactly the finite node sequence it lists. */
  lemma {:induction false} FromNodesOfNodes(d: FieldD)
    ensures FromNodes(Nodes(d)) == d
  {
    match d
    case PrimaryKey(cols, next) =>
      FromNodesOfNodes(next);
      assert Nodes(d)[1..] == Nodes(next);
    case Column(name, lbl, next) =>
      FromNodesOfNodes(next);
      assert Nodes(d)[1..] == Nodes(next);
    case EndOfFields =>
  }

  /** Every finite node sequence is listed by the chain built from it. */
  lemma {:induction false} NodesOfFromNodes(ns: seq<Node>)
    ensures Nodes(FromNodes(ns)) == ns
    decreases |ns|
  {
    if ns != [] {
      NodesOfFromNodes(ns[1..]);
      assert ns == [ns[0]] + ns[1..];
    }
  }

  /** The chain `a` with its sentinel replaced by the chain `b`. */
  function Append(a: FieldD, b: FieldD): FieldD
  {
    match a
    case PrimaryKey(cols, next) => PrimaryKey(cols, Append(next, b))
    case Column(name, lbl, next) => Column(name, lbl, Append(next, b))
    case EndOfFields => b
  }

  /** Appending chains concatenates their node sequences. */
  lemma {:induction false} NodesAppend(a: FieldD, b: FieldD)
    ensures Nodes(Append(a, b)) == Nodes(a) + Nodes(b)
  {
    match a
    case PrimaryKey(cols, next) => NodesAppend(next, b);
    case Column(name, lbl, next) => NodesAppend(next, b);
    case EndOfFields =>
  }

  /** The names of the `Column` nodes, in chain order. */
  function ColumnNames(d: FieldD): seq<string>
  {
    match d
    case PrimaryKey(_, next) => ColumnNames(next)
    case Column(name, _, next) => [name] + ColumnNames(next)
    case EndOfFields => []
  }

  /** The key columns of the last `PrimaryKey` node of the chain, if it has one. */
  function LastKey(d: FieldD): Option<seq<string>>
  {
    match d
    case PrimaryKey(cols, next) => if LastKey(next).Some? then LastKey(next) else Some(cols)
    case Column(_, _, next) => LastKey(next)
    case EndOfFields => None
  }
}
