# A Little Java, fields: SELECT builder over a field-descriptor chain

This project is a Dafny model of `ALittleJava.java`, a small design study in
the "A Little Java" style. A database row is described by a singly linked
chain of field descriptors: `PrimaryKey(cols, next)`, `Column(name, label,
next)`, and the sentinel `EndOfFields`. A reducer (visitor) protocol lets each
node hand itself to the matching handler of a visitor: `forPrimaryKey`,
`forColumn` or `forEndOfFields`. The one concrete visitor, `SelectSQLV`,
folds the chain front to back into three strings: `fields`, `table` and
`where`. `toSQL` then renders them as `SELECT fields FROM table WHERE where`.

Modules:

- `FieldChain` (`field_chain.dfy`) holds the chain as an inductive datatype.
  Key columns are kept as their names, because the Java code reads only
  `.name` from them. The module also has:
  - the chain's node sequence and its inverse;
  - chain concatenation;
  - two reference views of a chain: its column names, and its last key.
- `Reducer` (`reducer.dfy`) holds `FieldReducerI` as a record of three
  handlers, and `reduce` as one exhaustive `match`. Because the match is
  exhaustive, the Java casts `(PrimaryKey) x` and `(Column) x` cannot fail
  here. `Reduce` also performs the walk to `next` that the Java handlers do
  themselves. Its contract states that reducing a chain is a left fold over
  its nodes, finished at the sentinel.
- `Separators` (`separators.dfy`) holds the "insert the separator only if the
  accumulator is non-empty" rule that both accumulators use. It is modelled
  exactly as written, and is related to a plain `Join` by a lemma. That lemma
  states precisely where the two differ: a non-empty seed, or empty items
  before the first non-empty item.
- `SelectSql` (`select_sql.dfy`) holds the visitor state, the three handlers,
  the whole-chain fold `Run`, `toSQL`, and the properties of the fold.
- `Wrappers` (`wrappers.dfy`) holds `Option`.

The Java handlers assign to `this.where` or `this.fields` before they build
the next visitor. The model instead gives each handler as a pure function
from the old state to the new one. The result of the fold is the same. The
difference is that the caller's seed object is left unchanged (see "Left out").

`toSQL` is a Dafny function. It is therefore deterministic, and rendering the
same state twice yields the same text; no separate lemma is needed for that.

## Model

| member | source | states |
|---|---|---|
| FieldChain.FromNodesOfNodes | ALittleJava.java:27-67 | every chain value of the model is exactly rebuilt from the list of nodes it visits before the sentinel |
| FieldChain.NodesOfFromNodes | ALittleJava.java:27-67 | every finite list of key and column nodes is the visit order of the chain built from it, ending in `EndOfFields` |
| Reducer.Reduce | ALittleJava.java:38-91 | the dispatch of `reduce` (lines 38-39, 56-57, 63-64) together with the handlers' `next.reduce(...)` continuation (lines 84-85, 90-91) hands every node before the sentinel to its handler, front to back, each from the state the previous one produced; the sentinel's handler gives the result |
| Reducer.ReduceAppend | ALittleJava.java:38-64 | reducing a chain whose tail is another chain reduces the tail from the state reached at the end of the head |
| Separators.AppendSep | ALittleJava.java:87-89 | one step of the separator rule (also lines 81-83): the item alone when the accumulator is empty, otherwise the accumulator, the separator and the item |
| Separators.FoldSepIsJoin | ALittleJava.java:79-89 | the isEmpty-guarded append equals a join of the seed and the items with the separator strictly between neighbours, after the empty strings in front are dropped |
| SelectSql.KeyPredicateIsJoin | ALittleJava.java:79-83 | the key-column loop yields `c1 = ? AND c2 = ? …` in array order with " AND " only between comparisons, and yields "" exactly for no key columns |
| SelectSql.ForPrimaryKey | ALittleJava.java:78-85 | the WHERE predicate is rebuilt from the key columns alone, whatever it held before; it starts with the first column's comparison and ends with the last one's; `fields` and `table` are unchanged |
| SelectSql.ForColumn | ALittleJava.java:86-91 | the column name, never its label, is appended to `fields`, after ", " exactly when `fields` was non-empty; `table` and `where` are unchanged |
| SelectSql.ForEndOfFields | ALittleJava.java:92-93 | the sentinel returns the visitor state unchanged as the fold's result |
| SelectSql.Run | ALittleJava.java:116-117 | `y.reduce(new SelectSQLV(...))` yields the SELECT handlers folded over the chain's nodes from the seed, the sentinel adding nothing |
| SelectSql.ToSql | ALittleJava.java:100-101 | the statement is "SELECT ", the fields, " FROM ", the table, " WHERE " and the predicate, each at its computed position |
| SelectSql.ToSqlDeterminesState | ALittleJava.java:100-101 | two states whose fields and tables have the same lengths render the same statement if and only if they are equal |
| SelectSql.RunKeepsTable | ALittleJava.java:78-93 | the table of the final state is the seed's table |
| SelectSql.RunFields | ALittleJava.java:78-93 | the final `fields` is the seed followed by the `Column` names in chain order under the separator rule, i.e. the ", "-join of seed and names after leading empty strings are dropped |
| SelectSql.RunFieldsFromEmpty | ALittleJava.java:86-91 | from an empty seed and with no empty column name, the final `fields` is the column names joined by ", " in chain order |
| SelectSql.RunWhere | ALittleJava.java:78-85 | only the last `PrimaryKey` node decides the final predicate; a chain with no key node keeps the seed's predicate |
| SelectSql.RunAppend | ALittleJava.java:84-91 | folding two concatenated chains is folding the second from the state the first ends in |
| SelectSql.LeadingEmptyNameLeavesNoSeparator | ALittleJava.java:87-89 | an empty first column name leaves no ", " behind, unlike a plain join |
| SelectSql.CustomerFold | ALittleJava.java:109-121 | the demonstration chain folds to fields "id, name, email", table "customer_t" and predicate "id = ?" |
| SelectSql.CustomerExample | ALittleJava.java:108-122 | the demonstration program renders `SELECT id, name, email FROM customer_t WHERE id = ?` |

## Left out

- `toString` on the descriptor classes and on the visitor is not modelled. It is diagnostic text built from reflection (`getClass().getName()`) and `Arrays.toString`.
- `Main.main` and its console output are not modelled. The program's chain and seed appear only as the worked example `CustomerExample`.
- Java `null` is not modelled. This covers the `null` `next` of the key-column `Column` objects, a `null` `cols` array, and `null` strings, which Java would concatenate as "null". Key columns are kept as names, because only `.name` is read from them.
- The `ClassCastException` paths of the `Object`-typed reducer interface are not modelled. The exhaustive `match` makes them unreachable.
- The `Object` result type of the reducer is narrowed to the visitor's own state type, because the only visitor returns itself.
- The missing-key and empty-key cases are not errors in the code. A chain with no `PrimaryKey` node, or one with an empty key-column array, renders `... WHERE ` followed by an empty or seed predicate. The model follows the code.
- `ALittleJava.java` has no UPDATE visitor, no changed text or date fields, no date formatting, and no error values for a missing key, an empty assignment list or a malformed chain, so none are modelled.
- Reducer.Reduce: in Java, `reduce` makes one dispatch and returns, and each handler receives the whole node and itself calls `next.reduce(...)` (lines 84-85, 90-91). The model moves that continuation into `Reduce`, so a handler cannot see `next` and a visitor cannot stop early or continue elsewhere. For `SelectSQLV`, the only visitor, the result is the same.
- Mutable and cyclic chains are not modelled. The Java `next` fields are non-final (lines 33, 50), so a chain can be re-linked or made cyclic after it is built. `reduce` would then recurse until a `StackOverflowError`, and so would a long enough acyclic chain. The Dafny datatype is immutable and finite, and the model has no recursion-depth limit.
- In-place mutation of the seed is not modelled. The first handler call runs on the caller's own seed object, so `forPrimaryKey` or `forColumn` overwrites the seed's `where` or `fields` (lines 79-83, 87-89), and the caller still holds that object. In the model the seed value is never changed.
