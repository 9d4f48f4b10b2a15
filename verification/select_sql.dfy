/**
 `SelectSQLV`: the one concrete visitor. It folds a chain front to back into
 three strings, the selected columns, the table and the WHERE predicate, and
 `toSQL` renders them into a SELECT statement.
 */
module SelectSql {
  import opened Wrappers
  import opened FieldChain
  import opened Reducer
  import opened Separators

  /** The visitor's state; each step builds a new one. */
  datatype SelectSQLV = SelectSQLV(fields: string, table: string, where: string)

  /** The placeholder comparison one key column contributes to the predicate. */
  function KeyTerm(col: string): string
  {
    col + " = ?"
  }

  /** The key columns' comparisons, in key-column order. */
  function KeyTerms(cols: seq<string>): (r: seq<string>)
    ensures |r| == |cols|
    ensures forall i :: 0 <= i < |r| ==> r[i] == KeyTerm(cols[i]) && r[i] != ""
  {
    seq(|cols|, i requires 0 <= i < |cols| => KeyTerm(cols[i]))
  }

  /** The isEmpty-guarded loop over the key columns puts " AND " only between comparisons. */
  lemma KeyPredicateIsJoin(cols: seq<string>)
    ensures FoldSep("", " AND ", KeyTerms(cols)) == Join(" AND ", KeyTerms(cols))
    ensures Join(" AND ", KeyTerms(cols)) == "" <==> |cols| == 0
  {
    var terms := KeyTerms(cols);
    FoldSepIsJoin("", " AND ", terms);
    assert DropLeadingEmpty([""] + terms) == terms by {
      assert ([""] + terms)[1..] == terms;
    }
    JoinEmptyIff(" AND ", terms);
  }

  /**
   `forPrimaryKey`: the predicate is rebuilt from an empty string, whatever it
   held before, as the key columns' comparisons joined by " AND " in column
   order; the selected columns and the table stay as they were.
   */
  function ForPrimaryKey(v: SelectSQLV, cols: seq<string>): (r: SelectSQLV)
    ensures r.where == Join(" AND ", KeyTerms(cols))
    ensures r.where == "" <==> |cols| == 0
    ensures |cols| > 0 ==> |r.where| >= |KeyTerm(cols[0])| && r.where[..|KeyTerm(cols[0])|] == KeyTerm(cols[0])
    ensures |cols| > 0 ==> |r.where| >= |KeyTerm(cols[|cols| - 1])|
                           && r.where[|r.where| - |KeyTerm(cols[|cols| - 1])|..] == KeyTerm(cols[|cols| - 1])
    ensures r.fields == v.fields && r.table == v.table
  {
    var terms := KeyTerms(cols);
    KeyPredicateIsJoin(cols);
    JoinEnds(" AND ", terms);
    v.(where := FoldSep("", " AND ", terms))
  }

  /**
   `forColumn`: the column's name, never its label, is appended to the
   selected columns, after ", " exactly when they were non-empty; the table
   and the predicate stay as they were.
   */
  function ForColumn(v: SelectSQLV, name: string, lbl: string): (r: SelectSQLV)
    ensures v.fields == "" ==> r.fields == name
    ensures v.fields != "" ==> r.fields == v.fields + ", " + name
    ensures r.table == v.table && r.where == v.where
  {
    v.(fields := AppendSep(v.fields, ", ", name))
  }

  /** `forEndOfFields`: the visitor hands itself back as the fold's result. */
  function ForEndOfFields(v: SelectSQLV): (r: SelectSQLV)
    ensures r == v
  {
    v
  }

  /** The SELECT visitor as a record of its three handlers. */
  function Visitor(): FieldReducer<SelectSQLV>
  {
    FieldReducer(ForPrimaryKey, ForColumn, ForEndOfFields)
  }

  /**
   `chain.reduce(new SelectSQLV(fields, table, where))`: the handlers folded
   over the chain's nodes from the seed; the sentinel adds nothing.
   */
  function Run(d: FieldD, seed: SelectSQLV): (r: SelectSQLV)
    ensures r == FoldNodes(Visitor(), seed, Nodes(d))
  {
    Reduce(d, Visitor(), seed)
  }

  /** `toSQL`: the three accumulators dropped into the SELECT template. */
  function ToSql(v: SelectSQLV): (sql: string)
    ensures |sql| == 20 + |v.fields| + |v.table| + |v.where|
    ensures sql[..7] == "SELECT "
    ensures sql[7..7 + |v.fields|] == v.fields
    ensures sql[7 + |v.fields|..13 + |v.fields|] == " FROM "
    ensures sql[13 + |v.fields|..13 + |v.fields| + |v.table|] == v.table
    ensures sql[13 + |v.fields| + |v.table|..20 + |v.fields| + |v.table|] == " WHERE "
    ensures sql[20 + |v.fields| + |v.table|..] == v.where
  {
    "SELECT " + v.fields + " FROM " + v.table + " WHERE " + v.where
  }

  /**
   The rendering loses nothing: once the lengths of the selected columns and
   the table are known, the statement determines the state it came from.
   */
  lemma ToSqlDeterminesState(a: SelectSQLV, b: SelectSQLV)
    requires |a.fields| == |b.fields| && |a.table| == |b.table|
    ensures ToSql(a) == ToSql(b) <==> a == b
  {
  }

  /** The table is passed through unchanged by every step of the fold. */
  lemma {:induction false} RunKeepsTable(d: FieldD, seed: SelectSQLV)
    ensures Run(d, seed).table == seed.table
  {
    match d
    case PrimaryKey(cols, next) => RunKeepsTable(next, ForPrimaryKey(seed, cols));
    case Column(name, lbl, next) => RunKeepsTable(next, ForColumn(seed, name, lbl));
    case EndOfFields =>
  }

  /**
   The selected columns are the seed followed by the `Column` names in chain
   order, each after ", " once the text is non-empty; so from an empty seed
   they are the names joined by ", ", leading empty names leaving no trace.
   */
  lemma {:induction false} RunFields(d: FieldD, seed: SelectSQLV)
    ensures Run(d, seed).fields == FoldSep(seed.fields, ", ", ColumnNames(d))
    ensures Run(d, seed).fields == Join(", ", DropLeadingEmpty([seed.fields] + ColumnNames(d)))
  {
    RunFieldsFold(d, seed);
    FoldSepIsJoin(seed.fields, ", ", ColumnNames(d));
  }

  lemma {:induction false} RunFieldsFold(d: FieldD, seed: SelectSQLV)
    ensures Run(d, seed).fields == FoldSep(seed.fields, ", ", ColumnNames(d))
  {
    match d
    case PrimaryKey(cols, next) => RunFieldsFold(next, ForPrimaryKey(seed, cols));
    case Column(name, lbl, next) =>
      RunFieldsFold(next, ForColumn(seed, name, lbl));
      assert ColumnNames(d)[0] == name && ColumnNames(d)[1..] == ColumnNames(next);
    case EndOfFields =>
  }

  /** From an empty seed and with no empty name, the selected columns are the names joined by ", ". */
  lemma RunFieldsFromEmpty(d: FieldD, seed: SelectSQLV)
    requires seed.fields == ""
    requires forall i :: 0 <= i < |ColumnNames(d)| ==> ColumnNames(d)[i] != ""
    ensures Run(d, seed).fields == Join(", ", ColumnNames(d))
  {
    RunFields(d, seed);
    var names := ColumnNames(d);
    assert ([seed.fields] + names)[1..] == names;
    assert DropLeadingEmpty([seed.fields] + names) == DropLeadingEmpty(names);
  }

  /**
   Only the last `PrimaryKey` node decides the final predicate; a chain without
   one leaves the seed's predicate as it was.
   */
  lemma {:induction false} RunWhere(d: FieldD, seed: SelectSQLV)
    ensures LastKey(d).None? ==> Run(d, seed).where == seed.where
    ensures LastKey(d).Some? ==> Run(d, seed).where == Join(" AND ", KeyTerms(LastKey(d).value))
  {
    match d
    case PrimaryKey(cols, next) => RunWhere(next, ForPrimaryKey(seed, cols));
    case Column(name, lbl, next) => RunWhere(next, ForColumn(seed, name, lbl));
    case EndOfFields =>
  }

  /** Folding `Append(a, b)` folds `b` from the state the fold of `a` ends in. */
  lemma RunAppend(a: FieldD, b: FieldD, seed: SelectSQLV)
    ensures Run(Append(a, b), seed) == Run(b, Run(a, seed))
  {
    ReduceAppend(a, b, Visitor(), seed);
  }

  /** The separator rule is not a plain join: a leading empty name gets no ", " after it. */
  lemma LeadingEmptyNameLeavesNoSeparator()
    ensures Run(Column("", "", Column("id", "", EndOfFields)), SelectSQLV("", "t", "")).fields == "id"
    ensures Join(", ", ["", "id"]) == ", id"
  {
  }

  /** The demonstration program's chain: a key on `id`, then the columns id, name and email. */
  function CustomerChain(): FieldD
  {
    PrimaryKey(["id"],
      Column("id", "Customer ID",
        Column("name", "Customer Name",
          Column("email", "Customer email", EndOfFields))))
  }

  /** Folding the demonstration chain from the demonstration seed. */
  lemma CustomerFold()
    ensures Run(CustomerChain(), SelectSQLV("", "customer_t", ""))
      == SelectSQLV("id, name, email", "customer_t", "id = ?")
  {
  }

  /** The demonstration program prints `SELECT id, name, email FROM customer_t WHERE id = ?`. */
  lemma CustomerExample()
    ensures ToSql(Run(CustomerChain(), SelectSQLV("", "customer_t", "")))
      == "SELECT id, name, email FROM customer_t WHERE id = ?"
  {
    CustomerFold();
    assert "SELECT " + "id, name, email" == "SELECT id, name, email";
    assert "SELECT id, name, email" + " FROM " == "SELECT id, name, email FROM ";
    assert "SELECT id, name, email FROM " + "customer_t" == "SELECT id, name, email FROM customer_t";
    assert "SELECT id, name, email FROM customer_t" + " WHERE " == "SELECT id, name, email FROM customer_t WHERE ";
    assert "SELECT id, name, email FROM customer_t WHERE " + "id = ?"
      == "SELECT id, name, email FROM customer_t WHERE id = ?";
  }
}
