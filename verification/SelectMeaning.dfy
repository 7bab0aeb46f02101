/** What a list query asks for, and the proof that the SQL built for it gives exactly that. */
module SelectMeaning {
  import opened Wrappers
  import opened Text
  import opened Schema
  import opened QueryFilter
  import opened SelectBuilder
  import opened SelectReader

  // ----- PostgreSQL as parameters -----------------------------------------------------------

  /** A row as the text of each column, `None` for NULL. */
  type Row = map<string, Option<string>>

  function Cell(row: Row, column: string): Option<string> {
    if column in row then row[column] else None
  }

  /** Comparison of texts by each operator, and sorting. */
  datatype Database = Database(
    compare: (Operator, string, string) -> bool,
    arrange: (seq<Row>, seq<Sort>) -> seq<Row>)

  type Record = seq<(string, Option<string>)>

  // ----- shared by statement and query ------------------------------------------------------

  function Kept(rows: seq<Row>, keep: Row -> bool): (kept: seq<Row>)
    ensures forall row :: row in kept <==> row in rows && keep(row)
  {
    if rows == [] then [] else (if keep(rows[0]) then [rows[0]] else []) + Kept(rows[1..], keep)
  }

  function Drop(rows: seq<Row>, offset: Option<int>): seq<Row> {
    match offset
    case None => rows
    case Some(n) => if n <= 0 then rows else if n >= |rows| then [] else rows[n..]
  }

  function Take(rows: seq<Row>, limit: Option<int>): seq<Row> {
    match limit
    case None => rows
    case Some(n) => if n <= 0 then [] else if n >= |rows| then rows else rows[..n]
  }

  function Project(row: Row, columns: seq<string>): Record {
    seq(|columns|, i requires 0 <= i < |columns| => (columns[i], Cell(row, columns[i])))
  }

  function ColumnNames(table: Table): seq<string> {
    seq(|table.columns|, i requires 0 <= i < |table.columns| => table.columns[i].name)
  }

  /** Ordered, offset, limited and projected, in this order. */
  function Window(rows: seq<Row>, table: Table, columns: Option<seq<string>>, order: seq<Sort>,
                  limit: Option<int>, offset: Option<int>, db: Database): seq<Record> {
    var sorted := if order == [] then rows else db.arrange(rows, order);
    var page := Take(Drop(sorted, offset), limit);
    var names := match columns case Some(names) => names case None => ColumnNames(table);
    seq(|page|, i requires 0 <= i < |page| => Project(page[i], names))
  }

  // ----- the meaning of the statement -------------------------------------------------------

  function ParamAt(params: seq<string>, place: nat): Option<string> {
    if 1 <= place <= |params| then Some(params[place - 1]) else None
  }

  predicate ComparesTrue(db: Database, op: Operator, cell: Option<string>, param: Option<string>) {
    cell.Some? && param.Some? && db.compare(op, cell.value, param.value)
  }

  predicate TestTrue(t: Test, cell: Option<string>) {
    match t
    case Null => cell.None?
    case True => cell == Some("true")
    case False => cell == Some("false")
  }

  predicate ConditionTrue(c: Condition, params: seq<string>, row: Row, db: Database) {
    match c
    case Tests(column, t) => TestTrue(t, Cell(row, column))
    case OneOf(column, places) =>
      exists i :: 0 <= i < |places| && ComparesTrue(db, Eq, Cell(row, column), ParamAt(params, places[i]))
    case Compares(column, op, place) => ComparesTrue(db, op, Cell(row, column), ParamAt(params, place))
  }

  predicate WhereTrue(conditions: seq<Condition>, params: seq<string>, row: Row, db: Database) {
    forall i :: 0 <= i < |conditions| ==> ConditionTrue(conditions[i], params, row, db)
  }

  predicate OrderKnown(table: Table, order: seq<Sort>) {
    forall i :: 0 <= i < |order| ==> HasColumn(table, order[i].column)
  }

  /** The table and every column the statement names exist. */
  predicate Resolves(s: Select, table: Table) {
    && s.table == table.name
    && (s.columns.Some? ==> forall i :: 0 <= i < |s.columns.value| ==> HasColumn(table, s.columns.value[i]))
    && (forall i :: 0 <= i < |s.conditions| ==> HasColumn(table, s.conditions[i].column))
    && OrderKnown(table, s.order)
  }

  /** What PostgreSQL returns, or nothing if it refuses the statement for a name it does not know. */
  function Evaluate(s: Select, params: seq<string>, table: Table, rows: seq<Row>, db: Database): Option<seq<Record>> {
    if !Resolves(s, table) then None
    else
      var kept := Kept(rows, row => WhereTrue(s.conditions, params, row, db));
      Some(Window(kept, table, s.columns, s.order, s.limit, s.offset, db))
  }

  // ----- the meaning of the query -----------------------------------------------------------

  /**
   * The row satisfies a filter: comparisons are on text, a list of values is compared one by one, and
   * IS asks for NULL, or for one of the two truth values.
   */
  predicate Satisfies(f: Filter, row: Row, db: Database) {
    var cell := Cell(row, f.column);
    match f.operator
    case Is =>
      var word := Lower(f.value);
      || (word == "null" && cell == None)
      || (word == "true" && cell == Some("true"))
      || (word == "false" && cell == Some("false"))
    case In => cell.Some? && exists part :: part in Split(f.value, ',') && db.compare(Eq, cell.value, Trim(part))
    case op => cell.Some? && db.compare(op, cell.value, f.value)
  }

  predicate SatisfiesAll(filters: seq<Filter>, row: Row, db: Database) {
    forall f :: f in filters ==> Satisfies(f, row, db)
  }

  function Answer(qp: QueryParams, table: Table, rows: seq<Row>, db: Database): seq<Record> {
    Window(Kept(rows, row => SatisfiesAll(qp.filters, row, db)), table, qp.select, qp.order, qp.limit, qp.offset, db)
  }

  /** The k-th record of an answer is made of the row `offset` + k of the sorted rows, as far as the limit goes. */
  lemma WindowElements(rows: seq<Row>, table: Table, columns: Option<seq<string>>, order: seq<Sort>,
                       limit: Option<int>, offset: Option<int>, db: Database, k: nat)
    ensures var sorted := if order == [] then rows else db.arrange(rows, order);
      var records := Window(rows, table, columns, order, limit, offset, db);
      var skipped := if offset.Some? && offset.value > 0 then offset.value else 0;
      && (k < |records| <==> skipped + k < |sorted| && (limit.Some? ==> k < limit.value))
      && (k < |records| ==>
            var names := if columns.Some? then columns.value else ColumnNames(table);
            && |records[k]| == |names|
            && forall j :: 0 <= j < |names| ==> records[k][j] == (names[j], Cell(sorted[skipped + k], names[j])))
  {
    hide Cell, ColumnNames;
    var sorted := if order == [] then rows else db.arrange(rows, order);
    var page := Take(Drop(sorted, offset), limit);
    var names := match columns case Some(names) => names case None => ColumnNames(table);
    if k < |page| {
      assert Window(rows, table, columns, order, limit, offset, db)[k] == Project(page[k], names);
    }
  }

  // ----- placeholders -----------------------------------------------------------------------

  function PlacesIn(c: Condition): seq<nat> {
    match c
    case Tests(_, _) => []
    case OneOf(_, places) => places
    case Compares(_, _, place) => [place]
  }

  function AllPlaces(conditions: seq<Condition>): seq<nat> {
    if conditions == [] then []
    else AllPlaces(conditions[..|conditions| - 1]) + PlacesIn(conditions[|conditions| - 1])
  }

  /** The placeholders of a statement are $1 up to the number of its parameters, in this order. */
  lemma {:induction false} PlaceholdersInOrder(table: Table, filters: seq<Filter>)
    requires Sound(table, filters)
    ensures AllPlaces(ConditionsOf(table, filters)) == PlacesFrom(1, |ParamsOf(filters)|)
  {
    hide FilterError, NamesIn;
    if filters != [] {
      var n := |filters| - 1;
      PlaceholdersInOrder(table, filters[..n]);
      var conditions := ConditionsOf(table, filters);
      assert conditions[..n] == ConditionsOf(table, filters[..n]);
      var before := |ParamsOf(filters[..n])|;
      PlacesOfCondition(table, filters[n], before + 1);
      assert AllPlaces(conditions) == PlacesFrom(1, before) + PlacesFrom(before + 1, |FilterParams(filters[n])|);
    }
  }

  lemma PlacesOfCondition(table: Table, f: Filter, next: nat)
    requires FilterError(table, f).None?
    ensures PlacesIn(ConditionFor(f, next)) == PlacesFrom(next, |FilterParams(f)|)
  {
    hide NamesIn, TestFor, ColumnNamed;
  }

  // ----- conditions and filters -------------------------------------------------------------

  /** A condition whose parameters stand at its placeholders is true exactly on the rows its filter wants. */
  lemma ConditionMeans(table: Table, f: Filter, before: seq<string>, params: seq<string>, row: Row, db: Database)
    requires FilterError(table, f).None? && before + FilterParams(f) <= params
    ensures ConditionTrue(ConditionFor(f, |before| + 1), params, row, db) <==> Satisfies(f, row, db)
  {
    hide TestFor, ColumnNamed, Lower;
    match f.operator
    case Is => TestMeans(f, row, db);
    case In => ListMeans(f, before, params, row, db);
    case op =>
      assert (before + FilterParams(f))[|before|] == f.value;
  }

  lemma TestMeans(f: Filter, row: Row, db: Database)
    requires f.operator.Is? && TestFor(f.value).Some?
    ensures TestTrue(TestFor(f.value).value, Cell(row, f.column)) <==> Satisfies(f, row, db)
  {
    hide Lower, Cell;
    assert "true" != "false" && "null" != "true";
  }

  lemma ListMeans(f: Filter, before: seq<string>, params: seq<string>, row: Row, db: Database)
    requires f.operator.In? && before + FilterParams(f) <= params
    ensures ConditionTrue(ConditionFor(f, |before| + 1), params, row, db) <==> Satisfies(f, row, db)
  {
    hide Split, Trim;
    var names, parts, cell := NamesIn(f.value), Split(f.value, ','), Cell(row, f.column);
    var places := PlacesFrom(|before| + 1, |names|);
    forall i | 0 <= i < |names|
      ensures ParamAt(params, places[i]) == Some(Trim(parts[i]))
    {
      assert (before + names)[|before| + i] == names[i];
    }
    if cell.Some? {
      if part :| part in parts && db.compare(Eq, cell.value, Trim(part)) {
        var i :| 0 <= i < |parts| && parts[i] == part;
        assert ComparesTrue(db, Eq, cell, ParamAt(params, places[i]));
      }
      if i :| 0 <= i < |places| && ComparesTrue(db, Eq, cell, ParamAt(params, places[i])) {
        assert parts[i] in parts;
      }
    }
  }

  lemma {:induction false} WhereMeans(table: Table, filters: seq<Filter>, params: seq<string>, row: Row, db: Database)
    requires Sound(table, filters) && ParamsOf(filters) <= params
    ensures WhereTrue(ConditionsOf(table, filters), params, row, db) <==> SatisfiesAll(filters, row, db)
  {
    hide FilterError, FilterParams, ConditionTrue, Satisfies, ConditionFor;
    if filters != [] {
      var n := |filters| - 1;
      var conditions := ConditionsOf(table, filters);
      WhereMeans(table, filters[..n], params, row, db);
      ConditionMeans(table, filters[n], ParamsOf(filters[..n]), params, row, db);
      assert conditions[..n] == ConditionsOf(table, filters[..n]);
      WhereSplit(conditions, params, row, db);
      SatisfiesSplit(filters, row, db);
    }
  }

  lemma WhereSplit(conditions: seq<Condition>, params: seq<string>, row: Row, db: Database)
    requires conditions != []
    ensures var n := |conditions| - 1;
      WhereTrue(conditions, params, row, db)
      <==> WhereTrue(conditions[..n], params, row, db) && ConditionTrue(conditions[n], params, row, db)
  {
    hide ConditionTrue;
    var n := |conditions| - 1;
    assert forall i :: 0 <= i < n ==> conditions[..n][i] == conditions[i];
  }

  lemma SatisfiesSplit(filters: seq<Filter>, row: Row, db: Database)
    requires filters != []
    ensures var n := |filters| - 1;
      SatisfiesAll(filters, row, db) <==> SatisfiesAll(filters[..n], row, db) && Satisfies(filters[n], row, db)
  {
    hide Satisfies;
    assert filters == filters[..|filters| - 1] + [filters[|filters| - 1]];
  }

  // ----- the statement means the query ------------------------------------------------------

  lemma {:induction false} KeptAlike(rows: seq<Row>, p: Row -> bool, q: Row -> bool)
    requires forall row :: p(row) == q(row)
    ensures Kept(rows, p) == Kept(rows, q)
  {
    if rows != [] {
      KeptAlike(rows[1..], p, q);
    }
  }

  predicate PlainTable(table: Table) {
    Plain(table.name) && forall c :: c in table.columns ==> Plain(c.name)
  }

  /** The columns of the order, which the builder does not look up, hold no double quote. */
  predicate PlainOrder(order: seq<Sort>) {
    forall i :: 0 <= i < |order| ==> Plain(order[i].column)
  }

  lemma TranslationPlainIff(table: Table, qp: QueryParams)
    requires PlainTable(table) && Buildable(table, qp)
    ensures PlainSelect(Translation(table, qp)) <==> PlainOrder(qp.order)
  {
    hide ConditionsOf, ColumnNamed;
    ConditionsPlain(table, qp.filters);
    if qp.select.Some? {
      forall i | 0 <= i < |qp.select.value|
        ensures Plain(qp.select.value[i])
      {
        KnownPlain(table, qp.select.value[i]);
      }
    }
    hide Plain, PlainCondition;
  }

  lemma KnownPlain(table: Table, column: string)
    requires PlainTable(table) && HasColumn(table, column)
    ensures Plain(column)
  {
    hide ColumnNamed, Plain;
  }

  lemma {:induction false} ConditionsPlain(table: Table, filters: seq<Filter>)
    requires PlainTable(table) && Sound(table, filters)
    ensures forall i :: 0 <= i < |filters| ==> PlainCondition(ConditionsOf(table, filters)[i])
  {
    if filters != [] {
      var n := |filters| - 1;
      ConditionsPlain(table, filters[..n]);
      assert FilterError(table, filters[n]).None?;
      hide FilterError, PlainCondition, ConditionFor, FilterParams, PlainTable;
      ConditionPlain(table, filters[n], |ParamsOf(filters[..n])| + 1);
    }
  }

  lemma ConditionPlain(table: Table, f: Filter, next: nat)
    requires PlainTable(table) && FilterError(table, f).None?
    ensures f.operator.Is? ==> TestFor(f.value).Some?
    ensures PlainCondition(ConditionFor(f, next))
  {
    KnownPlain(table, f.column);
    hide TestFor, ColumnNamed, Plain;
  }

  /**
   * For every table and query: the statement built for the query reads back as what it was made from
   * if and only if the columns of the order hold no double quote and the counts are not negative.
   */
  lemma BuiltReadsBackIff(table: Table, qp: QueryParams)
    requires PlainTable(table) && Buildable(table, qp)
    ensures ReadSelect(SelectText(Translation(table, qp))) == Some(Translation(table, qp)) <==>
      PlainOrder(qp.order) && NonNegative(qp.limit) && NonNegative(qp.offset)
  {
    hide ReadSelect, SelectText, PlainSelect, PlainOrder;
    TranslationPlainIff(table, qp);
    SelectReadsBack(Translation(table, qp));
  }

  /** An order column that is not read back: the builder accepts it, and the text says something else. */
  lemma QuotedOrderIsLost(table: Table)
    requires PlainTable(table)
    ensures var qp := QueryParams(None, [], [Sort("a\"", Asc)], None, None);
      Buildable(table, qp) && ReadSelect(SelectText(Translation(table, qp))) != Some(Translation(table, qp))
  {
    var qp := QueryParams(None, [], [Sort("a\"", Asc)], None, None);
    assert "a\""[1] == '\"' && !Plain(qp.order[0].column);
    hide ReadSelect, SelectText, Plain;
    BuiltReadsBackIff(table, qp);
  }

  /** The builder looks up every column but those of the order. */
  lemma TranslationResolvesIff(table: Table, qp: QueryParams)
    requires Buildable(table, qp)
    ensures Resolves(Translation(table, qp), table) <==> OrderKnown(table, qp.order)
  {
    hide OrderKnown, HasColumn;
    ConditionsKnown(table, qp.filters);
    hide ConditionsOf;
  }

  lemma {:induction false} ConditionsKnown(table: Table, filters: seq<Filter>)
    requires Sound(table, filters)
    ensures forall i :: 0 <= i < |filters| ==> HasColumn(table, ConditionsOf(table, filters)[i].column)
  {
    hide HasColumn;
    if filters != [] {
      var n := |filters| - 1;
      ConditionsKnown(table, filters[..n]);
      assert FilterError(table, filters[n]).None?;
    }
  }

  /** What the client should get: the answer, or a refusal if the order names a column the table lacks. */
  function Expected(qp: QueryParams, table: Table, rows: seq<Row>, db: Database): Option<seq<Record>> {
    if OrderKnown(table, qp.order) then Some(Answer(qp, table, rows, db)) else None
  }

  /**
   * For every table, query and content: whenever the statement built for the query reads back,
   * evaluating it with the parameters that go with it gives the rows that satisfy every filter, then
   * ordered, offset, limited and projected, if the columns of the order exist; and if not, a refusal.
   */
  lemma SelectMeansQuery(table: Table, qp: QueryParams, rows: seq<Row>, db: Database)
    requires PlainTable(table) && Buildable(table, qp)
    requires PlainOrder(qp.order) && NonNegative(qp.limit) && NonNegative(qp.offset)
    ensures var read := ReadSelect(SelectText(Translation(table, qp)));
      read.Some? && Evaluate(read.value, ParamsOf(qp.filters), table, rows, db) == Expected(qp, table, rows, db)
  {
    hide ReadSelect, SelectText, PlainSelect, PlainOrder, WhereTrue, SatisfiesAll, Sound, Window, Resolves, OrderKnown;
    TranslationResolvesIff(table, qp);
    var s, params := Translation(table, qp), ParamsOf(qp.filters);
    BuiltReadsBackIff(table, qp);
    forall row: Row
      ensures WhereTrue(s.conditions, params, row, db) == SatisfiesAll(qp.filters, row, db)
    {
      WhereMeans(table, qp.filters, params, row, db);
    }
    KeptAlike(rows, row => WhereTrue(s.conditions, params, row, db), row => SatisfiesAll(qp.filters, row, db));
  }

  /** Without filters, order and counts, the answer is every row. */
  lemma WholeTable(table: Table, rows: seq<Row>, db: Database)
    ensures var answer := Expected(QueryParams(None, [], [], None, None), table, rows, db);
      && answer.Some? && |answer.value| == |rows|
      && forall i :: 0 <= i < |rows| ==> answer.value[i] == Project(rows[i], ColumnNames(table))
  {
    hide Project, ColumnNames;
    KeptAll(rows, row => SatisfiesAll([], row, db));
  }

  lemma {:induction false} KeptAll(rows: seq<Row>, p: Row -> bool)
    requires forall row :: p(row)
    ensures Kept(rows, p) == rows
  {
    if rows != [] {
      KeptAll(rows[1..], p);
    }
  }

  /** A query the builder accepts and PostgreSQL refuses: its order names a column the table lacks. */
  lemma UnknownOrderIsRefused(rows: seq<Row>, db: Database)
    ensures var table, qp := Table("t", [], None, [], []), QueryParams(None, [], [Sort("nope", Asc)], None, None);
      && PlainTable(table) && Buildable(table, qp) && PlainOrder(qp.order)
      && var read := ReadSelect(SelectText(Translation(table, qp)));
         read.Some? && Evaluate(read.value, ParamsOf(qp.filters), table, rows, db) == None
  {
    var table, qp := Table("t", [], None, [], []), QueryParams(None, [], [Sort("nope", Asc)], None, None);
    assert !HasColumn(table, qp.order[0].column);
    hide ReadSelect, SelectText, Evaluate;
    SelectMeansQuery(table, qp, rows, db);
  }
}
