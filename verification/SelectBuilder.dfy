/** `build_select` of `query/builder.rs`: the statement a query is translated to, its text and its parameters. */
module SelectBuilder {
  import opened Wrappers
  import opened Text
  import opened Decimal
  import opened Schema
  import opened QueryFilter
  import opened SqlText

  // ----- the statement as a value -----------------------------------------------------------

  datatype Test = Null | True | False

  datatype Condition =
    | Tests(column: string, test: Test)
    | OneOf(column: string, places: seq<nat>)
    | Compares(column: string, operator: Operator, place: nat)

  datatype Select = Select(
    columns: Option<seq<string>>, table: string, conditions: seq<Condition>, order: seq<Sort>,
    limit: Option<int>, offset: Option<int>)

  // ----- its text ---------------------------------------------------------------------------

  function ToSql(op: Operator): string {
    match op
    case Eq => "=" case Neq => "!=" case Gt => ">" case Gte => ">=" case Lt => "<" case Lte => "<="
    case Like => "LIKE" case Ilike => "ILIKE" case Is => "IS" case In => "IN"
  }

  /** The operators as SQL writes them. */
  lemma SqlWords()
    ensures ToSql(Eq) == "=" && ToSql(Neq) == "!=" && ToSql(Gt) == ">" && ToSql(Gte) == ">="
    ensures ToSql(Lt) == "<" && ToSql(Lte) == "<=" && ToSql(Like) == "LIKE" && ToSql(Ilike) == "ILIKE"
    ensures TestWord(Null) == "NULL" && TestWord(True) == "TRUE" && TestWord(False) == "FALSE"
  {}

  function TestWord(t: Test): string {
    match t case Null => "NULL" case True => "TRUE" case False => "FALSE"
  }

  function ConditionText(c: Condition): string {
    match c
    case Tests(column, t) => Quoted(column) + " IS " + TestWord(t)
    case OneOf(column, places) => Quoted(column) + "::text IN (" + Join(Rendered(Placeholder, places), ", ") + ")"
    case Compares(column, op, place) => Quoted(column) + "::text " + ToSql(op) + " " + Placeholder(place)
  }

  function SortText(s: Sort): string {
    Quoted(s.column) + (match s.direction case Asc => " ASC" case Desc => " DESC")
  }

  function ColumnsText(columns: Option<seq<string>>): string {
    match columns case None => "*" case Some(names) => Join(Rendered(Quoted, names), ", ")
  }

  function WhereText(conditions: seq<Condition>): string {
    if conditions == [] then "" else " WHERE " + Join(Rendered(ConditionText, conditions), " AND ")
  }

  function OrderText(order: seq<Sort>): string {
    if order == [] then "" else " ORDER BY " + Join(Rendered(SortText, order), ", ")
  }

  function NumberText(word: string, n: Option<int>): string {
    match n case None => "" case Some(n) => word + PrintInt(n)
  }

  function SelectText(s: Select): string {
    "SELECT " + ColumnsText(s.columns) + " FROM " + Quoted(s.table) + WhereText(s.conditions) + OrderText(s.order)
    + NumberText(" LIMIT ", s.limit) + NumberText(" OFFSET ", s.offset)
  }

  // ----- what a query is translated to ------------------------------------------------------

  datatype SqlQuery = SqlQuery(sql: string, params: seq<string>)

  function TestFor(value: string): Option<Test> {
    var word := Lower(value);
    if word == "null" then Some(Null) else if word == "true" then Some(True) else if word == "false" then Some(False)
    else None
  }

  function FilterError(table: Table, f: Filter): Option<QueryError> {
    if !HasColumn(table, f.column) then Some(UnknownColumn(table.name, f.column))
    else if f.operator.Is? && TestFor(f.value).None? then
      Some(InvalidValue(f.column, "IS only supports null, true, false"))
    else None
  }

  /**
   * A filter is refused for a column the table lacks, and a test with IS for every word but null, true
   * and false, in any letter case.
   */
  lemma FilterErrors(table: Table, f: Filter)
    ensures !HasColumn(table, f.column) ==> FilterError(table, f) == Some(UnknownColumn(table.name, f.column))
    ensures HasColumn(table, f.column) ==>
      var word := Lower(f.value);
      FilterError(table, f) == if f.operator == Is && word != "null" && word != "true" && word != "false"
        then Some(InvalidValue(f.column, "IS only supports null, true, false")) else None
  {
    hide HasColumn, Lower;
  }

  predicate Sound(table: Table, filters: seq<Filter>) {
    forall i :: 0 <= i < |filters| ==> FilterError(table, filters[i]).None?
  }

  /** The parameters a filter adds: each of a list of values, trimmed; the value itself; or none. */
  function FilterParams(f: Filter): seq<string> {
    match f.operator
    case Is => []
    case In => NamesIn(f.value)
    case _ => [f.value]
  }

  function ParamsOf(filters: seq<Filter>): seq<string> {
    if filters == [] then []
    else ParamsOf(filters[..|filters| - 1]) + FilterParams(filters[|filters| - 1])
  }

  /** The numbers of `n` placeholders, the first being `first`. */
  function PlacesFrom(first: nat, n: nat): (places: seq<nat>)
    ensures |places| == n && forall i :: 0 <= i < n ==> places[i] == first + i
  {
    seq(n, i requires 0 <= i < n => first + i)
  }

  function ConditionFor(f: Filter, next: nat): Condition
    requires f.operator.Is? ==> TestFor(f.value).Some?
  {
    match f.operator
    case Is => Tests(f.column, TestFor(f.value).value)
    case In => OneOf(f.column, PlacesFrom(next, |FilterParams(f)|))
    case op => Compares(f.column, op, next)
  }

  function ConditionsOf(table: Table, filters: seq<Filter>): (conditions: seq<Condition>)
    requires Sound(table, filters)
    ensures |conditions| == |filters|
  {
    if filters == [] then []
    else
      var n := |filters| - 1;
      assert FilterError(table, filters[n]).None?;
      ConditionsOf(table, filters[..n]) + [ConditionFor(filters[n], |ParamsOf(filters[..n])| + 1)]
  }

  function Translation(table: Table, qp: QueryParams): Select
    requires Sound(table, qp.filters)
  {
    Select(qp.select, table.name, ConditionsOf(table, qp.filters), qp.order, qp.limit, qp.offset)
  }

  // ----- the errors -------------------------------------------------------------------------

  predicate KnownColumns(table: Table, select: Option<seq<string>>) {
    select.Some? ==> forall i :: 0 <= i < |select.value| ==> HasColumn(table, select.value[i])
  }

  predicate Buildable(table: Table, qp: QueryParams) {
    KnownColumns(table, qp.select) && Sound(table, qp.filters)
  }

  /** The first unknown column of the selection, or else the error of the first bad filter. */
  ghost predicate BuildError(table: Table, qp: QueryParams, e: QueryError) {
    if KnownColumns(table, qp.select) then FirstFilterError(table, qp.filters, e) else FirstUnknown(table, qp.select, e)
  }

  ghost predicate FirstUnknown(table: Table, select: Option<seq<string>>, e: QueryError) {
    && select.Some?
    && exists i ::
      && 0 <= i < |select.value| && !HasColumn(table, select.value[i])
      && (forall j :: 0 <= j < i ==> HasColumn(table, select.value[j]))
      && e == UnknownColumn(table.name, select.value[i])
  }

  ghost predicate FirstFilterError(table: Table, filters: seq<Filter>, e: QueryError) {
    exists i ::
      && 0 <= i < |filters| && FilterError(table, filters[i]) == Some(e)
      && (forall j :: 0 <= j < i ==> FilterError(table, filters[j]).None?)
  }

  // ----- the builder ------------------------------------------------------------------------

  method BuildSelect(table: Table, qp: QueryParams) returns (r: Result<SqlQuery, QueryError>)
    ensures r.Ok? <==> Buildable(table, qp)
    ensures r.Ok? ==> r.value == SqlQuery(SelectText(Translation(table, qp)), ParamsOf(qp.filters))
    ensures r.Err? ==> BuildError(table, qp, r.error)
  {
    hide *;
    var error, columns := BuildColumns(table, qp.select);
    if error.Some? {
      UnknownColumnIsError(table, qp, error.value);
      return Err(error.value);
    }
    var front := "SELECT " + columns + " FROM " + Quoted(table.name);
    var conditions, params;
    error, conditions, params := BuildConditions(table, qp.filters);
    if error.Some? {
      BadFilterIsError(table, qp, error.value);
      return Err(error.value);
    }
    NothingBad(table, qp);
    WhereOfTexts(ConditionsOf(table, qp.filters));
    var sql := AppendClauses(front, conditions, qp);
    TextOfTranslation(table, qp);
    return Ok(SqlQuery(sql, params));
  }

  lemma UnknownColumnIsError(table: Table, qp: QueryParams, e: QueryError)
    requires FirstUnknown(table, qp.select, e)
    ensures !Buildable(table, qp) && BuildError(table, qp, e)
  {
    hide HasColumn;
  }

  lemma BadFilterIsError(table: Table, qp: QueryParams, e: QueryError)
    requires KnownColumns(table, qp.select) && FirstFilterError(table, qp.filters, e)
    ensures !Buildable(table, qp) && BuildError(table, qp, e)
  {
    hide HasColumn, FilterError;
  }

  lemma NothingBad(table: Table, qp: QueryParams)
    requires KnownColumns(table, qp.select) && Sound(table, qp.filters)
    ensures Buildable(table, qp)
  {}

  lemma TextOfTranslation(table: Table, qp: QueryParams)
    requires Sound(table, qp.filters)
    ensures SelectText(Translation(table, qp))
         == "SELECT " + ColumnsText(qp.select) + " FROM " + Quoted(table.name) + WhereText(ConditionsOf(table, qp.filters))
            + OrderText(qp.order) + NumberText(" LIMIT ", qp.limit) + NumberText(" OFFSET ", qp.offset)
  {
    hide ColumnsText, Quoted, WhereText, OrderText, NumberText;
  }

  lemma WhereOfTexts(conditions: seq<Condition>)
    ensures var texts := Rendered(ConditionText, conditions);
      WhereText(conditions) == if texts == [] then "" else " WHERE " + Join(texts, " AND ")
  {
    hide ConditionText, Join;
  }

  method BuildColumns(table: Table, select: Option<seq<string>>) returns (error: Option<QueryError>, columns: string)
    ensures error.None? <==> KnownColumns(table, select)
    ensures error.None? ==> columns == ColumnsText(select)
    ensures error.Some? ==> FirstUnknown(table, select, error.value)
  {
    hide HasColumn, Join, Rendered;
    match select
    case None => return None, "*";
    case Some(cols) =>
      for i := 0 to |cols|
        invariant forall j :: 0 <= j < i ==> HasColumn(table, cols[j])
      {
        if !HasColumn(table, cols[i]) {
          return Some(UnknownColumn(table.name, cols[i])), "";
        }
      }
      return None, Join(Rendered(Quoted, cols), ", ");
  }

  /** WHERE, ORDER BY, LIMIT and OFFSET, each only if the query has one. */
  method AppendClauses(front: string, conditions: seq<string>, qp: QueryParams) returns (sql: string)
    ensures sql == front + (if conditions == [] then "" else " WHERE " + Join(conditions, " AND "))
                   + OrderText(qp.order) + NumberText(" LIMIT ", qp.limit) + NumberText(" OFFSET ", qp.offset)
  {
    hide Join, Rendered, PrintInt;
    sql := front;
    if conditions != [] {
      sql := sql + (" WHERE " + Join(conditions, " AND "));
    }
    ghost var where := sql;
    if qp.order != [] {
      sql := sql + (" ORDER BY " + Join(Rendered(SortText, qp.order), ", "));
    }
    assert sql == where + OrderText(qp.order);
    ghost var ordered := sql;
    if qp.limit.Some? {
      sql := sql + (" LIMIT " + PrintInt(qp.limit.value));
    }
    assert sql == ordered + NumberText(" LIMIT ", qp.limit);
    ghost var limited := sql;
    if qp.offset.Some? {
      sql := sql + (" OFFSET " + PrintInt(qp.offset.value));
    }
    assert sql == limited + NumberText(" OFFSET ", qp.offset);
  }

  /** The loop over the filters. */
  method BuildConditions(table: Table, filters: seq<Filter>)
    returns (error: Option<QueryError>, conditions: seq<string>, params: seq<string>)
    ensures error.None? <==> Sound(table, filters)
    ensures error.None? ==> conditions == Rendered(ConditionText, ConditionsOf(table, filters)) && params == ParamsOf(filters)
    ensures error.Some? ==> FirstFilterError(table, filters, error.value)
  {
    conditions, params := [], [];
    var paramIdx := 1;
    for i := 0 to |filters|
      invariant Sound(table, filters[..i])
      invariant conditions == Rendered(ConditionText, ConditionsOf(table, filters[..i]))
      invariant params == ParamsOf(filters[..i]) && paramIdx == |params| + 1
    {
      var filter := filters[i];
      hide ConditionText, ConditionFor, FilterParams, FilterError, ConditionsOf, ParamsOf;
      hide Sound, FirstFilterError, Rendered;
      error := CheckFilter(table, filter);
      if error.Some? {
        FirstBad(table, filters, i);
        return;
      }
      ConditionsStep(table, filters, i);
      IsTested(table, filter);
      RenderedStep(ConditionText, ConditionsOf(table, filters[..i]), ConditionFor(filter, paramIdx));
      var condition;
      condition, params, paramIdx := BuildCondition(filter, params, paramIdx);
      conditions := conditions + [condition];
    }
    assert filters[..|filters|] == filters;
    error := None;
  }

  method CheckFilter(table: Table, filter: Filter) returns (error: Option<QueryError>)
    ensures error == FilterError(table, filter)
  {
    hide TestFor, ColumnNamed;
    if !HasColumn(table, filter.column) {
      return Some(UnknownColumn(table.name, filter.column));
    }
    if filter.operator.Is? && TestFor(filter.value).None? {
      return Some(InvalidValue(filter.column, "IS only supports null, true, false"));
    }
    return None;
  }

  lemma IsTested(table: Table, filter: Filter)
    requires FilterError(table, filter).None?
    ensures filter.operator.Is? ==> TestFor(filter.value).Some?
  {}

  lemma FirstBad(table: Table, filters: seq<Filter>, i: nat)
    requires i < |filters| && Sound(table, filters[..i]) && FilterError(table, filters[i]).Some?
    ensures FirstFilterError(table, filters, FilterError(table, filters[i]).value) && !Sound(table, filters)
  {
    hide FilterError;
    assert forall j :: 0 <= j < i ==> filters[..i][j] == filters[j];
  }

  lemma ConditionsStep(table: Table, filters: seq<Filter>, i: nat)
    requires i < |filters| && Sound(table, filters[..i]) && FilterError(table, filters[i]).None?
    ensures Sound(table, filters[..i + 1])
    ensures ParamsOf(filters[..i + 1]) == ParamsOf(filters[..i]) + FilterParams(filters[i])
    ensures ConditionsOf(table, filters[..i + 1])
         == ConditionsOf(table, filters[..i]) + [ConditionFor(filters[i], |ParamsOf(filters[..i])| + 1)]
  {
    hide FilterError, FilterParams, ConditionFor;
    assert filters[..i + 1][..i] == filters[..i] && filters[..i + 1][i] == filters[i];
    assert forall j :: 0 <= j < i ==> filters[..i + 1][j] == filters[..i][j];
  }

  method BuildCondition(filter: Filter, given: seq<string>, next: nat)
    returns (condition: string, params: seq<string>, paramIdx: nat)
    requires filter.operator.Is? ==> TestFor(filter.value).Some?
    requires next == |given| + 1
    ensures condition == ConditionText(ConditionFor(filter, next))
    ensures params == given + FilterParams(filter) && paramIdx == |params| + 1
  {
    hide TestFor, Split, Trim, Join, Print;
    params, paramIdx := given, next;
    match filter.operator
    case Is => condition := Quoted(filter.column) + " IS " + TestWord(TestFor(filter.value).value);
    case In =>
      var values := Split(filter.value, ',');
      var placeholders: seq<string> := [];
      for k := 0 to |values|
        invariant params == given + NamesIn(filter.value)[..k] && paramIdx == |params| + 1
        invariant placeholders == Rendered(Placeholder, PlacesFrom(next, k))
      {
        params := params + [Trim(values[k])];
        placeholders := placeholders + [Placeholder(paramIdx)];
        paramIdx := paramIdx + 1;
      }
      condition := Quoted(filter.column) + "::text IN (" + Join(placeholders, ", ") + ")";
    case op =>
      params := params + [filter.value];
      condition := Quoted(filter.column) + "::text " + ToSql(op) + " " + Placeholder(paramIdx);
      paramIdx := paramIdx + 1;
  }
}
