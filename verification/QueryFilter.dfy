/** The list query of the engine (`query/filter.rs`): operators and `parse_query_params`. */
module QueryFilter {
  import opened Wrappers
  import opened Text
  import opened Decimal

  datatype Operator = Eq | Neq | Gt | Gte | Lt | Lte | Like | Ilike | Is | In

  datatype QueryError =
    | UnknownColumn(table: string, column: string)
    | InvalidValue(column: string, reason: string)
    | InvalidOperator(operator: string)

  function FromStr(s: string): Result<Operator, QueryError> {
    if s == "eq" then Ok(Eq) else if s == "neq" then Ok(Neq)
    else if s == "gt" then Ok(Gt) else if s == "gte" then Ok(Gte)
    else if s == "lt" then Ok(Lt) else if s == "lte" then Ok(Lte)
    else if s == "like" then Ok(Like) else if s == "ilike" then Ok(Ilike)
    else if s == "is" then Ok(Is) else if s == "in" then Ok(In)
    else Err(InvalidOperator(s))
  }

  /** The word an operator is written with in a query string. */
  function Word(op: Operator): (s: string)
    ensures FromStr(s) == Ok(op) && '.' !in s
  {
    match op
    case Eq => "eq" case Neq => "neq" case Gt => "gt" case Gte => "gte" case Lt => "lt" case Lte => "lte"
    case Like => "like" case Ilike => "ilike" case Is => "is" case In => "in"
  }

  /** The operators by their words; any other word is refused. */
  lemma OperatorWords(s: string)
    ensures FromStr(s) == Ok(Eq) <==> s == "eq"
    ensures FromStr(s) == Ok(Neq) <==> s == "neq"
    ensures FromStr(s) == Ok(Gt) <==> s == "gt"
    ensures FromStr(s) == Ok(Gte) <==> s == "gte"
    ensures FromStr(s) == Ok(Lt) <==> s == "lt"
    ensures FromStr(s) == Ok(Lte) <==> s == "lte"
    ensures FromStr(s) == Ok(Like) <==> s == "like"
    ensures FromStr(s) == Ok(Ilike) <==> s == "ilike"
    ensures FromStr(s) == Ok(Is) <==> s == "is"
    ensures FromStr(s) == Ok(In) <==> s == "in"
    ensures FromStr(s).Err? ==> FromStr(s).error == InvalidOperator(s)
  {}

  datatype Filter = Filter(column: string, operator: Operator, value: string)

  datatype SortDirection = Asc | Desc

  datatype Sort = Sort(column: string, direction: SortDirection)

  datatype QueryParams = QueryParams(
    select: Option<seq<string>>, filters: seq<Filter>, order: seq<Sort>, limit: Option<int>, offset: Option<int>)

  datatype Param = Param(key: string, value: string)

  predicate Reserved(key: string) {
    key == "select" || key == "order" || key == "limit" || key == "offset"
  }

  // ----- what each parameter means on its own -----------------------------------------------

  /** The column names of `select`, each trimmed. */
  function NamesIn(value: string): (names: seq<string>)
    ensures |names| >= 1
  {
    var parts := Split(value, ',');
    seq(|parts|, i requires 0 <= i < |parts| => Trim(parts[i]))
  }

  /** `column` or `column.direction`; any direction but `desc` is ascending. */
  function SortIn(part: string): Sort {
    var parts := Split(Trim(part), '.');
    Sort(parts[0], if |parts| > 1 && parts[1] == "desc" then Desc else Asc)
  }

  function SortsIn(value: string): (sorts: seq<Sort>)
    ensures |sorts| >= 1
  {
    var parts := Split(value, ',');
    seq(|parts|, i requires 0 <= i < |parts| => SortIn(parts[i]))
  }

  function NotAnInteger(key: string): QueryError {
    InvalidValue(key, "must be an integer")
  }

  /** `operator.value`, split at the first dot. */
  function FilterIn(p: Param): Result<Filter, QueryError> {
    match ReadUntil(p.value, '.')
    case None => Err(InvalidValue(p.key, "filter must be in format operator.value (e.g., eq.Paris)"))
    case Some((word, value)) =>
      match FromStr(word)
      case Ok(op) => Ok(Filter(p.key, op, value))
      case Err(e) => Err(e)
  }

  function ErrorIn(p: Param): Option<QueryError> {
    if p.key == "select" || p.key == "order" then None
    else if p.key == "limit" || p.key == "offset" then
      if ParseI64(p.value).None? then Some(NotAnInteger(p.key)) else None
    else
      match FilterIn(p) case Ok(_) => None case Err(e) => Some(e)
  }

  // ----- what a parameter list means --------------------------------------------------------

  predicate WellFormed(params: seq<Param>) {
    forall i :: 0 <= i < |params| ==> ErrorIn(params[i]).None?
  }

  /** The value of the last parameter with this key. */
  function LastValue(params: seq<Param>, key: string): (r: Option<string>)
    ensures r.Some? ==> Param(key, r.value) in params
    ensures r.None? ==> forall p :: p in params ==> p.key != key
  {
    if params == [] then None
    else
      var n := |params| - 1;
      assert params == params[..n] + [params[n]];
      if params[n].key == key then Some(params[n].value) else LastValue(params[..n], key)
  }

  function FiltersIn(params: seq<Param>): seq<Filter>
    requires WellFormed(params)
  {
    if params == [] then []
    else
      var n := |params| - 1;
      FiltersIn(params[..n]) + if Reserved(params[n].key) then [] else [FilterIn(params[n]).value]
  }

  function OrderIn(params: seq<Param>): seq<Sort> {
    if params == [] then []
    else
      var n := |params| - 1;
      OrderIn(params[..n]) + if params[n].key == "order" then SortsIn(params[n].value) else []
  }

  function IntegerIn(params: seq<Param>, key: string): Option<int> {
    match LastValue(params, key)
    case Some(text) => ParseI64(text)
    case None => None
  }

  /** The last `select`, `limit` and `offset`; every filter and every sort key, in order. */
  function Meaning(params: seq<Param>): QueryParams
    requires WellFormed(params)
  {
    QueryParams(
      match LastValue(params, "select") case Some(text) => Some(NamesIn(text)) case None => None,
      FiltersIn(params), OrderIn(params), IntegerIn(params, "limit"), IntegerIn(params, "offset"))
  }

  /** The error of the first ill-formed parameter. */
  ghost predicate FirstError(params: seq<Param>, e: QueryError) {
    exists i :: 0 <= i < |params| && ErrorIn(params[i]) == Some(e) && forall j :: 0 <= j < i ==> ErrorIn(params[j]).None?
  }

  method ParseQueryParams(params: seq<Param>) returns (r: Result<QueryParams, QueryError>)
    ensures r.Ok? <==> WellFormed(params)
    ensures r.Ok? ==> r.value == Meaning(params)
    ensures r.Err? ==> FirstError(params, r.error)
  {
    hide ParseI64, FromStr, Split, Trim, Reserved;
    var qp := QueryParams(None, [], [], None, None);
    for i := 0 to |params|
      invariant WellFormed(params[..i]) && qp == Meaning(params[..i])
    {
      var p := params[i];
      assert params[..i + 1][..i] == params[..i];
      MeaningStep(params, i);
      if p.key == "select" {
        qp := qp.(select := Some(NamesIn(p.value)));
      } else if p.key == "order" {
        var parts := Split(p.value, ',');
        ghost var before := qp.order;
        for k := 0 to |parts|
          invariant qp == Meaning(params[..i]).(order := before + SortsIn(p.value)[..k])
        {
          qp := qp.(order := qp.order + [SortIn(parts[k])]);
        }
      } else if p.key == "limit" {
        var n := ParseI64(p.value);
        if n.None? {
          return Err(NotAnInteger("limit"));
        }
        qp := qp.(limit := n);
      } else if p.key == "offset" {
        var n := ParseI64(p.value);
        if n.None? {
          return Err(NotAnInteger("offset"));
        }
        qp := qp.(offset := n);
      } else {
        var f := FilterIn(p);
        if f.Err? {
          return Err(f.error);
        }
        qp := qp.(filters := qp.filters + [f.value]);
      }
    }
    assert params[..|params|] == params;
    return Ok(qp);
  }

  /** One parameter more. */
  lemma MeaningStep(params: seq<Param>, i: nat)
    requires i < |params| && WellFormed(params[..i])
    ensures WellFormed(params[..i + 1]) <==> ErrorIn(params[i]).None?
    ensures ErrorIn(params[i]).None? ==>
      Meaning(params[..i + 1]) == Extended(Meaning(params[..i]), params[i])
    ensures ErrorIn(params[i]).Some? ==> FirstError(params, ErrorIn(params[i]).value)
  {
    hide *;
    WellFormedStep(params, i);
    if ErrorIn(params[i]).None? {
      LongerMeaning(params, i);
    }
  }

  lemma WellFormedStep(params: seq<Param>, i: nat)
    requires i < |params| && WellFormed(params[..i])
    ensures WellFormed(params[..i + 1]) <==> ErrorIn(params[i]).None?
    ensures ErrorIn(params[i]).Some? ==> FirstError(params, ErrorIn(params[i]).value)
  {
    hide ErrorIn;
    var longer := params[..i + 1];
    assert longer[i] == params[i];
    assert forall j :: 0 <= j < i ==> params[..i][j] == params[j] == longer[j];
    if ErrorIn(params[i]).None? {
      assert WellFormed(longer);
    } else {
      assert !WellFormed(longer);
    }
  }

  lemma LongerMeaning(params: seq<Param>, i: nat)
    requires i < |params| && WellFormed(params[..i]) && ErrorIn(params[i]).None? && WellFormed(params[..i + 1])
    ensures Meaning(params[..i + 1]) == Extended(Meaning(params[..i]), params[i])
  {
    KeysApart();
    hide ErrorIn, FilterIn, NamesIn, SortsIn, ParseI64, WellFormed, Reserved;
    var longer := params[..i + 1];
    assert longer[..i] == params[..i] && longer[i] == params[i];
    LastValueStep(params, i, "select");
    LastValueStep(params, i, "limit");
    LastValueStep(params, i, "offset");
    hide LastValue;
  }

  lemma KeysApart()
    ensures Reserved("select") && Reserved("order") && Reserved("limit") && Reserved("offset")
    ensures "select" != "order" && "select" != "limit" && "select" != "offset"
    ensures "order" != "limit" && "order" != "offset" && "limit" != "offset"
    ensures forall key :: Reserved(key) ==> key == "select" || key == "order" || key == "limit" || key == "offset"
  {}

  lemma LastValueStep(params: seq<Param>, i: nat, key: string)
    requires i < |params|
    ensures LastValue(params[..i + 1], key)
         == if params[i].key == key then Some(params[i].value) else LastValue(params[..i], key)
  {
    assert params[..i + 1][..i] == params[..i];
  }

  function Extended(qp: QueryParams, p: Param): QueryParams
    requires ErrorIn(p).None?
  {
    if p.key == "select" then qp.(select := Some(NamesIn(p.value)))
    else if p.key == "order" then qp.(order := qp.order + SortsIn(p.value))
    else if p.key == "limit" then qp.(limit := ParseI64(p.value))
    else if p.key == "offset" then qp.(offset := ParseI64(p.value))
    else qp.(filters := qp.filters + [FilterIn(p).value])
  }

  // ----- parameters taken from a map --------------------------------------------------------

  /** The entries of a map in some order. */
  ghost predicate Enumerates(params: seq<Param>, m: map<string, string>) {
    && (forall p :: p in params <==> p.key in m && m[p.key] == p.value)
    && (forall i, j :: 0 <= i < j < |params| ==> params[i].key != params[j].key)
  }

  predicate DistinctColumns(filters: seq<Filter>) {
    forall i, j :: 0 <= i < j < |filters| ==> filters[i].column != filters[j].column
  }

  /** What a map of parameters means, but for the order of the filters. */
  ghost predicate MeantBy(qp: QueryParams, m: map<string, string>) {
    && qp.select == (if "select" in m then Some(NamesIn(m["select"])) else None)
    && qp.order == (if "order" in m then SortsIn(m["order"]) else [])
    && qp.limit == (if "limit" in m then ParseI64(m["limit"]) else None)
    && qp.offset == (if "offset" in m then ParseI64(m["offset"]) else None)
    && (forall f :: f in qp.filters <==>
          f.column in m && !Reserved(f.column) && FilterIn(Param(f.column, m[f.column])) == Ok(f))
    && DistinctColumns(qp.filters)
  }

  /** The order in which a map is walked changes nothing but the order of the filters. */
  lemma MapMeaning(params: seq<Param>, m: map<string, string>)
    requires Enumerates(params, m)
    ensures WellFormed(params) <==> forall key :: key in m ==> ErrorIn(Param(key, m[key])).None?
    ensures WellFormed(params) ==> MeantBy(Meaning(params), m)
  {
    hide ErrorIn, FilterIn, NamesIn, SortsIn, ParseI64;
    EnumeratedErrors(params, m);
    EnumeratedValue(params, m, "select");
    EnumeratedValue(params, m, "limit");
    EnumeratedValue(params, m, "offset");
    if WellFormed(params) {
      FiltersOfMap(params);
      OrderOfMap(params);
      hide Reserved;
      if "order" in m {
        assert Param("order", m["order"]) in params;
      }
      forall f
        ensures f in FiltersIn(params) <==>
          f.column in m && !Reserved(f.column) && FilterIn(Param(f.column, m[f.column])) == Ok(f)
      {
        if f in FiltersIn(params) {
          var p :| p in params && Yields(p, f);
          YieldsColumn(p);
        }
        if f.column in m {
          assert Param(f.column, m[f.column]) in params;
          assert Yields(Param(f.column, m[f.column]), f) <==>
            !Reserved(f.column) && FilterIn(Param(f.column, m[f.column])) == Ok(f);
        }
      }
    }
  }

  lemma EnumeratedErrors(params: seq<Param>, m: map<string, string>)
    requires Enumerates(params, m)
    ensures WellFormed(params) <==> forall key :: key in m ==> ErrorIn(Param(key, m[key])).None?
  {
    hide ErrorIn;
    if WellFormed(params) {
      forall key | key in m
        ensures ErrorIn(Param(key, m[key])).None?
      {
        assert Param(key, m[key]) in params;
      }
    } else {
      var i :| 0 <= i < |params| && ErrorIn(params[i]).Some?;
      assert params[i] in params && params[i] == Param(params[i].key, m[params[i].key]);
    }
  }

  lemma EnumeratedValue(params: seq<Param>, m: map<string, string>, key: string)
    requires Enumerates(params, m)
    ensures LastValue(params, key) == if key in m then Some(m[key]) else None
  {
    hide LastValue;
    if key in m {
      assert Param(key, m[key]) in params;
    }
  }

  predicate Yields(p: Param, f: Filter) {
    !Reserved(p.key) && FilterIn(p) == Ok(f)
  }

  /** The filters are what the parameters yield, each column once. */
  ghost predicate Yielded(params: seq<Param>, filters: seq<Filter>) {
    && (forall p, f :: p in params && Yields(p, f) ==> f in filters)
    && (forall f :: f in filters ==> exists p :: p in params && Yields(p, f))
    && DistinctColumns(filters)
  }

  lemma {:induction false} FiltersOfMap(params: seq<Param>)
    requires WellFormed(params)
    requires forall i, j :: 0 <= i < j < |params| ==> params[i].key != params[j].key
    ensures Yielded(params, FiltersIn(params))
  {
    hide Yields, Reserved, FilterIn, ErrorIn;
    if params != [] {
      var n := |params| - 1;
      FiltersOfMap(params[..n]);
      assert params == params[..n] + [params[n]];
      hide Yielded;
      YieldedStep(params[..n], FiltersIn(params[..n]), params[n]);
    }
  }

  lemma YieldedStep(front: seq<Param>, before: seq<Filter>, p: Param)
    requires Yielded(front, before) && ErrorIn(p).None? && forall q :: q in front ==> q.key != p.key
    ensures Reserved(p.key) ==> Yielded(front + [p], before + [])
    ensures !Reserved(p.key) ==> Yielded(front + [p], before + [FilterIn(p).value])
  {
    YieldsColumn(p);
    hide Yields, Reserved, FilterIn, ErrorIn;
    assert before + [] == before;
    forall f | f in before
      ensures f.column != p.key
    {
      var q :| q in front && Yields(q, f);
      YieldsColumn(q);
    }
    var own := if Reserved(p.key) then [] else [FilterIn(p).value];
    forall f | f in before + own
      ensures exists q :: q in front + [p] && Yields(q, f)
    {
      if f in before {
        var q :| q in front && Yields(q, f);
        assert q in front + [p];
      } else {
        assert p in front + [p];
      }
    }
  }

  lemma YieldsColumn(p: Param)
    ensures forall f :: Yields(p, f) ==> f.column == p.key && FilterIn(p) == Ok(f)
    ensures ErrorIn(p).None? && !Reserved(p.key) ==> Yields(p, FilterIn(p).value)
    ensures Reserved(p.key) ==> forall f :: !Yields(p, f)
  {}

  lemma {:induction false} OrderOfMap(params: seq<Param>)
    requires forall i, j :: 0 <= i < j < |params| ==> params[i].key != params[j].key
    ensures forall p :: p in params && p.key == "order" ==> OrderIn(params) == SortsIn(p.value)
    ensures (forall p :: p in params ==> p.key != "order") ==> OrderIn(params) == []
  {
    hide SortsIn;
    if params != [] {
      var n := |params| - 1;
      OrderOfMap(params[..n]);
      assert params == params[..n] + [params[n]];
    }
  }
}
