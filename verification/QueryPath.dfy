/** The whole query path: from the client's fluent calls to the rows the database returns. */
module QueryPath {
  import opened Wrappers
  import opened Schema
  import opened QueryFilter
  import opened SdkQuery
  import opened ListTransport
  import opened SelectBuilder
  import opened SelectReader
  import opened SelectMeaning
  import opened RowVisibility
  import AccessRules

  /** Queries of the same meaning are built or refused alike, and have the same answer. */
  lemma SameMeaningSameAnswer(p: QueryParams, q: QueryParams, table: Table, rows: seq<Row>, db: Database)
    requires SameMeaning(p, q)
    ensures Buildable(table, p) <==> Buildable(table, q)
    ensures Answer(p, table, rows, db) == Answer(q, table, rows, db)
  {
    hide FilterError, Satisfies, HasColumn;
    SoundMembers(table, p.filters);
    SoundMembers(table, q.filters);
    forall row: Row
      ensures SatisfiesAll(p.filters, row, db) == SatisfiesAll(q.filters, row, db)
    {}
    KeptAlike(rows, row => SatisfiesAll(p.filters, row, db), row => SatisfiesAll(q.filters, row, db));
    hide Sound, Kept, Project, ColumnNames, Take;
  }

  lemma SoundMembers(table: Table, filters: seq<Filter>)
    ensures Sound(table, filters) <==> forall f :: f in filters ==> FilterError(table, f).None?
  {
    hide FilterError;
  }

  /** The calls determine the query up to the order of its filters. */
  lemma IntendedUnique(calls: seq<Call>, p: QueryParams, q: QueryParams)
    requires Intended(calls, p) && Intended(calls, q)
    ensures SameMeaning(p, q)
  {
    hide LastIn, NamesIn;
  }

  /** The rows of a parsed query by way of the SQL that is built for it, or nothing if PostgreSQL refuses that SQL. */
  function RowsOf(params: seq<Param>, table: Table, rows: seq<Row>, db: Database): Option<seq<Record>>
    requires WellFormed(params) && Buildable(table, Meaning(params))
  {
    var qp := Meaning(params);
    match ReadSelect(SelectText(Translation(table, qp)))
    case Some(s) => Evaluate(s, ParamsOf(qp.filters), table, rows, db)
    case None => None
  }

  /**
   * Over either transport, in any order of any map on the way, the client gets the answer of the
   * query its calls intend, on the rows that transport lets it see (`SameRowsIff` says when these are
   * the same): every filter column by its last call, and the last selection, order, limit and offset.
   * If a selected or filtered column is unknown, the builder refuses on both transports; if only a
   * column of the order is, PostgreSQL does.
   */
  lemma ClientGetsItsRows(calls: seq<Call>, direct: seq<Param>, viaGrpc: seq<Param>, q: QueryParams,
                          table: Table, rows: seq<Row>, guard: Guard, header: Option<string>, connection: Connection,
                          db: Database, same: AccessRules.Equality)
    requires AllUsable(calls) && Intended(calls, q)
    requires LastIn(calls, LimitSlot).Some? ==> LastIn(calls, LimitSlot).value.n >= 1
    requires LastIn(calls, OffsetSlot).Some? ==> LastIn(calls, OffsetSlot).value.n >= 0
    requires Enumerates(direct, Sent(calls))
    requires Enumerates(viaGrpc, Passed(RequestFor(UrlOf(Sent(calls)))))
    requires PlainTable(table) && PlainOrder(q.order)
    ensures WellFormed(direct) && WellFormed(viaGrpc)
    ensures Buildable(table, Meaning(direct)) <==> Buildable(table, q)
    ensures Buildable(table, Meaning(viaGrpc)) <==> Buildable(table, q)
    ensures var seen, seenViaGrpc := Visible(rows, guard, Direct(header), same), Visible(rows, guard, connection, same);
      Buildable(table, q) ==>
        && RowsOf(direct, table, seen, db) == Expected(q, table, seen, db)
        && RowsOf(viaGrpc, table, seenViaGrpc, db) == Expected(q, table, seenViaGrpc, db)
  {
    hide Enumerates, Sent, Passed, RequestFor, UrlOf, WellFormed, Meaning, Buildable, Answer, AllUsable, PlainTable,
         ReadSelect, SelectText, Translation, Evaluate, LastIn, PlainOrder, Visible;
    CallsThroughGateway(calls, direct, viaGrpc);
    IntendedUnique(calls, q, Meaning(direct));
    var d, g := Meaning(direct), Meaning(viaGrpc);
    var seen, seenViaGrpc := Visible(rows, guard, Direct(header), same), Visible(rows, guard, connection, same);
    SameMeaningSameAnswer(q, d, table, seen, db);
    SameMeaningSameAnswer(q, d, table, seenViaGrpc, db);
    SameMeaningSameAnswer(d, g, table, seenViaGrpc, db);
    IntendedCounts(calls, d);
    if Buildable(table, q) {
      SelectMeansQuery(table, d, seen, db);
      SelectMeansQuery(table, g, seenViaGrpc, db);
    }
  }

  /**
   * Whole tables of rows for their owners: a signed-in user who owns the one row is answered with it
   * directly, and with nothing over a pooled connection that is subject to row level security.
   */
  lemma OwnRowIsMissed(table: Table, column: string, row: Row, user: string, connection: Connection, db: Database,
                       same: AccessRules.Equality)
    requires forall c :: c in column ==> c != '\"'
    requires user != "" && Owns(user, column, row) && connection.Subject? && Pooled(connection)
    ensures var guard := Guarded(Some(AccessRules.AccessRuleToSql(OwnerRule(column), [[]])));
      var all := QueryParams(None, [], [], None, None);
      && Expected(all, table, Visible([row], guard, Direct(Some(user)), same), db)
           == Some([Project(row, ColumnNames(table))])
      && Expected(all, table, Visible([row], guard, connection, same), db) == Some([])
  {
    hide AccessRules.AccessRuleToSql, AccessRules.Read, Sees, ColumnNames;
    var guard := Guarded(Some(AccessRules.AccessRuleToSql(OwnerRule(column), [[]])));
    OwnerSeen(column, row, Direct(Some(user)), same);
    OwnerSeen(column, row, connection, same);
    OneVisible(row, guard, Direct(Some(user)), same);
    OneVisible(row, guard, connection, same);
    hide Visible, Expected;
    WholeTable(table, Visible([row], guard, Direct(Some(user)), same), db);
    WholeTable(table, Visible([row], guard, connection, same), db);
    var answer := Expected(QueryParams(None, [], [], None, None), table, [row], db).value;
    assert answer == [Project(row, ColumnNames(table))];
  }

  lemma IntendedCounts(calls: seq<Call>, qp: QueryParams)
    requires Intended(calls, qp)
    requires LastIn(calls, LimitSlot).Some? ==> LastIn(calls, LimitSlot).value.n >= 1
    requires LastIn(calls, OffsetSlot).Some? ==> LastIn(calls, OffsetSlot).value.n >= 0
    ensures NonNegative(qp.limit) && NonNegative(qp.offset)
  {
    hide LastIn, NamesIn;
  }
}
