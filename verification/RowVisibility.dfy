/**
 * The rows each transport reads. `list_rows` of `api/routes.rs` runs under `set_rls_context`;
 * `list_rows` of `grpc/server.rs` uses a pooled connection as it is. Row level security therefore
 * judges the two by different users.
 */
module RowVisibility {
  import opened Wrappers
  import opened Schema
  import opened SelectMeaning
  import AccessRules
  import Text

  /** Row level security of a table: off, or forced, with the clause of the policy for reading if there is one. */
  datatype Guard = Open | Guarded(clause: Option<string>)

  /** Who runs the statement: a role exempt from row level security, or one subject to it, with `request.user_id`. */
  datatype Connection = Exempt | Subject(setting: Option<string>)

  /** The connection of a direct request after `set_rls_context`. */
  function Direct(header: Option<string>): Connection {
    Subject(AccessRules.UserSetting(header))
  }

  /** A pooled connection: the setting was never made, or an earlier transaction left it empty. */
  predicate Pooled(connection: Connection) {
    connection.Subject? ==> connection.setting == None || connection.setting == Some("")
  }

  function CellsOf(row: Row): AccessRules.Row {
    c => Cell(row, c)
  }

  predicate Sees(guard: Guard, connection: Connection, row: Row, same: AccessRules.Equality) {
    match guard
    case Open => true
    case Guarded(None) => connection.Exempt?
    case Guarded(Some(clause)) =>
      connection.Exempt? || AccessRules.Holds(clause, CellsOf(row), connection.setting, same)
  }

  function Visible(rows: seq<Row>, guard: Guard, connection: Connection, same: AccessRules.Equality): seq<Row> {
    Kept(rows, row => Sees(guard, connection, row, same))
  }

  /** Without row level security, or for an exempt role, every row is seen; without a policy, none by any other. */
  lemma SeenWithoutClause(rows: seq<Row>, connection: Connection, same: AccessRules.Equality, clause: Option<string>)
    ensures Visible(rows, Open, connection, same) == rows
    ensures Visible(rows, Guarded(clause), Exempt, same) == rows
    ensures connection.Subject? ==> Visible(rows, Guarded(None), connection, same) == []
  {
    hide AccessRules.Holds;
    KeptAll(rows, row => Sees(Open, connection, row, same));
    KeptAll(rows, row => Sees(Guarded(clause), Exempt, row, same));
    Text.SomeElement(Visible(rows, Guarded(None), connection, same));
  }

  /** Two selections of the same rows are equal exactly if they agree on every row. */
  lemma {:induction false} KeptEqualIff(rows: seq<Row>, p: Row -> bool, q: Row -> bool)
    ensures Kept(rows, p) == Kept(rows, q) <==> forall row :: row in rows ==> p(row) == q(row)
  {
    if rows != [] {
      var row := rows[0];
      KeptEqualIff(rows[1..], p, q);
      KeptHead(rows, p);
      KeptHead(rows, q);
      assert rows == [row] + rows[1..];
      assert row in Kept(rows, p) <==> p(row);
      assert row in Kept(rows, q) <==> q(row);
      hide Kept;
      PrefixCancels(if p(row) then [row] else [], Kept(rows[1..], p), Kept(rows[1..], q));
    }
  }

  lemma KeptHead(rows: seq<Row>, p: Row -> bool)
    requires rows != []
    ensures Kept(rows, p) == (if p(rows[0]) then [rows[0]] else []) + Kept(rows[1..], p)
  {}

  lemma PrefixCancels(head: seq<Row>, s: seq<Row>, t: seq<Row>)
    ensures head + s == head + t <==> s == t
  {
    assert (head + s)[|head|..] == s && (head + t)[|head|..] == t;
  }

  /** A rule's verdict on a row for a connection. */
  predicate Passes(rule: AccessRule, connection: Connection, row: Row, same: AccessRules.Equality) {
    match connection
    case Exempt => true
    case Subject(setting) => AccessRules.Admits(rule, CellsOf(row), setting, same)
  }

  /**
   * A table with a rule for reading: the two transports show the same rows, in the same order, if and
   * only if the rule gives the same verdict on every row for the setting of the request and for the
   * pooled connection.
   */
  lemma SameRowsIff(rule: AccessRule, orders: seq<seq<string>>, rows: seq<Row>, header: Option<string>,
                    connection: Connection, same: AccessRules.Equality)
    requires AccessRules.WalksRule(orders, rule) && AccessRules.QuotableRule(rule) && AccessRules.FilteredRule(rule)
    ensures var guard := Guarded(Some(AccessRules.AccessRuleToSql(rule, orders)));
      Visible(rows, guard, Direct(header), same) == Visible(rows, guard, connection, same) <==>
      forall row :: row in rows ==> Passes(rule, Direct(header), row, same) == Passes(rule, connection, row, same)
  {
    var guard := Guarded(Some(AccessRules.AccessRuleToSql(rule, orders)));
    forall row: Row
      ensures Sees(guard, Direct(header), row, same) == Passes(rule, Direct(header), row, same)
      ensures Sees(guard, connection, row, same) == Passes(rule, connection, row, same)
    {
      SeesIff(rule, orders, row, Direct(header), same);
      SeesIff(rule, orders, row, connection, same);
    }
    hide Sees, Passes;
    KeptEqualIff(rows, row => Sees(guard, Direct(header), row, same), row => Sees(guard, connection, row, same));
  }

  lemma SeesIff(rule: AccessRule, orders: seq<seq<string>>, row: Row, connection: Connection, same: AccessRules.Equality)
    requires AccessRules.WalksRule(orders, rule) && AccessRules.QuotableRule(rule) && AccessRules.FilteredRule(rule)
    ensures Sees(Guarded(Some(AccessRules.AccessRuleToSql(rule, orders))), connection, row, same)
       <==> Passes(rule, connection, row, same)
  {
    hide AccessRules.Read, AccessRules.AccessRuleToSql, AccessRules.Eval, AccessRules.Admits;
    if connection.Subject? {
      AccessRules.ClauseAdmitsExactly(rule, orders, CellsOf(row), connection.setting, same);
    }
  }

  lemma OneVisible(row: Row, guard: Guard, connection: Connection, same: AccessRules.Equality)
    ensures Visible([row], guard, connection, same) == if Sees(guard, connection, row, same) then [row] else []
  {
    hide Sees;
    assert [row][1..] == [];
    assert Kept([row][1..], r => Sees(guard, connection, r, same)) == [];
  }

  function OwnerRule(column: string): AccessRule {
    Conditions([IsOwner(Some(column))])
  }

  predicate Owns(user: string, column: string, row: Row) {
    Cell(row, column) == Some(user)
  }

  /**
   * A table whose rows are for their owners, read by a user: over an exempt connection the same rows
   * appear only if the user owns all of them; over one without a setting, only if the user owns none;
   * and over one whose setting was left empty, only if the user's rows are those of the empty user.
   */
  lemma OwnersRowsIff(column: string, rows: seq<Row>, user: string, connection: Connection, same: AccessRules.Equality)
    requires forall c :: c in column ==> c != '\"'
    requires Pooled(connection)
    ensures var guard := Guarded(Some(AccessRules.AccessRuleToSql(OwnerRule(column), [[]])));
      Visible(rows, guard, Direct(Some(user)), same) == Visible(rows, guard, connection, same) <==>
      forall row :: row in rows ==>
        (Owns(user, column, row) <==>
         connection.Exempt? || (connection.setting == Some("") && Owns("", column, row)))
  {
    hide AccessRules.Read, AccessRules.AccessRuleToSql, Sees;
    var guard := Guarded(Some(AccessRules.AccessRuleToSql(OwnerRule(column), [[]])));
    forall row: Row
      ensures Sees(guard, Direct(Some(user)), row, same) <==> Owns(user, column, row)
      ensures Sees(guard, connection, row, same) <==>
        connection.Exempt? || (connection.setting == Some("") && Owns("", column, row))
    {
      OwnerSeen(column, row, Direct(Some(user)), same);
      OwnerSeen(column, row, connection, same);
    }
    KeptEqualIff(rows, row => Sees(guard, Direct(Some(user)), row, same), row => Sees(guard, connection, row, same));
  }

  lemma OwnerSeen(column: string, row: Row, connection: Connection, same: AccessRules.Equality)
    requires forall c :: c in column ==> c != '\"'
    ensures Sees(Guarded(Some(AccessRules.AccessRuleToSql(OwnerRule(column), [[]]))), connection, row, same) <==>
      connection.Exempt? || (connection.setting.Some? && Owns(connection.setting.value, column, row))
  {
    hide AccessRules.Read, AccessRules.AccessRuleToSql, Sees;
    var rule := OwnerRule(column);
    SeesIff(rule, [[]], row, connection, same);
    assert rule.conditions[0] == IsOwner(Some(column));
  }
}
