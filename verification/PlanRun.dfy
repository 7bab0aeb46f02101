/**
 * Executing a plan. The catalogue after any part of a plan has a closed form that depends only
 * on which statements were executed, not on their order; from it follow when a plan runs to
 * the end and what it then leaves behind.
 */
module PlanRun {
  import opened Wrappers
  import opened Normalize
  import opened Schema
  import opened Catalogue
  import opened Plan

  /** Every relation names a desired table that has an `id` column. */
  ghost predicate RelationsResolve(desired: DesiredSchema) {
    forall t, r :: t in desired && r in desired[t].relations ==>
      var u := desired[t].relations[r].table;
      u in desired && "id" in desired[u].columns
  }

  // ----- the closed form --------------------------------------------------------------------

  ghost predicate CreatedBy(desired: DesiredSchema, done: set<Statement>, t: string) {
    t in desired && CreateTableFor(t, desired[t]) in done
  }

  ghost predicate TableIn(desired: DesiredSchema, cat: Catalogue, done: set<Statement>, t: string) {
    (t in cat.tables || CreatedBy(desired, done, t)) && DropTable(t) !in done
  }

  ghost predicate Introduced(desired: DesiredSchema, done: set<Statement>, cell: Cell) {
    && cell.table in desired && cell.name in desired[cell.table].columns
    && (CreatedBy(desired, done, cell.table) ||
        AddColumnFor(cell.table, cell.name, desired[cell.table].columns[cell.name]) in done)
  }

  ghost predicate ColumnIn(desired: DesiredSchema, cat: Catalogue, done: set<Statement>, cell: Cell) {
    && (cell in cat.columns || Introduced(desired, done, cell))
    && DropColumn(cell.table, cell.name) !in done && DropTable(cell.table) !in done
  }

  ghost predicate Wanted(desired: DesiredSchema, cell: Cell) {
    cell.table in desired && cell.name in desired[cell.table].columns
  }

  ghost function ColumnValue(desired: DesiredSchema, cat: Catalogue, done: set<Statement>, cell: Cell): CatColumn
    requires cell in cat.columns || Introduced(desired, done, cell)
  {
    var t, c := cell.table, cell.name;
    if cell in cat.columns then
      var col := cat.columns[cell];
      CatColumn(
        if Wanted(desired, cell) && AlterTypeFor(t, c, desired[t].columns[c]) in done
          then NormalizeType(desired[t].columns[c].colType) else col.sqlType,
        SetNotNull(t, c) !in done && (DropNotNull(t, c) in done || col.nullable),
        if Wanted(desired, cell) && desired[t].columns[c].default.Some? &&
           SetDefault(t, c, desired[t].columns[c].default.value) in done
          then desired[t].columns[c].default
        else if DropDefault(t, c) in done then None
        else col.default)
    else
      Created(DefinitionOf(desired[t].columns[c]), t !in cat.tables && desired[t].columns[c].primaryKey)
  }

  ghost predicate OldKeyIn(cat: Catalogue, done: set<Statement>, t: string) {
    && t in cat.keys && DropTable(t) !in done
    && forall c :: c in cat.keys[t] ==> DropColumn(t, c) !in done
  }

  ghost predicate NewKeyIn(desired: DesiredSchema, cat: Catalogue, done: set<Statement>, t: string) {
    t !in cat.tables && CreatedBy(desired, done, t) && PrimaryKeyOf(desired[t]) != {}
  }

  ghost predicate AddedBy(done: set<Statement>, cell: Cell, con: Constraint) {
    match con
    case References(columns, refTable, refColumns) =>
      AddForeignKey(cell.table, cell.name, columns, refTable, refColumns) in done
    case Unique(columns) => |columns| == 1 && AddUnique(cell.table, cell.name, columns[0]) in done
  }

  ghost predicate ConstraintIn(cat: Catalogue, done: set<Statement>, cell: Cell, con: Constraint) {
    && ((cell in cat.constraints && cat.constraints[cell] == con) || AddedBy(done, cell, con))
    && DropConstraint(cell.table, cell.name) !in done && DropTable(cell.table) !in done
    && forall c :: c in con.columns ==> DropColumn(cell.table, c) !in done
  }

  ghost predicate IndexIn(cat: Catalogue, done: set<Statement>, i: string) {
    && i in cat.indexes && DropIndex(i) !in done && DropTable(cat.indexes[i].table) !in done
    && forall c :: c in cat.indexes[i].columns ==> DropColumn(cat.indexes[i].table, c) !in done
  }

  ghost predicate PolicyIn(cat: Catalogue, done: set<Statement>, cell: Cell) {
    && (cell in cat.policies || exists command :: CreatePolicy(cell.table, cell.name, command) in done)
    && DropPolicy(cell.table, cell.name) !in done && DropTable(cell.table) !in done
  }

  // `st` is the catalogue reached from `cat` by executing the statements of `done`.

  ghost predicate TablesReached(desired: DesiredSchema, cat: Catalogue, done: set<Statement>, st: Catalogue) {
    && st.shown == cat.shown
    && forall t :: t in st.tables <==> TableIn(desired, cat, done, t)
  }

  ghost predicate RlsReached(cat: Catalogue, done: set<Statement>, st: Catalogue) {
    && (forall t :: t in st.rlsEnabled <==> (t in cat.rlsEnabled || EnableRls(t) in done) && DropTable(t) !in done)
    && (forall t :: t in st.rlsForced <==> (t in cat.rlsForced || ForceRls(t) in done) && DropTable(t) !in done)
  }

  ghost predicate ColumnsReached(desired: DesiredSchema, cat: Catalogue, done: set<Statement>, st: Catalogue) {
    forall cell :: ColumnReached(desired, cat, done, st.columns, cell)
  }

  ghost predicate ColumnReached(desired: DesiredSchema, cat: Catalogue, done: set<Statement>,
                                columns: map<Cell, CatColumn>, cell: Cell)
  {
    && (cell in columns <==> ColumnIn(desired, cat, done, cell))
    && (cell in columns ==> columns[cell] == ColumnValue(desired, cat, done, cell))
  }

  ghost predicate KeysReached(desired: DesiredSchema, cat: Catalogue, done: set<Statement>, st: Catalogue) {
    forall t ::
      && (t in st.keys <==> OldKeyIn(cat, done, t) || NewKeyIn(desired, cat, done, t))
      && (t in st.keys ==> st.keys[t] == if t in cat.keys then cat.keys[t] else PrimaryKeyOf(desired[t]))
  }

  ghost predicate ConstraintsReached(cat: Catalogue, done: set<Statement>, st: Catalogue) {
    forall cell, con :: (cell in st.constraints && st.constraints[cell] == con) <==> ConstraintIn(cat, done, cell, con)
  }

  ghost predicate IndexesReached(cat: Catalogue, done: set<Statement>, st: Catalogue) {
    forall i ::
      && (i in st.indexes <==> IndexIn(cat, done, i))
      && (i in st.indexes ==> st.indexes[i] == cat.indexes[i])
  }

  ghost predicate PoliciesReached(cat: Catalogue, done: set<Statement>, st: Catalogue) {
    forall cell :: cell in st.policies <==> PolicyIn(cat, done, cell)
  }

  ghost predicate Reached(desired: DesiredSchema, cat: Catalogue, done: set<Statement>, st: Catalogue) {
    && TablesReached(desired, cat, done, st)
    && ColumnsReached(desired, cat, done, st)
    && KeysReached(desired, cat, done, st)
    && ConstraintsReached(cat, done, st)
    && IndexesReached(cat, done, st)
    && PoliciesReached(cat, done, st)
    && RlsReached(cat, done, st)
  }

  lemma ReachedStart(desired: DesiredSchema, cat: Catalogue)
    requires WellFormed(cat)
    ensures Reached(desired, cat, {}, cat)
  {
    ColumnsStart(desired, cat);
    ConstraintsStart(cat);
    hide ColumnsReached, ConstraintsReached;
  }

  lemma ColumnsStart(desired: DesiredSchema, cat: Catalogue)
    requires WellFormed(cat)
    ensures ColumnsReached(desired, cat, {}, cat)
  {}

  lemma ConstraintsStart(cat: Catalogue)
    ensures ConstraintsReached(cat, {}, cat)
  {
    assert forall cell, con :: !AddedBy({}, cell, con);
  }

  /** The closed form determines the catalogue. */
  lemma ReachedUnique(desired: DesiredSchema, cat: Catalogue, done: set<Statement>, a: Catalogue, b: Catalogue)
    requires Reached(desired, cat, done, a) && Reached(desired, cat, done, b)
    ensures a == b
  {
    assert a.tables == b.tables && a.rlsEnabled == b.rlsEnabled && a.rlsForced == b.rlsForced;
    assert a.columns == b.columns by {
      forall cell
        ensures cell in a.columns <==> cell in b.columns
        ensures cell in a.columns ==> a.columns[cell] == b.columns[cell]
      {
        assert ColumnReached(desired, cat, done, a.columns, cell) && ColumnReached(desired, cat, done, b.columns, cell);
      }
    }
    assert a.keys == b.keys;
    forall cell ensures cell in a.constraints <==> cell in b.constraints
      ensures cell in a.constraints ==> a.constraints[cell] == b.constraints[cell]
    {
      if cell in a.constraints {
        assert ConstraintIn(cat, done, cell, a.constraints[cell]);
      }
      if cell in b.constraints {
        assert ConstraintIn(cat, done, cell, b.constraints[cell]);
      }
    }
    assert a.constraints == b.constraints;
    assert a.indexes == b.indexes;
    assert a.policies == b.policies;
  }

  // ----- one step ---------------------------------------------------------------------------

  /** The situation in which the inputs of the planner stand to each other. */
  ghost predicate Inputs(desired: DesiredSchema, current: CurrentSchema, cat: Catalogue) {
    WellFormed(cat) && Describes(current, cat) && RelationsResolve(desired)
  }

  /** `s` may come next when the statements of `done` have been executed. */
  ghost predicate ComesNext(desired: DesiredSchema, current: CurrentSchema, done: set<Statement>, s: Statement) {
    && Planned(desired, current, s) && s !in done
    && (forall x :: x in done ==> Planned(desired, current, x) && StatementRank(x) <= StatementRank(s))
    && (forall x :: Planned(desired, current, x) && StatementRank(x) < StatementRank(s) ==> x in done)
  }

  /** What a planned statement has to do with the catalogue. */
  ghost predicate Fits(desired: DesiredSchema, cat: Catalogue, s: Statement) {
    match s
    case CreateTable(t, _, _) => t in desired && t !in cat.tables && s == CreateTableFor(t, desired[t])
    case AddColumn(t, c, _) =>
      && t in cat.tables && Wanted(desired, Cell(t, c)) && Cell(t, c) !in cat.columns
      && s == AddColumnFor(t, c, desired[t].columns[c])
    case DropNotNull(t, c) => Cell(t, c) in cat.columns
    case AlterColumnType(t, c, _) =>
      Cell(t, c) in cat.columns && Wanted(desired, Cell(t, c)) && s == AlterTypeFor(t, c, desired[t].columns[c])
    case SetDefault(t, c, e) =>
      Cell(t, c) in cat.columns && Wanted(desired, Cell(t, c)) && desired[t].columns[c].default == Some(e)
    case DropDefault(t, c) =>
      Cell(t, c) in cat.columns && Wanted(desired, Cell(t, c)) && desired[t].columns[c].default == None
    case SetNotNull(t, c) => Cell(t, c) in cat.columns
    case DropColumn(t, c) => Cell(t, c) in cat.columns && !Wanted(desired, Cell(t, c))
    case DropTable(t) => t in cat.tables && t !in desired
    case _ => true
  }

  /** What the bucket order says about the statements already executed. */
  ghost predicate Timely(done: set<Statement>, s: Statement) {
    && (forall t :: DropTable(t) in done ==> s.DropTable?)
    && (forall t, c :: DropColumn(t, c) in done ==> s.DropTable? || s.DropColumn?)
    && (forall t, n :: DropConstraint(t, n) in done ==> s.DropTable? || s.DropColumn? || s.DropConstraint?)
    && (forall t, n :: DropPolicy(t, n) in done ==> !s.CreatePolicy?)
    && (forall i :: DropIndex(i) in done ==> !s.AddUnique?)
    && (forall t, c :: SetNotNull(t, c) in done ==> !s.DropNotNull?)
  }

  lemma NextIsTimely(desired: DesiredSchema, current: CurrentSchema, done: set<Statement>, s: Statement)
    requires ComesNext(desired, current, done, s)
    ensures Timely(done, s)
  {
    LateRanks(s);
    hide Planned;
    assert forall x :: x in done ==> StatementRank(x) <= StatementRank(s);
    forall x | x in done {
      LateRanks(x);
    }
    hide StatementRank, ComesNext;
  }

  lemma LateRanks(s: Statement)
    ensures s.DropTable? <==> StatementRank(s) >= 17
    ensures s.DropColumn? <==> StatementRank(s) == 16
    ensures s.DropConstraint? <==> StatementRank(s) == 15
    ensures s.DropPolicy? <==> StatementRank(s) == 14
    ensures s.DropIndex? <==> StatementRank(s) == 12
    ensures s.CreatePolicy? <==> StatementRank(s) == 10
    ensures s.AddUnique? <==> StatementRank(s) == 9
    ensures s.SetNotNull? <==> StatementRank(s) == 7
    ensures s.DropNotNull? <==> StatementRank(s) == 3
  {}

  lemma AdvanceTables(desired: DesiredSchema, cat: Catalogue, done: set<Statement>, s: Statement, st: Catalogue)
    requires Fits(desired, cat, s) && Timely(done, s)
    requires TablesReached(desired, cat, done, st) && Accepts(st, s)
    ensures TablesReached(desired, cat, done + {s}, Apply(st, s))
  {
    hide CreateTableFor, Accepts, ColumnsAfter, KeysAfter, ConstraintsAfter, IndexesAfter, PoliciesAfter;
    hide RlsEnabledAfter, RlsForcedAfter;
  }

  lemma AdvanceRls(cat: Catalogue, done: set<Statement>, s: Statement, st: Catalogue)
    requires Timely(done, s)
    requires RlsReached(cat, done, st) && Accepts(st, s)
    ensures RlsReached(cat, done + {s}, Apply(st, s))
  {
    hide Accepts, TablesAfter, ColumnsAfter, KeysAfter, ConstraintsAfter, IndexesAfter, PoliciesAfter;
  }

  predicate ChangesColumn(s: Statement) {
    s.DropNotNull? || s.AlterColumnType? || s.SetDefault? || s.DropDefault? || s.SetNotNull?
  }

  lemma AdvanceColumns(desired: DesiredSchema, cat: Catalogue, done: set<Statement>, s: Statement, st: Catalogue)
    requires WellFormed(cat) && Fits(desired, cat, s) && Timely(done, s)
    requires ColumnsReached(desired, cat, done, st) && Accepts(st, s)
    ensures ColumnsReached(desired, cat, done + {s}, Apply(st, s))
  {
    forall cell ensures ColumnReached(desired, cat, done + {s}, ColumnsAfter(st, s), cell) {
      assert ColumnReached(desired, cat, done, st.columns, cell);
      assert cell in cat.columns ==> cell.table in cat.tables;
      hide WellFormed, ColumnReached, Fits, Accepts, Apply, ColumnsAfter, ColumnsReached;
      if s.CreateTable? && s.table == cell.table {
        CreatedColumn(desired, cat, done, s, st, cell);
      } else if s.AddColumn? && s.table == cell.table && s.column == cell.name {
        AddedColumn(desired, cat, done, s, st, cell);
      } else if ChangesColumn(s) && s.table == cell.table && s.column == cell.name {
        ChangedColumn(desired, cat, done, s, st, cell);
      } else {
        OtherColumn(desired, cat, done, s, st, cell);
      }
    }
  }

  lemma CreatedColumn(desired: DesiredSchema, cat: Catalogue, done: set<Statement>, s: Statement, st: Catalogue, cell: Cell)
    requires s.CreateTable? && s.table == cell.table && DropTable(cell.table) !in done
    requires DropColumn(cell.table, cell.name) !in done && (cell in cat.columns ==> cell.table in cat.tables)
    requires Fits(desired, cat, s) && Accepts(st, s)
    requires ColumnReached(desired, cat, done, st.columns, cell)
    ensures ColumnReached(desired, cat, done + {s}, ColumnsAfter(st, s), cell)
  {
    hide NormalizeType;
    assert cell == Cell(s.table, cell.name);
    assert cell.name in s.columns ==> (cell.name in s.primaryKey <==> desired[s.table].columns[cell.name].primaryKey);
  }

  lemma AddedColumn(desired: DesiredSchema, cat: Catalogue, done: set<Statement>, s: Statement, st: Catalogue, cell: Cell)
    requires s.AddColumn? && s.table == cell.table && s.column == cell.name
    requires DropTable(cell.table) !in done && DropColumn(cell.table, cell.name) !in done
    requires Fits(desired, cat, s) && Accepts(st, s)
    requires ColumnReached(desired, cat, done, st.columns, cell)
    ensures ColumnReached(desired, cat, done + {s}, ColumnsAfter(st, s), cell)
  {
    hide NormalizeType;
  }

  lemma ChangedColumn(desired: DesiredSchema, cat: Catalogue, done: set<Statement>, s: Statement, st: Catalogue, cell: Cell)
    requires ChangesColumn(s) && s.table == cell.table && s.column == cell.name
    requires s.DropNotNull? ==> SetNotNull(cell.table, cell.name) !in done
    requires Fits(desired, cat, s) && Accepts(st, s)
    requires ColumnReached(desired, cat, done, st.columns, cell)
    ensures ColumnReached(desired, cat, done + {s}, ColumnsAfter(st, s), cell)
  {
    hide NormalizeType;
  }

  lemma SameValue(desired: DesiredSchema, cat: Catalogue, done: set<Statement>, s: Statement, cell: Cell)
    requires s.CreateTable? || s.AddColumn? || ChangesColumn(s) ==>
      s.table != cell.table || (!s.CreateTable? && s.column != cell.name)
    requires cell in cat.columns || Introduced(desired, done, cell)
    ensures ColumnValue(desired, cat, done + {s}, cell) == ColumnValue(desired, cat, done, cell)
  {
    hide NormalizeType, CreateTableFor, AddColumnFor, AlterTypeFor;
  }

  lemma OtherColumn(desired: DesiredSchema, cat: Catalogue, done: set<Statement>, s: Statement, st: Catalogue, cell: Cell)
    requires s.CreateTable? || s.AddColumn? || ChangesColumn(s) ==>
      s.table != cell.table || (!s.CreateTable? && s.column != cell.name)
    requires Fits(desired, cat, s) && Accepts(st, s)
    requires ColumnReached(desired, cat, done, st.columns, cell)
    ensures ColumnReached(desired, cat, done + {s}, ColumnsAfter(st, s), cell)
  {
    hide NormalizeType, CreateTableFor, AddColumnFor, AlterTypeFor, Accepts;
    if !s.DropTable? && !s.DropColumn? {
      hide ColumnValue;
      assert ColumnIn(desired, cat, done + {s}, cell) <==> ColumnIn(desired, cat, done, cell);
      if ColumnIn(desired, cat, done, cell) {
        SameValue(desired, cat, done, s, cell);
      }
    }
  }

  lemma AdvanceKeys(desired: DesiredSchema, cat: Catalogue, done: set<Statement>, s: Statement, st: Catalogue)
    requires WellFormed(cat) && Fits(desired, cat, s) && Timely(done, s)
    requires KeysReached(desired, cat, done, st) && Accepts(st, s)
    ensures KeysReached(desired, cat, done + {s}, Apply(st, s))
  {
    var d' := done + {s};
    var after := KeysAfter(st, s);
    hide TablesAfter, ColumnsAfter, ConstraintsAfter, IndexesAfter, PoliciesAfter, RlsEnabledAfter, RlsForcedAfter;
    hide Accepts, CreateTableFor, AddColumnFor, AlterTypeFor, Timely;
    forall t
      ensures t in after <==> OldKeyIn(cat, d', t) || NewKeyIn(desired, cat, d', t)
      ensures t in after ==> after[t] == if t in cat.keys then cat.keys[t] else PrimaryKeyOf(desired[t])
    {
      OldKeyStep(cat, done, s, t);
      NewKeyStep(desired, cat, done, s, t);
      CreatesItsKey(desired, t);
      hide OldKeyIn, CreatedBy;
    }
  }

  lemma CreatesItsKey(desired: DesiredSchema, t: string)
    ensures t in desired ==> CreateTableFor(t, desired[t]).primaryKey == PrimaryKeyOf(desired[t])
  {}

  lemma OldKeyStep(cat: Catalogue, done: set<Statement>, s: Statement, t: string)
    ensures OldKeyIn(cat, done + {s}, t) <==>
      OldKeyIn(cat, done, t) && s != DropTable(t) && !(s.DropColumn? && s.table == t && InKey(cat, t, s.column))
  {}

  lemma NewKeyStep(desired: DesiredSchema, cat: Catalogue, done: set<Statement>, s: Statement, t: string)
    ensures NewKeyIn(desired, cat, done + {s}, t) <==>
      || NewKeyIn(desired, cat, done, t)
      || (t in desired && t !in cat.tables && s == CreateTableFor(t, desired[t]) && PrimaryKeyOf(desired[t]) != {})
  {
    hide CreateTableFor, PrimaryKeyOf;
  }

  lemma AdvanceConstraints(cat: Catalogue, done: set<Statement>, s: Statement, st: Catalogue)
    requires Timely(done, s)
    requires ConstraintsReached(cat, done, st) && Accepts(st, s)
    ensures ConstraintsReached(cat, done + {s}, Apply(st, s))
  {
    var d' := done + {s};
    var after := ConstraintsAfter(st, s);
    hide TablesAfter, ColumnsAfter, KeysAfter, IndexesAfter, PoliciesAfter, RlsEnabledAfter, RlsForcedAfter;
    forall cell, con
      ensures (cell in after && after[cell] == con) <==> ConstraintIn(cat, d', cell, con)
    {
      var before := ConstraintIn(cat, done, cell, con);
      if s.AddUnique? && con.Unique? && |con.columns| == 1 {
        assert con.columns == [con.columns[0]];
      }
    }
  }

  lemma AdvanceIndexes(cat: Catalogue, done: set<Statement>, s: Statement, st: Catalogue)
    requires Timely(done, s)
    requires IndexesReached(cat, done, st) && Accepts(st, s)
    ensures IndexesReached(cat, done + {s}, Apply(st, s))
  {
    hide TablesAfter, ColumnsAfter, KeysAfter, ConstraintsAfter, PoliciesAfter, RlsEnabledAfter, RlsForcedAfter;
    hide Accepts;
  }

  lemma AdvancePolicies(cat: Catalogue, done: set<Statement>, s: Statement, st: Catalogue)
    requires Timely(done, s)
    requires PoliciesReached(cat, done, st) && Accepts(st, s)
    ensures PoliciesReached(cat, done + {s}, Apply(st, s))
  {
    hide TablesAfter, ColumnsAfter, KeysAfter, ConstraintsAfter, IndexesAfter, RlsEnabledAfter, RlsForcedAfter;
  }
}
