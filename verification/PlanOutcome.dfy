/**
 * When a plan runs: the conditions under which PostgreSQL accepts every statement, and the
 * proof that under exactly those conditions every plan runs to the end, whatever the order in
 * which the planner walked its hash maps, and that all plans leave the same catalogue.
 */
module PlanOutcome {
  import opened Normalize
  import opened Schema
  import opened Catalogue
  import opened Plan
  import opened PlanRun

  // ----- what a caller can check beforehand -------------------------------------------------

  /** Some foreign key of the catalogue already realises the relation. */
  ghost predicate AlreadyRealised(cat: Catalogue, t: string, rel: Relation) {
    exists cell :: cell in cat.constraints && cell.table == t && RealisedBy(cat.constraints[cell], rel)
  }

  ghost predicate RealisedBy(con: Constraint, rel: Relation) {
    con.References? && con.refTable == rel.table && rel.foreignKey in con.columns
  }

  /** PostgreSQL will accept the foreign key for relation `r` of table `t`. */
  ghost predicate Addable(desired: DesiredSchema, cat: Catalogue, t: string, r: string)
    requires RelationsResolve(desired) && t in desired && r in desired[t].relations
  {
    var rel := desired[t].relations[r];
    && Cell(t, ForeignKeyName(t, r)) !in cat.constraints
    && (rel.foreignKey in desired[t].columns || Cell(t, rel.foreignKey) in cat.columns)
    && (if rel.table in cat.tables then HasKey(cat, rel.table, ["id"]) else PrimaryKeyOf(desired[rel.table]) == {"id"})
  }

  /** No relation of the new table has a foreign key named like the UNIQUE constraint on `c`. */
  ghost predicate UniqueNameFree(table: DesiredTable, t: string, c: string) {
    forall r :: r in table.relations ==> ForeignKeyName(t, r) != UniqueName(t, c)
  }

  /** The column of a primary key keeps its type and stays NOT NULL. */
  ghost predicate KeyColumnKept(cat: Catalogue, want: DesiredColumn, have: CatColumn) {
    NormalizeType(want.colType) == Canonical(FromPg(cat.shown.udtOf(have.sqlType))) && !want.nullable
  }

  /**
   * Nothing stands in the way of the migration:
   * - primary-key columns that stay keep their shape;
   * - each foreign key to be added has a free name, a column, and a target whose `id` is a key;
   * - no UNIQUE constraint of a new table shares its name with a foreign key of the table or an index;
   * - no policy to be created exists;
   * - no table to be dropped has a UNIQUE constraint.
   */
  ghost predicate Unblocked(desired: DesiredSchema, cat: Catalogue)
    requires RelationsResolve(desired)
  {
    && KeysKeepShape(desired, cat)
    && ForeignKeysAddable(desired, cat)
    && UniqueNamesFree(desired, cat)
    && PoliciesFree(desired, cat)
    && DroppedTablesLackUnique(desired, cat)
  }

  ghost predicate KeysKeepShape(desired: DesiredSchema, cat: Catalogue) {
    forall t, c :: t in desired && c in desired[t].columns && Cell(t, c) in cat.columns && InKey(cat, t, c) ==>
      KeyColumnKept(cat, desired[t].columns[c], cat.columns[Cell(t, c)])
  }

  ghost predicate ForeignKeysAddable(desired: DesiredSchema, cat: Catalogue)
    requires RelationsResolve(desired)
  {
    forall t, r :: t in desired && r in desired[t].relations ==>
      AlreadyRealised(cat, t, desired[t].relations[r]) || Addable(desired, cat, t, r)
  }

  ghost predicate UniqueNamesFree(desired: DesiredSchema, cat: Catalogue) {
    forall t, c :: t in desired && t !in cat.tables && c in desired[t].columns ==>
      var col := desired[t].columns[c];
      col.unique && !col.primaryKey ==> UniqueNameFree(desired[t], t, c) && UniqueName(t, c) !in cat.indexes
  }

  ghost predicate PoliciesFree(desired: DesiredSchema, cat: Catalogue) {
    forall t, command :: t in desired && desired[t].access.Some? && HasRule(desired[t].access.value, command) ==>
      Cell(t, PolicyName(command, t)) !in cat.policies
  }

  ghost predicate DroppedTablesLackUnique(desired: DesiredSchema, cat: Catalogue) {
    forall cell :: cell in cat.constraints && cat.constraints[cell].Unique? ==> cell.table in desired
  }

  // ----- names ------------------------------------------------------------------------------

  lemma SuffixInjective(p: string, a: string, b: string, q: string)
    requires p + a + q == p + b + q
    ensures a == b
  {
    assert |a| == |b|;
    assert (p + a + q)[|p|..|p| + |a|] == a;
    assert (p + b + q)[|p|..|p| + |b|] == b;
  }

  lemma ForeignKeyNameInjective(t: string, a: string, b: string)
    requires ForeignKeyName(t, a) == ForeignKeyName(t, b)
    ensures a == b
  {
    SuffixInjective("fk_" + t + "_", a, b, "");
    assert "fk_" + t + "_" + a + "" == ForeignKeyName(t, a);
    assert "fk_" + t + "_" + b + "" == ForeignKeyName(t, b);
  }

  lemma UniqueNameInjective(t: string, a: string, b: string)
    requires UniqueName(t, a) == UniqueName(t, b)
    ensures a == b
  {
    SuffixInjective(t + "_", a, b, "_key");
  }

  lemma PolicyNameInjective(a: Command, b: Command, t: string)
    requires PolicyName(a, t) == PolicyName(b, t)
    ensures a == b
  {
    assert PolicyName(ForSelect, t)[8] == 's' && PolicyName(ForInsert, t)[8] == 'i';
    assert PolicyName(ForUpdate, t)[8] == 'u' && PolicyName(ForDelete, t)[8] == 'd';
  }

  // ----- statement by statement -------------------------------------------------------------

  lemma PlannedFits(desired: DesiredSchema, current: CurrentSchema, cat: Catalogue, s: Statement)
    requires Inputs(desired, current, cat) && Planned(desired, current, s)
    ensures Fits(desired, cat, s)
  {
    hide NormalizeType, Canonical, FromPg, NormalizeDefault;
  }

  /** The part of the conditions that concerns one planned statement. */
  ghost predicate Permitted(desired: DesiredSchema, cat: Catalogue, s: Statement) {
    match s
    case DropNotNull(t, c) => !InKey(cat, t, c)
    case AddForeignKey(t, n, cols, u, _) =>
      && Cell(t, n) !in cat.constraints
      && t in desired && u in desired
      && (forall c :: c in cols ==> c in desired[t].columns || Cell(t, c) in cat.columns)
      && (if u in cat.tables then HasKey(cat, u, ["id"]) else PrimaryKeyOf(desired[u]) == {"id"})
    case AddUnique(t, n, c) => t in desired && UniqueNameFree(desired[t], t, c) && n !in cat.indexes
    case CreatePolicy(t, n, _) => Cell(t, n) !in cat.policies
    case DropIndex(i) => i in cat.indexes
    case _ => true
  }

  ghost predicate AllPermitted(desired: DesiredSchema, current: CurrentSchema, cat: Catalogue) {
    forall s :: Planned(desired, current, s) ==> Permitted(desired, cat, s)
  }

  /** The situation just before `s`: the statements of `done` have led from `cat` to `st`. */
  ghost predicate Stage(desired: DesiredSchema, current: CurrentSchema, cat: Catalogue,
                        done: set<Statement>, s: Statement, st: Catalogue)
  {
    && Inputs(desired, current, cat) && ComesNext(desired, current, done, s)
    && Fits(desired, cat, s) && Timely(done, s) && Reached(desired, cat, done, st)
  }

  lemma CreatedBefore(desired: DesiredSchema, current: CurrentSchema, done: set<Statement>, s: Statement, t: string)
    requires ComesNext(desired, current, done, s) && StatementRank(s) > 0 && IsNew(desired, current, t)
    ensures CreatedBy(desired, done, t)
  {
    hide NormalizeType;
    assert Planned(desired, current, CreateTableFor(t, desired[t]));
  }

  lemma AddedBefore(desired: DesiredSchema, current: CurrentSchema, done: set<Statement>, s: Statement, t: string, c: string)
    requires ComesNext(desired, current, done, s) && StatementRank(s) > 2
    requires IsKept(desired, current, t) && c in desired[t].columns && !HasColumn(current[t], c)
    ensures AddColumnFor(t, c, desired[t].columns[c]) in done
  {
    AddColumnPlanned(desired, current, t, c);
    hide Planned, StatementRank, AddColumnFor;
  }

  lemma AddColumnPlanned(desired: DesiredSchema, current: CurrentSchema, t: string, c: string)
    requires IsKept(desired, current, t) && c in desired[t].columns && !HasColumn(current[t], c)
    ensures var x := AddColumnFor(t, c, desired[t].columns[c]);
      Planned(desired, current, x) && StatementRank(x) == 2
  {
    hide NormalizeType;
  }

  lemma TablesPresent(desired: DesiredSchema, current: CurrentSchema, cat: Catalogue,
                      done: set<Statement>, s: Statement, st: Catalogue, t: string)
    requires Stage(desired, current, cat, done, s, st) && StatementRank(s) > 0 && !s.DropTable?
    requires t in desired
    ensures t in st.tables
  {
    hide Planned, StatementRank, ComesNext, NormalizeType, WellFormed, Fits, DescribesColumns;
    if t !in cat.tables {
      CreatedBefore(desired, current, done, s, t);
    }
  }

  lemma ColumnsPresent(desired: DesiredSchema, current: CurrentSchema, cat: Catalogue,
                       done: set<Statement>, s: Statement, st: Catalogue, cell: Cell)
    requires Stage(desired, current, cat, done, s, st) && StatementRank(s) > 2 && !s.DropColumn? && !s.DropTable?
    requires Wanted(desired, cell) || cell in cat.columns
    ensures cell in st.columns
  {
    hide Planned, StatementRank, ComesNext, NormalizeType, Fits, ColumnValue;
    if cell !in cat.columns {
      if cell.table in current {
        AddedBefore(desired, current, done, s, cell.table, cell.name);
      } else {
        CreatedBefore(desired, current, done, s, cell.table);
      }
    }
    assert ColumnReached(desired, cat, done, st.columns, cell);
  }

  lemma AcceptsCreateTable(desired: DesiredSchema, current: CurrentSchema, cat: Catalogue,
                           done: set<Statement>, s: Statement, st: Catalogue)
    requires Stage(desired, current, cat, done, s, st) && s.CreateTable?
    ensures Accepts(st, s)
  {
    hide NormalizeType, StatementRank, Describes, WellFormed, RelationsResolve;
    hide ColumnsReached, KeysReached, ConstraintsReached, IndexesReached, PoliciesReached, RlsReached;
  }

  lemma AcceptsRls(desired: DesiredSchema, current: CurrentSchema, cat: Catalogue,
                   done: set<Statement>, s: Statement, st: Catalogue)
    requires Stage(desired, current, cat, done, s, st) && (s.EnableRls? || s.ForceRls?)
    ensures Accepts(st, s)
  {
    hide NormalizeType, Describes, WellFormed, RelationsResolve;
    hide ColumnsReached, KeysReached, ConstraintsReached, IndexesReached, PoliciesReached, RlsReached;
    TablesPresent(desired, current, cat, done, s, st, s.table);
  }

  lemma AcceptsAddColumn(desired: DesiredSchema, current: CurrentSchema, cat: Catalogue,
                         done: set<Statement>, s: Statement, st: Catalogue)
    requires Stage(desired, current, cat, done, s, st) && s.AddColumn?
    ensures Accepts(st, s)
  {
    hide NormalizeType, WellFormed, RelationsResolve, ColumnValue;
    hide KeysReached, ConstraintsReached, IndexesReached, PoliciesReached, RlsReached;
    TablesPresent(desired, current, cat, done, s, st, s.table);
    hide StatementRank, TablesReached;
    assert ColumnReached(desired, cat, done, st.columns, Cell(s.table, s.column));
  }

  /** Before the first drop, the keys of existing tables are as they were. */
  lemma KeysAsBefore(desired: DesiredSchema, cat: Catalogue, done: set<Statement>, s: Statement, st: Catalogue, t: string)
    requires Timely(done, s) && KeysReached(desired, cat, done, st) && !s.DropColumn? && !s.DropTable?
    requires t in cat.tables
    ensures t in st.keys <==> t in cat.keys
    ensures t in cat.keys ==> st.keys[t] == cat.keys[t]
  {}

  /** Before the first drop, the constraints are the old ones and the added ones. */
  lemma ConstraintsAsBefore(cat: Catalogue, done: set<Statement>, s: Statement, st: Catalogue, cell: Cell, con: Constraint)
    requires Timely(done, s) && ConstraintsReached(cat, done, st)
    requires !s.DropConstraint? && !s.DropColumn? && !s.DropTable?
    ensures (cell in st.constraints && st.constraints[cell] == con) <==>
      (cell in cat.constraints && cat.constraints[cell] == con) || AddedBy(done, cell, con)
  {
    var here := ConstraintIn(cat, done, cell, con);
  }

  /** The parts of a stage. */
  lemma StageParts(desired: DesiredSchema, current: CurrentSchema, cat: Catalogue,
                   done: set<Statement>, s: Statement, st: Catalogue)
    requires Stage(desired, current, cat, done, s, st)
    ensures WellFormed(cat) && Describes(current, cat) && RelationsResolve(desired) && current.Keys == cat.tables
    ensures ComesNext(desired, current, done, s) && Fits(desired, cat, s) && Timely(done, s)
    ensures Planned(desired, current, s) && s !in done && forall x :: x in done ==> Planned(desired, current, x)
    ensures TablesReached(desired, cat, done, st) && ColumnsReached(desired, cat, done, st)
    ensures KeysReached(desired, cat, done, st) && ConstraintsReached(cat, done, st)
    ensures IndexesReached(cat, done, st) && PoliciesReached(cat, done, st) && RlsReached(cat, done, st)
  {
    hide Planned, Fits, Timely, WellFormed, RelationsResolve, TablesReached, ColumnsReached, KeysReached;
    hide ConstraintsReached, IndexesReached, PoliciesReached, RlsReached;
  }

  lemma AcceptsChange(desired: DesiredSchema, current: CurrentSchema, cat: Catalogue,
                      done: set<Statement>, s: Statement, st: Catalogue)
    requires Stage(desired, current, cat, done, s, st) && ChangesColumn(s)
    ensures Accepts(st, s) <==> Permitted(desired, cat, s)
  {
    var t, c := s.table, s.column;
    hide *;
    StageParts(desired, current, cat, done, s, st);
    ChangeFits(desired, cat, s);
    ColumnsPresent(desired, current, cat, done, s, st, Cell(t, c));
    KeysAsBefore(desired, cat, done, s, st, t);
    ChangeAccepted(desired, cat, s, st);
  }

  lemma ChangeFits(desired: DesiredSchema, cat: Catalogue, s: Statement)
    requires ChangesColumn(s) && Fits(desired, cat, s) && WellFormed(cat)
    ensures !s.DropColumn? && !s.DropTable? && Cell(s.table, s.column) in cat.columns && s.table in cat.tables
    ensures StatementRank(s) > 2
  {
    hide NormalizeType;
  }

  lemma ChangeAccepted(desired: DesiredSchema, cat: Catalogue, s: Statement, st: Catalogue)
    requires ChangesColumn(s) && Cell(s.table, s.column) in st.columns
    requires s.table in st.keys <==> s.table in cat.keys
    requires s.table in cat.keys ==> st.keys[s.table] == cat.keys[s.table]
    ensures Accepts(st, s) <==> Permitted(desired, cat, s)
  {}

  lemma AcceptsForeignKey(desired: DesiredSchema, current: CurrentSchema, cat: Catalogue,
                          done: set<Statement>, s: Statement, st: Catalogue)
    requires Stage(desired, current, cat, done, s, st) && s.AddForeignKey?
    ensures Accepts(st, s) <==> Permitted(desired, cat, s)
  {
    hide *;
    StageParts(desired, current, cat, done, s, st);
    var r := PlannedForeignKey(desired, current, s);
    TargetResolves(desired, s, r);
    RankOfForeignKey(s);
    TablesPresent(desired, current, cat, done, s, st, s.table);
    ForeignKeyNameFree(desired, current, cat, done, s, st, r);
    ForeignKeyTarget(desired, current, cat, done, s, st);
    ForeignKeyColumn(desired, current, cat, done, s, st);
    ForeignKeyAccepted(desired, cat, s, st);
  }

  lemma ForeignKeyAccepted(desired: DesiredSchema, cat: Catalogue, s: Statement, st: Catalogue)
    requires s.AddForeignKey? && s.table in desired && s.refTable in desired && s.refColumns == ["id"]
    requires s.table in st.tables && Cell(s.refTable, "id") in st.columns
    requires Cell(s.table, s.constraint) in st.constraints <==> Cell(s.table, s.constraint) in cat.constraints
    requires forall c :: c in s.cols ==>
      (Cell(s.table, c) in st.columns <==> c in desired[s.table].columns || Cell(s.table, c) in cat.columns)
    requires HasKey(st, s.refTable, ["id"]) <==>
      if s.refTable in cat.tables then HasKey(cat, s.refTable, ["id"]) else PrimaryKeyOf(desired[s.refTable]) == {"id"}
    ensures Accepts(st, s) <==> Permitted(desired, cat, s)
  {
    hide HasKey;
  }

  /** An added foreign key belongs to one relation of its table. */
  ghost predicate ForRelation(desired: DesiredSchema, s: Statement, r: string) {
    && s.AddForeignKey? && s.table in desired && r in desired[s.table].relations
    && s == AddForeignKeyFor(s.table, r, desired[s.table].relations[r])
  }

  lemma PlannedForeignKey(desired: DesiredSchema, current: CurrentSchema, s: Statement) returns (r: string)
    requires s.AddForeignKey? && Planned(desired, current, s)
    ensures ForRelation(desired, s, r) && s.table in desired && r in desired[s.table].relations
    ensures s.table in current ==> !FkExists(current[s.table], desired[s.table].relations[r])
  {
    r :| && r in desired[s.table].relations && s == AddForeignKeyFor(s.table, r, desired[s.table].relations[r])
         && (s.table in current ==> !FkExists(current[s.table], desired[s.table].relations[r]));
  }

  lemma TargetResolves(desired: DesiredSchema, s: Statement, r: string)
    requires RelationsResolve(desired) && ForRelation(desired, s, r)
    ensures s.table in desired && s.refTable in desired && s.refColumns == ["id"]
    ensures Wanted(desired, Cell(s.refTable, "id"))
  {}

  lemma SameForeignKey(desired: DesiredSchema, a: Statement, b: Statement, r: string, q: string)
    requires ForRelation(desired, a, r) && ForRelation(desired, b, q)
    requires a.table == b.table && a.constraint == b.constraint
    ensures a == b
  {
    ForeignKeyNameInjective(a.table, r, q);
  }

  lemma ForeignKeyNameFree(desired: DesiredSchema, current: CurrentSchema, cat: Catalogue,
                           done: set<Statement>, s: Statement, st: Catalogue, r: string)
    requires Stage(desired, current, cat, done, s, st) && s.AddForeignKey? && ForRelation(desired, s, r)
    ensures Cell(s.table, s.constraint) in st.constraints <==> Cell(s.table, s.constraint) in cat.constraints
  {
    hide *;
    StageParts(desired, current, cat, done, s, st);
    var cell := Cell(s.table, s.constraint);
    if cell in cat.constraints {
      ConstraintsAsBefore(cat, done, s, st, cell, cat.constraints[cell]);
    } else if cell in st.constraints {
      ConstraintsAsBefore(cat, done, s, st, cell, st.constraints[cell]);
      var x := Adder(desired, current, done, cell, st.constraints[cell]);
      if x.AddUnique? {
        UniquesComeLater(desired, current, done, s, x);
      } else {
        var q := PlannedForeignKey(desired, current, x);
        SameForeignKey(desired, s, x, r, q);
      }
    }
  }

  /** The executed statement that added a constraint. */
  lemma Adder(desired: DesiredSchema, current: CurrentSchema, done: set<Statement>, cell: Cell, con: Constraint)
    returns (x: Statement)
    requires AddedBy(done, cell, con)
    ensures x in done && (x.AddForeignKey? || x.AddUnique?) && x.table == cell.table && x.constraint == cell.name
    ensures x.AddForeignKey? ==> con == References(x.cols, x.refTable, x.refColumns)
    ensures x.AddUnique? ==> con.Unique?
  {
    match con
    case References(cols, u, refCols) => x := AddForeignKey(cell.table, cell.name, cols, u, refCols);
    case Unique(cols) => x := AddUnique(cell.table, cell.name, cols[0]);
  }

  lemma UniquesComeLater(desired: DesiredSchema, current: CurrentSchema, done: set<Statement>, s: Statement, x: Statement)
    requires ComesNext(desired, current, done, s) && s.AddForeignKey? && x in done
    ensures !x.AddUnique?
  {
    hide Planned;
  }

  lemma ForeignKeyTarget(desired: DesiredSchema, current: CurrentSchema, cat: Catalogue,
                         done: set<Statement>, s: Statement, st: Catalogue)
    requires Stage(desired, current, cat, done, s, st) && s.AddForeignKey?
    requires s.refTable in desired && Wanted(desired, Cell(s.refTable, "id"))
    ensures Cell(s.refTable, "id") in st.columns
    ensures HasKey(st, s.refTable, ["id"]) <==>
      if s.refTable in cat.tables then HasKey(cat, s.refTable, ["id"]) else PrimaryKeyOf(desired[s.refTable]) == {"id"}
  {
    hide *;
    StageParts(desired, current, cat, done, s, st);
    var u := s.refTable;
    RankOfForeignKey(s);
    ColumnsPresent(desired, current, cat, done, s, st, Cell(u, "id"));
    forall cell ensures
      (cell in st.constraints && st.constraints[cell].Unique?) <==> (cell in cat.constraints && cat.constraints[cell].Unique?)
      ensures cell in cat.constraints && cat.constraints[cell].Unique? ==> st.constraints[cell] == cat.constraints[cell]
    {
      NoUniqueYet(desired, current, cat, done, s, st, cell);
    }
    if u in cat.tables {
      KeysAsBefore(desired, cat, done, s, st, u);
      SameKeyOver(cat, st, u);
    } else {
      IsNewHere(desired, current, u);
      CreatedBefore(desired, current, done, s, u);
      NewKeys(desired, cat, done, s, st, u);
      NewKeyOver(desired, st, u);
    }
  }

  lemma RankOfForeignKey(s: Statement)
    requires s.AddForeignKey?
    ensures StatementRank(s) == 8
  {}

  lemma IsNewHere(desired: DesiredSchema, current: CurrentSchema, t: string)
    requires t in desired && t !in current
    ensures IsNew(desired, current, t)
  {}

  lemma SameKeyOver(cat: Catalogue, st: Catalogue, u: string)
    requires u in st.keys <==> u in cat.keys
    requires u in cat.keys ==> st.keys[u] == cat.keys[u]
    requires forall cell ::
      (cell in st.constraints && st.constraints[cell].Unique?) <==> (cell in cat.constraints && cat.constraints[cell].Unique?)
    requires forall cell :: cell in cat.constraints && cat.constraints[cell].Unique? ==>
      cell in st.constraints && st.constraints[cell] == cat.constraints[cell]
    ensures HasKey(st, u, ["id"]) <==> HasKey(cat, u, ["id"])
  {
    if cell :| cell in st.constraints && UniqueOver(st, cell, u, ["id"]) {
      assert cell in cat.constraints && UniqueOver(cat, cell, u, ["id"]);
    }
    if cell :| cell in cat.constraints && UniqueOver(cat, cell, u, ["id"]) {
      assert cell in st.constraints && UniqueOver(st, cell, u, ["id"]);
    }
  }

  lemma NewKeyOver(desired: DesiredSchema, st: Catalogue, u: string)
    requires u in desired
    requires u in st.keys <==> PrimaryKeyOf(desired[u]) != {}
    requires u in st.keys ==> st.keys[u] == PrimaryKeyOf(desired[u])
    requires forall cell :: cell in st.constraints && st.constraints[cell].Unique? ==> cell.table != u
    ensures HasKey(st, u, ["id"]) <==> PrimaryKeyOf(desired[u]) == {"id"}
  {
    assert Elements(["id"]) == {"id"};
  }

  lemma NewKeys(desired: DesiredSchema, cat: Catalogue, done: set<Statement>, s: Statement, st: Catalogue, t: string)
    requires WellFormed(cat) && KeysReached(desired, cat, done, st)
    requires t !in cat.tables && t in desired && CreatedBy(desired, done, t)
    ensures t in st.keys <==> PrimaryKeyOf(desired[t]) != {}
    ensures t in st.keys ==> st.keys[t] == PrimaryKeyOf(desired[t])
    ensures forall cell :: cell in cat.constraints ==> cell.table != t
  {}

  lemma NoUniqueYet(desired: DesiredSchema, current: CurrentSchema, cat: Catalogue,
                    done: set<Statement>, s: Statement, st: Catalogue, cell: Cell)
    requires Stage(desired, current, cat, done, s, st) && s.AddForeignKey?
    ensures cell in st.constraints && st.constraints[cell].Unique? <==>
      cell in cat.constraints && cat.constraints[cell].Unique?
    ensures cell in cat.constraints && cat.constraints[cell].Unique? ==> st.constraints[cell] == cat.constraints[cell]
  {
    hide *;
    StageParts(desired, current, cat, done, s, st);
    if cell in cat.constraints {
      ConstraintsAsBefore(cat, done, s, st, cell, cat.constraints[cell]);
    }
    if cell in st.constraints && st.constraints[cell].Unique? {
      ConstraintsAsBefore(cat, done, s, st, cell, st.constraints[cell]);
      if AddedBy(done, cell, st.constraints[cell]) {
        var x := Adder(desired, current, done, cell, st.constraints[cell]);
        UniquesComeLater(desired, current, done, s, x);
      }
    }
  }

  lemma ForeignKeyColumn(desired: DesiredSchema, current: CurrentSchema, cat: Catalogue,
                         done: set<Statement>, s: Statement, st: Catalogue)
    requires Stage(desired, current, cat, done, s, st) && s.AddForeignKey? && s.table in desired
    ensures forall c :: c in s.cols ==>
      (Cell(s.table, c) in st.columns <==> c in desired[s.table].columns || Cell(s.table, c) in cat.columns)
  {
    hide *;
    StageParts(desired, current, cat, done, s, st);
    RankOfForeignKey(s);
    forall c | c in s.cols
      ensures Cell(s.table, c) in st.columns <==> c in desired[s.table].columns || Cell(s.table, c) in cat.columns
    {
      WantedOrOld(desired, cat, done, st, s.table, c);
      if Wanted(desired, Cell(s.table, c)) || Cell(s.table, c) in cat.columns {
        ColumnsPresent(desired, current, cat, done, s, st, Cell(s.table, c));
      }
    }
  }

  /** A column of the reached catalogue is an old one or a desired one. */
  lemma WantedOrOld(desired: DesiredSchema, cat: Catalogue, done: set<Statement>, st: Catalogue, t: string, c: string)
    requires ColumnsReached(desired, cat, done, st)
    ensures Wanted(desired, Cell(t, c)) <==> t in desired && c in desired[t].columns
    ensures Cell(t, c) in st.columns ==> Wanted(desired, Cell(t, c)) || Cell(t, c) in cat.columns
  {
    hide ColumnValue, CreatedBy, AddColumnFor;
    assert ColumnReached(desired, cat, done, st.columns, Cell(t, c));
  }

  lemma AcceptsUnique(desired: DesiredSchema, current: CurrentSchema, cat: Catalogue,
                      done: set<Statement>, s: Statement, st: Catalogue)
    requires Stage(desired, current, cat, done, s, st) && s.AddUnique?
    ensures Accepts(st, s) <==> Permitted(desired, cat, s)
  {
    hide *;
    StageParts(desired, current, cat, done, s, st);
    PlannedUnique(desired, current, cat, s);
    var cell := Cell(s.table, s.constraint);
    ColumnsPresent(desired, current, cat, done, s, st, Cell(s.table, s.column));
    if r :| r in desired[s.table].relations && ForeignKeyName(s.table, r) == UniqueName(s.table, s.column) {
      ForeignKeyBefore(desired, current, done, s, r);
      var rel := desired[s.table].relations[r];
      ConstraintsAsBefore(cat, done, s, st, cell, References([rel.foreignKey], rel.table, ["id"]));
      UniqueNameTaken(desired[s.table], s.table, s.column, r);
    } else {
      if cell in st.constraints {
        ConstraintsAsBefore(cat, done, s, st, cell, st.constraints[cell]);
        var x := Adder(desired, current, done, cell, st.constraints[cell]);
        if x.AddUnique? {
          PlannedUnique(desired, current, cat, x);
          UniqueNameInjective(s.table, s.column, x.column);
        } else {
          var r := PlannedForeignKey(desired, current, x);
          NamedAfterRelation(desired, x, r);
        }
        assert false;
      }
      UniqueNameUntaken(desired[s.table], s.table, s.column);
    }
    IndexesAsBefore(cat, done, s, st);
    UniqueAccepted(desired, cat, s, st);
  }

  /** Before the first index is dropped, the indexes are as they were. */
  lemma IndexesAsBefore(cat: Catalogue, done: set<Statement>, s: Statement, st: Catalogue)
    requires Timely(done, s) && IndexesReached(cat, done, st) && s.AddUnique?
    ensures forall i :: i in st.indexes <==> i in cat.indexes
  {}

  lemma PlannedUnique(desired: DesiredSchema, current: CurrentSchema, cat: Catalogue, s: Statement)
    requires s.AddUnique? && Planned(desired, current, s) && WellFormed(cat) && current.Keys == cat.tables
    ensures s.table in desired && s.table !in current && s.column in desired[s.table].columns
    ensures s.constraint == UniqueName(s.table, s.column) && Cell(s.table, s.constraint) !in cat.constraints
    ensures Wanted(desired, Cell(s.table, s.column)) && StatementRank(s) == 9
  {}

  lemma ForeignKeyBefore(desired: DesiredSchema, current: CurrentSchema, done: set<Statement>, s: Statement, r: string)
    requires s.AddUnique? && ComesNext(desired, current, done, s)
    requires s.table in desired && s.table !in current && r in desired[s.table].relations
    ensures var rel := desired[s.table].relations[r];
      AddedBy(done, Cell(s.table, ForeignKeyName(s.table, r)), References([rel.foreignKey], rel.table, ["id"]))
  {
    hide NormalizeType;
    assert Planned(desired, current, AddForeignKeyFor(s.table, r, desired[s.table].relations[r]));
  }

  lemma NamedAfterRelation(desired: DesiredSchema, s: Statement, r: string)
    requires ForRelation(desired, s, r)
    ensures s.table in desired && r in desired[s.table].relations && s.constraint == ForeignKeyName(s.table, r)
  {}

  lemma UniqueNameTaken(table: DesiredTable, t: string, c: string, r: string)
    requires r in table.relations && ForeignKeyName(t, r) == UniqueName(t, c)
    ensures !UniqueNameFree(table, t, c)
  {}

  lemma UniqueNameUntaken(table: DesiredTable, t: string, c: string)
    requires !exists r :: r in table.relations && ForeignKeyName(t, r) == UniqueName(t, c)
    ensures UniqueNameFree(table, t, c)
  {}

  lemma UniqueAccepted(desired: DesiredSchema, cat: Catalogue, s: Statement, st: Catalogue)
    requires s.AddUnique? && s.table in desired && Cell(s.table, s.column) in st.columns
    requires Cell(s.table, s.constraint) !in st.constraints <==> UniqueNameFree(desired[s.table], s.table, s.column)
    requires s.constraint in st.indexes <==> s.constraint in cat.indexes
    ensures Accepts(st, s) <==> Permitted(desired, cat, s)
  {}

  lemma AcceptsPolicy(desired: DesiredSchema, current: CurrentSchema, cat: Catalogue,
                      done: set<Statement>, s: Statement, st: Catalogue)
    requires Stage(desired, current, cat, done, s, st) && (s.CreatePolicy? || s.DropPolicy?)
    ensures Accepts(st, s) <==> Permitted(desired, cat, s)
  {
    var creates := s.CreatePolicy?;
    hide *;
    StageParts(desired, current, cat, done, s, st);
    if creates {
      PlannedPolicy(desired, current, s);
      TablesPresent(desired, current, cat, done, s, st, s.table);
      forall command | CreatePolicy(s.table, s.policy, command) in done ensures false {
        PlannedPolicy(desired, current, CreatePolicy(s.table, s.policy, command));
        PolicyNameInjective(command, s.command, s.table);
      }
      PolicyAccepted(desired, cat, done, s, st);
    } else {
      PolicyDropAccepted(desired, cat, s, st);
    }
  }

  lemma PlannedPolicy(desired: DesiredSchema, current: CurrentSchema, s: Statement)
    requires s.CreatePolicy? && Planned(desired, current, s)
    ensures s.table in desired && s.policy == PolicyName(s.command, s.table) && StatementRank(s) > 0
  {
    hide NormalizeType;
  }

  lemma PolicyAccepted(desired: DesiredSchema, cat: Catalogue, done: set<Statement>, s: Statement, st: Catalogue)
    requires s.CreatePolicy? && Timely(done, s) && PoliciesReached(cat, done, st) && s.table in st.tables
    requires forall command :: CreatePolicy(s.table, s.policy, command) !in done
    ensures Accepts(st, s) <==> Permitted(desired, cat, s)
  {
    assert PolicyIn(cat, done, Cell(s.table, s.policy)) <==> Cell(s.table, s.policy) in cat.policies;
  }

  lemma PolicyDropAccepted(desired: DesiredSchema, cat: Catalogue, s: Statement, st: Catalogue)
    requires s.DropPolicy?
    ensures Accepts(st, s) <==> Permitted(desired, cat, s)
  {}

  lemma AcceptsDropIndex(desired: DesiredSchema, current: CurrentSchema, cat: Catalogue,
                         done: set<Statement>, s: Statement, st: Catalogue)
    requires Stage(desired, current, cat, done, s, st) && s.DropIndex?
    ensures Accepts(st, s) <==> Permitted(desired, cat, s)
  {
    hide *;
    StageParts(desired, current, cat, done, s, st);
    IndexStillThere(desired, cat, done, s, st);
  }

  lemma IndexStillThere(desired: DesiredSchema, cat: Catalogue, done: set<Statement>, s: Statement, st: Catalogue)
    requires s.DropIndex? && s !in done && Timely(done, s) && IndexesReached(cat, done, st)
    ensures Accepts(st, s) <==> Permitted(desired, cat, s)
  {}

  lemma AcceptsDropConstraint(desired: DesiredSchema, current: CurrentSchema, cat: Catalogue,
                              done: set<Statement>, s: Statement, st: Catalogue)
    requires Stage(desired, current, cat, done, s, st) && s.DropConstraint?
    ensures Accepts(st, s)
  {
    hide *;
    StageParts(desired, current, cat, done, s, st);
    DroppedForeignKey(desired, current, cat, s);
    ConstraintStillThere(cat, done, s, st);
  }

  lemma DroppedForeignKey(desired: DesiredSchema, current: CurrentSchema, cat: Catalogue, s: Statement)
    requires s.DropConstraint? && Planned(desired, current, s) && Describes(current, cat)
    ensures Cell(s.table, s.constraint) in cat.constraints && cat.constraints[Cell(s.table, s.constraint)].References?
  {}

  lemma ConstraintStillThere(cat: Catalogue, done: set<Statement>, s: Statement, st: Catalogue)
    requires s.DropConstraint? && s !in done && Timely(done, s) && ConstraintsReached(cat, done, st)
    requires Cell(s.table, s.constraint) in cat.constraints && cat.constraints[Cell(s.table, s.constraint)].References?
    ensures Accepts(st, s)
  {
    var cell := Cell(s.table, s.constraint);
    assert ConstraintIn(cat, done, cell, cat.constraints[cell]);
  }

  /** Once the obsolete foreign keys are dropped, every foreign key points at the `id` of a desired table. */
  lemma ForeignKeysJustified(desired: DesiredSchema, current: CurrentSchema, cat: Catalogue,
                             done: set<Statement>, s: Statement, st: Catalogue, cell: Cell)
    requires Stage(desired, current, cat, done, s, st) && (s.DropColumn? || s.DropTable?)
    requires cell in st.constraints && st.constraints[cell].References?
    ensures var con := st.constraints[cell];
      con.refColumns == ["id"] && Wanted(desired, Cell(con.refTable, "id"))
  {
    hide *;
    StageParts(desired, current, cat, done, s, st);
    var con := st.constraints[cell];
    WasConstraint(cat, done, st, cell);
    if cell in cat.constraints && cat.constraints[cell] == con {
      var r := Survivor(desired, current, cat, done, s, cell);
      RelationTarget(desired, cell.table, r);
    } else {
      var x := Adder(desired, current, done, cell, con);
      var r := PlannedForeignKey(desired, current, x);
      TargetResolves(desired, x, r);
    }
  }

  lemma WasConstraint(cat: Catalogue, done: set<Statement>, st: Catalogue, cell: Cell)
    requires ConstraintsReached(cat, done, st) && cell in st.constraints
    ensures
      || (cell in cat.constraints && cat.constraints[cell] == st.constraints[cell])
      || AddedBy(done, cell, st.constraints[cell])
    ensures DropConstraint(cell.table, cell.name) !in done
  {
    assert ConstraintIn(cat, done, cell, st.constraints[cell]);
  }

  /** A foreign key that was not dropped realises a relation. */
  lemma Survivor(desired: DesiredSchema, current: CurrentSchema, cat: Catalogue,
                 done: set<Statement>, s: Statement, cell: Cell) returns (r: string)
    requires WellFormed(cat) && Describes(current, cat) && ComesNext(desired, current, done, s)
    requires s.DropColumn? || s.DropTable?
    requires cell in cat.constraints && cat.constraints[cell].References?
    requires DropConstraint(cell.table, cell.name) !in done
    ensures cell.table in desired && r in desired[cell.table].relations
    ensures desired[cell.table].relations[r].table == cat.constraints[cell].refTable
    ensures desired[cell.table].relations[r].foreignKey in cat.constraints[cell].columns
    ensures cat.constraints[cell].refColumns == ["id"]
  {
    NotToBeDropped(desired, current, done, s, cell);
    hide ComesNext, StatementRank, DescribesColumns, DescribesIndexes, Planned;
    var fk := AsForeignKey(cell, cat.constraints[cell]);
    assert fk in current[cell.table].foreignKeys;
    KeptIsDesired(desired, current, cell.table, fk);
    r :| r in desired[cell.table].relations && Realises(fk, desired[cell.table].relations[r]);
  }

  lemma KeptIsDesired(desired: DesiredSchema, current: CurrentSchema, t: string, fk: ForeignKey)
    requires t in current && fk in current[t].foreignKeys
    requires !Planned(desired, current, DropConstraint(t, fk.constraintName))
    ensures t in desired && StillDesired(desired[t], fk)
  {
    hide StillDesired;
  }

  lemma NotToBeDropped(desired: DesiredSchema, current: CurrentSchema, done: set<Statement>, s: Statement, cell: Cell)
    requires ComesNext(desired, current, done, s) && (s.DropColumn? || s.DropTable?)
    requires DropConstraint(cell.table, cell.name) !in done
    ensures !Planned(desired, current, DropConstraint(cell.table, cell.name))
  {
    hide Planned;
  }

  lemma RelationTarget(desired: DesiredSchema, t: string, r: string)
    requires RelationsResolve(desired) && t in desired && r in desired[t].relations
    ensures Wanted(desired, Cell(desired[t].relations[r].table, "id"))
  {}

  lemma AcceptsDropColumn(desired: DesiredSchema, current: CurrentSchema, cat: Catalogue,
                          done: set<Statement>, s: Statement, st: Catalogue)
    requires Stage(desired, current, cat, done, s, st) && s.DropColumn?
    ensures Accepts(st, s)
  {
    forall cell | cell in st.constraints && st.constraints[cell].References?
      ensures var con := st.constraints[cell]; con.refColumns == ["id"] && Wanted(desired, Cell(con.refTable, "id"))
    {
      ForeignKeysJustified(desired, current, cat, done, s, st, cell);
    }
    hide *;
    StageParts(desired, current, cat, done, s, st);
    ColumnStillThere(desired, cat, done, s, st);
  }

  lemma ColumnStillThere(desired: DesiredSchema, cat: Catalogue, done: set<Statement>, s: Statement, st: Catalogue)
    requires s.DropColumn? && s !in done && Fits(desired, cat, s) && Timely(done, s) && ColumnsReached(desired, cat, done, st)
    requires forall cell :: cell in st.constraints && st.constraints[cell].References? ==>
      st.constraints[cell].refColumns == ["id"] && Wanted(desired, Cell(st.constraints[cell].refTable, "id"))
    ensures Accepts(st, s)
  {
    hide NormalizeType, ColumnValue;
    assert ColumnReached(desired, cat, done, st.columns, Cell(s.table, s.column));
  }

  lemma AcceptsDropTable(desired: DesiredSchema, current: CurrentSchema, cat: Catalogue,
                         done: set<Statement>, s: Statement, st: Catalogue)
    requires Stage(desired, current, cat, done, s, st) && s.DropTable?
    ensures Accepts(st, s)
  {
    forall cell | cell in st.constraints && st.constraints[cell].References?
      ensures Wanted(desired, Cell(st.constraints[cell].refTable, "id"))
    {
      ForeignKeysJustified(desired, current, cat, done, s, st, cell);
    }
    hide *;
    StageParts(desired, current, cat, done, s, st);
    TableStillThere(desired, cat, done, s, st);
  }

  lemma TableStillThere(desired: DesiredSchema, cat: Catalogue, done: set<Statement>, s: Statement, st: Catalogue)
    requires s.DropTable? && s !in done && Fits(desired, cat, s) && TablesReached(desired, cat, done, st)
    requires forall cell :: cell in st.constraints && st.constraints[cell].References? ==>
      Wanted(desired, Cell(st.constraints[cell].refTable, "id"))
    ensures Accepts(st, s)
  {
    hide NormalizeType;
  }

  /** PostgreSQL accepts the next statement exactly when its part of the conditions holds. */
  lemma AcceptsIffPermitted(desired: DesiredSchema, current: CurrentSchema, cat: Catalogue,
                            done: set<Statement>, s: Statement, st: Catalogue)
    requires Stage(desired, current, cat, done, s, st)
    ensures Accepts(st, s) <==> Permitted(desired, cat, s)
  {
    hide Stage, Accepts;
    match s
    case CreateTable(_, _, _) => AcceptsCreateTable(desired, current, cat, done, s, st);
    case EnableRls(_) => AcceptsRls(desired, current, cat, done, s, st);
    case ForceRls(_) => AcceptsRls(desired, current, cat, done, s, st);
    case AddColumn(_, _, _) => AcceptsAddColumn(desired, current, cat, done, s, st);
    case AddForeignKey(_, _, _, _, _) => AcceptsForeignKey(desired, current, cat, done, s, st);
    case AddUnique(_, _, _) => AcceptsUnique(desired, current, cat, done, s, st);
    case CreatePolicy(_, _, _) => AcceptsPolicy(desired, current, cat, done, s, st);
    case DropPolicy(_, _) => AcceptsPolicy(desired, current, cat, done, s, st);
    case DropIndex(_) => AcceptsDropIndex(desired, current, cat, done, s, st);
    case DropConstraint(_, _) => AcceptsDropConstraint(desired, current, cat, done, s, st);
    case DropColumn(_, _) => AcceptsDropColumn(desired, current, cat, done, s, st);
    case DropTable(_) => AcceptsDropTable(desired, current, cat, done, s, st);
    case _ => AcceptsChange(desired, current, cat, done, s, st);
  }

  // ----- the conditions, statement by statement ---------------------------------------------

  lemma RealisedIffExists(current: CurrentSchema, cat: Catalogue, t: string, rel: Relation)
    requires Anchored(cat) && Describes(current, cat)
    ensures AlreadyRealised(cat, t, rel) <==> t in current && FkExists(current[t], rel)
  {
    hide DescribesColumns, DescribesIndexes;
    if cell :| cell in cat.constraints && cell.table == t && RealisedBy(cat.constraints[cell], rel) {
      assert Realises(AsForeignKey(cell, cat.constraints[cell]), rel);
    }
    if t in current && FkExists(current[t], rel) {
      var fk :| fk in current[t].foreignKeys && Realises(fk, rel);
      assert RealisedBy(cat.constraints[Cell(t, fk.constraintName)], rel);
    }
  }

  lemma KeyShapeIffPermitted(desired: DesiredSchema, current: CurrentSchema, cat: Catalogue, t: string, c: string)
    requires Inputs(desired, current, cat) && Wanted(desired, Cell(t, c)) && Cell(t, c) in cat.columns && InKey(cat, t, c)
    ensures KeyColumnKept(cat, desired[t].columns[c], cat.columns[Cell(t, c)]) <==> !Planned(desired, current, DropNotNull(t, c))
  {
    hide NormalizeType, Canonical, FromPg, RelationsResolve, DescribesForeignKeys, DescribesIndexes;
    assert !cat.columns[Cell(t, c)].nullable;
  }

  lemma PermittedKey(desired: DesiredSchema, current: CurrentSchema, cat: Catalogue, s: Statement)
    requires Inputs(desired, current, cat) && KeysKeepShape(desired, cat) && s.DropNotNull? && Planned(desired, current, s)
    ensures Permitted(desired, cat, s)
  {
    if InKey(cat, s.table, s.column) {
      PlannedFits(desired, current, cat, s);
      WantedChange(desired, current, s);
      KeyShapeIffPermitted(desired, current, cat, s.table, s.column);
    }
  }

  lemma WantedChange(desired: DesiredSchema, current: CurrentSchema, s: Statement)
    requires s.DropNotNull? && Planned(desired, current, s)
    ensures Wanted(desired, Cell(s.table, s.column))
  {
    hide NormalizeType;
  }

  lemma PermittedForeignKey(desired: DesiredSchema, current: CurrentSchema, cat: Catalogue, s: Statement)
    requires Inputs(desired, current, cat) && ForeignKeysAddable(desired, cat)
    requires s.AddForeignKey? && Planned(desired, current, s)
    ensures Permitted(desired, cat, s)
  {
    var r := PlannedForeignKey(desired, current, s);
    RealisedIffExists(current, cat, s.table, desired[s.table].relations[r]);
    hide Planned, Describes, WellFormed, HasKey;
    assert Addable(desired, cat, s.table, r);
  }

  lemma AddableIfPermitted(desired: DesiredSchema, current: CurrentSchema, cat: Catalogue, t: string, r: string)
    requires Inputs(desired, current, cat) && AllPermitted(desired, current, cat)
    requires t in desired && r in desired[t].relations && !AlreadyRealised(cat, t, desired[t].relations[r])
    ensures Addable(desired, cat, t, r)
  {
    hide NormalizeType, HasKey;
    RealisedIffExists(current, cat, t, desired[t].relations[r]);
    var s := AddForeignKeyFor(t, r, desired[t].relations[r]);
    assert Planned(desired, current, s);
    assert Permitted(desired, cat, s);
    assert desired[t].relations[r].foreignKey in s.cols;
  }

  lemma PermittedIndex(desired: DesiredSchema, current: CurrentSchema, cat: Catalogue, s: Statement)
    requires Inputs(desired, current, cat) && DroppedTablesLackUnique(desired, cat)
    requires s.DropIndex? && Planned(desired, current, s)
    ensures Permitted(desired, cat, s)
  {
    hide NormalizeType, DescribesColumns, DescribesForeignKeys, RelationsResolve;
  }

  lemma NoUniqueIfPermitted(desired: DesiredSchema, current: CurrentSchema, cat: Catalogue, cell: Cell)
    requires Inputs(desired, current, cat) && AllPermitted(desired, current, cat)
    requires cell in cat.constraints && cat.constraints[cell].Unique?
    ensures cell.table in desired
  {
    hide NormalizeType, DescribesColumns, DescribesForeignKeys, RelationsResolve;
    assert ListsIndex(current[cell.table].indexes, cell.name) by {
      assert Cell(cell.table, cell.name) == cell;
    }
    if cell.table !in desired {
      IndexDropPlanned(desired, current, cell);
    }
  }

  lemma IndexDropPlanned(desired: DesiredSchema, current: CurrentSchema, cell: Cell)
    requires cell.table in current && cell.table !in desired && ListsIndex(current[cell.table].indexes, cell.name)
    ensures Planned(desired, current, DropIndex(cell.name))
  {}

  lemma PermittedIfUnblocked(desired: DesiredSchema, current: CurrentSchema, cat: Catalogue, s: Statement)
    requires Inputs(desired, current, cat) && Unblocked(desired, cat) && Planned(desired, current, s)
    ensures Permitted(desired, cat, s)
  {
    hide NormalizeType, KeysKeepShape, ForeignKeysAddable, DroppedTablesLackUnique, WellFormed, DescribesColumns;
    hide DescribesForeignKeys, DescribesIndexes, RelationsResolve;
    match s
    case DropNotNull(_, _) => PermittedKey(desired, current, cat, s);
    case AddForeignKey(_, _, _, _, _) => PermittedForeignKey(desired, current, cat, s);
    case DropIndex(_) => PermittedIndex(desired, current, cat, s);
    case _ =>
  }

  lemma UnblockedIfPermitted(desired: DesiredSchema, current: CurrentSchema, cat: Catalogue)
    requires Inputs(desired, current, cat) && AllPermitted(desired, current, cat)
    ensures Unblocked(desired, cat)
  {
    hide NormalizeType, HasKey, Addable, AlreadyRealised, KeyColumnKept;
    assert KeysKeepShape(desired, cat) by {
      forall t, c | t in desired && c in desired[t].columns && Cell(t, c) in cat.columns && InKey(cat, t, c)
        ensures KeyColumnKept(cat, desired[t].columns[c], cat.columns[Cell(t, c)])
      {
        KeyShapeIffPermitted(desired, current, cat, t, c);
        assert !Permitted(desired, cat, DropNotNull(t, c));
      }
    }
    assert ForeignKeysAddable(desired, cat) by {
      forall t, r | t in desired && r in desired[t].relations
        ensures AlreadyRealised(cat, t, desired[t].relations[r]) || Addable(desired, cat, t, r)
      {
        if !AlreadyRealised(cat, t, desired[t].relations[r]) {
          AddableIfPermitted(desired, current, cat, t, r);
        }
      }
    }
    assert DroppedTablesLackUnique(desired, cat) by {
      forall cell | cell in cat.constraints && cat.constraints[cell].Unique? ensures cell.table in desired {
        NoUniqueIfPermitted(desired, current, cat, cell);
      }
    }
    NamesFreeIfPermitted(desired, current, cat);
  }

  lemma NamesFreeIfPermitted(desired: DesiredSchema, current: CurrentSchema, cat: Catalogue)
    requires Inputs(desired, current, cat) && AllPermitted(desired, current, cat)
    ensures UniqueNamesFree(desired, cat) && PoliciesFree(desired, cat)
  {
    hide NormalizeType, WellFormed, DescribesColumns, DescribesForeignKeys, DescribesIndexes, RelationsResolve;
    hide UniqueNameFree;
    forall t, c | t in desired && t !in cat.tables && c in desired[t].columns &&
                  desired[t].columns[c].unique && !desired[t].columns[c].primaryKey
      ensures UniqueNameFree(desired[t], t, c) && UniqueName(t, c) !in cat.indexes
    {
      var s := AddUnique(t, UniqueName(t, c), c);
      assert Planned(desired, current, s);
      assert Permitted(desired, cat, s);
    }
    forall t, command | t in desired && desired[t].access.Some? && HasRule(desired[t].access.value, command)
      ensures Cell(t, PolicyName(command, t)) !in cat.policies
    {
      var s := CreatePolicy(t, PolicyName(command, t), command);
      assert Planned(desired, current, s);
      assert Permitted(desired, cat, s);
    }
  }

  // ----- whole runs -------------------------------------------------------------------------

  lemma NextInPlan(desired: DesiredSchema, current: CurrentSchema, p: seq<Statement>, k: nat)
    requires IsPlan(desired, current, p) && k < |p|
    ensures ComesNext(desired, current, Elements(p[..k]), p[k])
  {
    hide Planned, StatementRank;
    assert p[k] in p;
    forall x | x in Elements(p[..k])
      ensures x != p[k] && Planned(desired, current, x) && StatementRank(x) <= StatementRank(p[k])
    {
      var i :| 0 <= i < k && p[i] == x;
      assert x in p;
    }
    forall x | Planned(desired, current, x) && StatementRank(x) < StatementRank(p[k]) ensures x in Elements(p[..k]) {
      assert x in p;
      var i :| 0 <= i < |p| && p[i] == x;
      assert i < k;
      assert p[..k][i] == x;
    }
  }

  lemma StageInPlan(desired: DesiredSchema, current: CurrentSchema, cat: Catalogue, p: seq<Statement>, k: nat, st: Catalogue)
    requires Inputs(desired, current, cat) && IsPlan(desired, current, p) && k < |p|
    requires Reached(desired, cat, Elements(p[..k]), st)
    ensures Stage(desired, current, cat, Elements(p[..k]), p[k], st)
  {
    assert Planned(desired, current, p[k]) by {
      assert p[k] in p;
    }
    hide *;
    NextInPlan(desired, current, p, k);
    NextIsTimely(desired, current, Elements(p[..k]), p[k]);
    PlannedFits(desired, current, cat, p[k]);
    IsStage(desired, current, cat, Elements(p[..k]), p[k], st);
  }

  lemma IsStage(desired: DesiredSchema, current: CurrentSchema, cat: Catalogue,
                done: set<Statement>, s: Statement, st: Catalogue)
    requires Inputs(desired, current, cat) && ComesNext(desired, current, done, s) && Fits(desired, cat, s)
    requires Timely(done, s) && Reached(desired, cat, done, st)
    ensures Stage(desired, current, cat, done, s, st)
  {
    hide Inputs, ComesNext, Fits, Timely, Reached;
  }

  lemma Advance(desired: DesiredSchema, current: CurrentSchema, cat: Catalogue,
                done: set<Statement>, s: Statement, st: Catalogue)
    requires Stage(desired, current, cat, done, s, st) && Accepts(st, s)
    ensures Reached(desired, cat, done + {s}, Apply(st, s))
  {
    hide *;
    StageParts(desired, current, cat, done, s, st);
    AdvanceTables(desired, cat, done, s, st);
    AdvanceColumns(desired, cat, done, s, st);
    AdvanceKeys(desired, cat, done, s, st);
    AdvanceConstraints(cat, done, s, st);
    AdvanceIndexes(cat, done, s, st);
    AdvancePolicies(cat, done, s, st);
    AdvanceRls(cat, done, s, st);
    IsReached(desired, cat, done + {s}, Apply(st, s));
  }

  lemma IsReached(desired: DesiredSchema, cat: Catalogue, done: set<Statement>, st: Catalogue)
    requires TablesReached(desired, cat, done, st) && ColumnsReached(desired, cat, done, st)
    requires KeysReached(desired, cat, done, st) && ConstraintsReached(cat, done, st)
    requires IndexesReached(cat, done, st) && PoliciesReached(cat, done, st) && RlsReached(cat, done, st)
    ensures Reached(desired, cat, done, st)
  {
    hide TablesReached, ColumnsReached, KeysReached, ConstraintsReached, IndexesReached, PoliciesReached, RlsReached;
  }

  /** The rest of a plan runs exactly when every remaining statement is permitted. */
  lemma {:induction false} RunRest(desired: DesiredSchema, current: CurrentSchema, cat: Catalogue,
                                   p: seq<Statement>, k: nat, st: Catalogue)
    requires Inputs(desired, current, cat) && IsPlan(desired, current, p) && k <= |p|
    requires Reached(desired, cat, Elements(p[..k]), st)
    ensures Run(st, p[k..]).Some? <==> forall i :: k <= i < |p| ==> Permitted(desired, cat, p[i])
    ensures Run(st, p[k..]).Some? ==> Reached(desired, cat, Elements(p), Run(st, p[k..]).value)
    decreases |p| - k
  {
    hide Inputs, IsPlan, Reached, Permitted, Accepts, Apply, Stage;
    if k == |p| {
      assert p[..k] == p && p[k..] == [];
    } else {
      var s := p[k];
      assert p[k..][0] == s && p[k..][1..] == p[k + 1..];
      StageInPlan(desired, current, cat, p, k, st);
      AcceptsIffPermitted(desired, current, cat, Elements(p[..k]), s, st);
      if Accepts(st, s) {
        Advance(desired, current, cat, Elements(p[..k]), s, st);
        assert Elements(p[..k + 1]) == Elements(p[..k]) + {s};
        RunRest(desired, current, cat, p, k + 1, Apply(st, s));
      }
    }
  }

  /**
   * A plan runs to the end exactly when the migration is unblocked. In particular no DROP TABLE
   * or DROP COLUMN ever meets a foreign key that still needs it.
   */
  lemma PlanRunsIffUnblocked(desired: DesiredSchema, current: CurrentSchema, cat: Catalogue, p: seq<Statement>)
    requires Inputs(desired, current, cat) && IsPlan(desired, current, p)
    ensures Run(cat, p).Some? <==> Unblocked(desired, cat)
    ensures Run(cat, p).Some? ==> Reached(desired, cat, Elements(p), Run(cat, p).value)
  {
    InputsResolve(desired, current, cat);
    PlannedInPlan(desired, current, p);
    hide *;
    ReachedStart(desired, cat);
    assert p[..0] == [] && p[0..] == p;
    ElementsOfNothing<Statement>();
    RunRest(desired, current, cat, p, 0, cat);
    if Unblocked(desired, cat) {
      forall i | 0 <= i < |p| ensures Permitted(desired, cat, p[i]) {
        assert p[i] in p;
        PermittedIfUnblocked(desired, current, cat, p[i]);
      }
    }
    if forall i :: 0 <= i < |p| ==> Permitted(desired, cat, p[i]) {
      forall s | Planned(desired, current, s) ensures Permitted(desired, cat, s) {
        assert s in p;
      }
      PermittedThroughout(desired, current, cat);
      UnblockedIfPermitted(desired, current, cat);
    }
  }

  lemma InputsResolve(desired: DesiredSchema, current: CurrentSchema, cat: Catalogue)
    requires Inputs(desired, current, cat)
    ensures RelationsResolve(desired) && WellFormed(cat)
  {}

  lemma PlannedInPlan(desired: DesiredSchema, current: CurrentSchema, p: seq<Statement>)
    requires IsPlan(desired, current, p)
    ensures forall s :: s in p <==> Planned(desired, current, s)
  {
    hide Planned;
  }

  lemma ElementsOfNothing<T>()
    ensures Elements<T>([]) == {}
  {}

  lemma PermittedThroughout(desired: DesiredSchema, current: CurrentSchema, cat: Catalogue)
    requires forall s :: Planned(desired, current, s) ==> Permitted(desired, cat, s)
    ensures AllPermitted(desired, current, cat)
  {
    hide Planned, Permitted;
  }

  /** All plans lead to the same outcome: the iteration order of the hash maps does not matter. */
  lemma PlansAgree(desired: DesiredSchema, current: CurrentSchema, cat: Catalogue, p: seq<Statement>, q: seq<Statement>)
    requires Inputs(desired, current, cat) && IsPlan(desired, current, p) && IsPlan(desired, current, q)
    ensures Run(cat, p) == Run(cat, q)
  {
    PlannedInPlan(desired, current, p);
    PlannedInPlan(desired, current, q);
    assert Elements(p) == Elements(q);
    hide *;
    PlanRunsIffUnblocked(desired, current, cat, p);
    PlanRunsIffUnblocked(desired, current, cat, q);
    if Run(cat, p).Some? {
      ReachedUnique(desired, cat, Elements(p), Run(cat, p).value, Run(cat, q).value);
    }
  }
}
