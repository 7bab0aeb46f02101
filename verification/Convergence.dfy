/**
 * What a completed plan achieves: the catalogue it leaves, compared with the desired schema,
 * and what a second run of the planner would find.
 */
module Convergence {
  import opened Wrappers
  import opened Normalize
  import opened Schema
  import opened Catalogue
  import opened Plan
  import opened PlanRun
  import opened PlanOutcome

  /** `st` is what executing the plan from `current` to `desired` makes of `cat`. */
  ghost predicate Outcome(desired: DesiredSchema, current: CurrentSchema, cat: Catalogue,
                          p: seq<Statement>, st: Catalogue)
  {
    Inputs(desired, current, cat) && IsPlan(desired, current, p) && Run(cat, p) == Some(st)
  }

  /** The same, seen through the closed form: `done` holds exactly the planned statements. */
  ghost predicate Executed(desired: DesiredSchema, current: CurrentSchema, cat: Catalogue,
                           done: set<Statement>, st: Catalogue)
  {
    && Inputs(desired, current, cat) && Unblocked(desired, cat)
    && (forall s :: s in done <==> Planned(desired, current, s))
    && Reached(desired, cat, done, st)
  }

  lemma OutcomeExecuted(desired: DesiredSchema, current: CurrentSchema, cat: Catalogue, p: seq<Statement>, st: Catalogue)
    requires Outcome(desired, current, cat, p, st)
    ensures Executed(desired, current, cat, Elements(p), st)
  {
    PlannedInPlan(desired, current, p);
    hide Inputs, Unblocked, IsPlan, Planned, Reached;
    PlanRunsIffUnblocked(desired, current, cat, p);
  }

  // ----- tables and columns -----------------------------------------------------------------

  lemma FinalTables(desired: DesiredSchema, current: CurrentSchema, cat: Catalogue, done: set<Statement>, st: Catalogue)
    requires Executed(desired, current, cat, done, st)
    ensures st.tables == desired.Keys && st.shown == cat.shown
  {
    hide NormalizeType, WellFormed, RelationsResolve, DescribesColumns, DescribesForeignKeys, DescribesIndexes;
    hide ColumnsReached, KeysReached, ConstraintsReached, IndexesReached, PoliciesReached, RlsReached, Unblocked;
    forall t ensures t in st.tables <==> t in desired {
      if t in desired && t !in current {
        assert Planned(desired, current, CreateTableFor(t, desired[t]));
      }
      assert Planned(desired, current, DropTable(t)) <==> IsDropped(desired, current, t);
    }
  }

  /** An existing column is reported with the default it should have. */
  ghost predicate DefaultKept(desired: DesiredSchema, cat: Catalogue, cell: Cell)
    requires Wanted(desired, cell)
  {
    && cell in cat.columns
    && var have := cat.columns[cell];
       ShowsDefault(cat.shown, have.sqlType, have.default, desired[cell.table].columns[cell.name].default)
  }

  /** A default of a column of this type is reported as the one that is wanted, up to normalisation. */
  ghost predicate ShowsDefault(shown: Rendering, sqlType: string, default: Option<string>, want: Option<string>) {
    NormalizeDefaultOption(shown.defaultOf(sqlType, default)) == NormalizeDefaultOption(want)
  }

  /** The columns of a finished migration. */
  ghost function FinalColumn(desired: DesiredSchema, cat: Catalogue, cell: Cell): CatColumn
    requires Wanted(desired, cell)
  {
    var want := desired[cell.table].columns[cell.name];
    if cell in cat.columns then
      var have := cat.columns[cell];
      CatColumn(
        if NormalizeType(want.colType) != Canonical(FromPg(cat.shown.udtOf(have.sqlType)))
          then NormalizeType(want.colType) else have.sqlType,
        want.nullable,
        if DefaultKept(desired, cat, cell) then have.default else want.default)
    else Created(DefinitionOf(want), cell.table !in cat.tables && want.primaryKey)
  }

  /** The reading of the planner's inputs, one column at a time. */
  ghost predicate ReadsColumns(desired: DesiredSchema, current: CurrentSchema, cat: Catalogue, done: set<Statement>) {
    && (forall s :: s in done <==> Planned(desired, current, s))
    && current.Keys == cat.tables && DescribesColumns(current, cat)
    && (forall cell :: cell in cat.columns ==> cell.table in cat.tables)
  }

  lemma ExecutedReads(desired: DesiredSchema, current: CurrentSchema, cat: Catalogue,
                      done: set<Statement>, st: Catalogue, cell: Cell)
    requires Executed(desired, current, cat, done, st)
    ensures ReadsColumns(desired, current, cat, done) && ColumnReached(desired, cat, done, st.columns, cell)
  {
    hide Planned, Unblocked, DescribesColumns, DescribesForeignKeys, DescribesIndexes, RelationsResolve, ColumnReached;
  }

  lemma FinalColumns(desired: DesiredSchema, current: CurrentSchema, cat: Catalogue,
                     done: set<Statement>, st: Catalogue, cell: Cell)
    requires Executed(desired, current, cat, done, st)
    ensures cell in st.columns <==> Wanted(desired, cell)
    ensures cell in st.columns ==> st.columns[cell] == FinalColumn(desired, cat, cell)
  {
    hide *;
    ExecutedReads(desired, current, cat, done, st, cell);
    ColumnsEnd(desired, current, cat, done, st, cell);
  }

  lemma ColumnsEnd(desired: DesiredSchema, current: CurrentSchema, cat: Catalogue,
                   done: set<Statement>, st: Catalogue, cell: Cell)
    requires ReadsColumns(desired, current, cat, done) && ColumnReached(desired, cat, done, st.columns, cell)
    ensures cell in st.columns <==> Wanted(desired, cell)
    ensures cell in st.columns ==> st.columns[cell] == FinalColumn(desired, cat, cell)
  {
    hide ReadsColumns, NormalizeType, Canonical, FromPg, NormalizeDefaultOption, ColumnIn, ColumnValue, FinalColumn;
    if !Wanted(desired, cell) {
      LeftOut(desired, current, cat, done, cell);
    } else if cell in cat.columns {
      KeptColumn(desired, current, cat, done, cell);
    } else {
      NewColumn(desired, current, cat, done, cell);
    }
  }

  lemma Stays(desired: DesiredSchema, current: CurrentSchema, cat: Catalogue, done: set<Statement>, cell: Cell)
    requires ReadsColumns(desired, current, cat, done) && Wanted(desired, cell)
    ensures DropColumn(cell.table, cell.name) !in done && DropTable(cell.table) !in done
  {
    hide NormalizeType;
  }

  lemma LeftOut(desired: DesiredSchema, current: CurrentSchema, cat: Catalogue, done: set<Statement>, cell: Cell)
    requires ReadsColumns(desired, current, cat, done) && !Wanted(desired, cell)
    ensures !ColumnIn(desired, cat, done, cell)
  {
    hide NormalizeType, CreateTableFor, AddColumnFor, AlterTypeFor;
    if cell in cat.columns {
      hide ColumnIn;
      DroppedWithTable(desired, current, cat, done, cell);
      hide *;
      NotIn(desired, cat, done, cell);
    }
  }

  lemma DroppedWithTable(desired: DesiredSchema, current: CurrentSchema, cat: Catalogue, done: set<Statement>, cell: Cell)
    requires ReadsColumns(desired, current, cat, done) && !Wanted(desired, cell) && cell in cat.columns
    ensures DropColumn(cell.table, cell.name) in done || DropTable(cell.table) in done
  {
    UnwantedPlanned(desired, current, cell);
    assert Cell(cell.table, cell.name) == cell;
    hide Planned;
  }

  lemma UnwantedPlanned(desired: DesiredSchema, current: CurrentSchema, cell: Cell)
    requires cell.table in current && !Wanted(desired, cell)
    ensures cell.table in desired && HasColumn(current[cell.table], cell.name) ==>
      Planned(desired, current, DropColumn(cell.table, cell.name))
    ensures cell.table !in desired ==> Planned(desired, current, DropTable(cell.table))
  {
    hide HasColumn;
  }

  lemma NotIn(desired: DesiredSchema, cat: Catalogue, done: set<Statement>, cell: Cell)
    requires DropColumn(cell.table, cell.name) in done || DropTable(cell.table) in done
    ensures !ColumnIn(desired, cat, done, cell)
  {}

  lemma NewColumn(desired: DesiredSchema, current: CurrentSchema, cat: Catalogue, done: set<Statement>, cell: Cell)
    requires ReadsColumns(desired, current, cat, done) && Wanted(desired, cell) && cell !in cat.columns
    ensures ColumnIn(desired, cat, done, cell) && ColumnValue(desired, cat, done, cell) == FinalColumn(desired, cat, cell)
  {
    hide NormalizeType;
    Stays(desired, current, cat, done, cell);
    var t, c := cell.table, cell.name;
    if t in current {
      assert Planned(desired, current, AddColumnFor(t, c, desired[t].columns[c]));
    } else {
      assert Planned(desired, current, CreateTableFor(t, desired[t]));
    }
  }

  lemma KeptColumn(desired: DesiredSchema, current: CurrentSchema, cat: Catalogue, done: set<Statement>, cell: Cell)
    requires ReadsColumns(desired, current, cat, done) && Wanted(desired, cell) && cell in cat.columns
    ensures ColumnIn(desired, cat, done, cell) && ColumnValue(desired, cat, done, cell) == FinalColumn(desired, cat, cell)
  {
    Stays(desired, current, cat, done, cell);
    TypeChange(desired, current, cat, done, cell);
    NullabilityChange(desired, current, cat, done, cell);
    DefaultChange(desired, current, cat, done, cell);
    hide ReadsColumns, NormalizeType, Canonical, FromPg, NormalizeDefaultOption, AlterTypeFor;
  }

  lemma TypeChange(desired: DesiredSchema, current: CurrentSchema, cat: Catalogue, done: set<Statement>, cell: Cell)
    requires ReadsColumns(desired, current, cat, done) && Wanted(desired, cell) && cell in cat.columns
    ensures var want := desired[cell.table].columns[cell.name];
      AlterTypeFor(cell.table, cell.name, want) in done <==>
        NormalizeType(want.colType) != Canonical(FromPg(cat.shown.udtOf(cat.columns[cell].sqlType)))
  {
    hide NormalizeType, Canonical, FromPg;
    assert Cell(cell.table, cell.name) == cell;
  }

  lemma NullabilityChange(desired: DesiredSchema, current: CurrentSchema, cat: Catalogue, done: set<Statement>, cell: Cell)
    requires ReadsColumns(desired, current, cat, done) && Wanted(desired, cell) && cell in cat.columns
    ensures (SetNotNull(cell.table, cell.name) !in done &&
             (DropNotNull(cell.table, cell.name) in done || cat.columns[cell].nullable))
            <==> desired[cell.table].columns[cell.name].nullable
  {
    hide NormalizeType, Canonical, FromPg;
    assert Cell(cell.table, cell.name) == cell;
  }

  lemma DefaultChange(desired: DesiredSchema, current: CurrentSchema, cat: Catalogue, done: set<Statement>, cell: Cell)
    requires ReadsColumns(desired, current, cat, done) && Wanted(desired, cell) && cell in cat.columns
    ensures var want := desired[cell.table].columns[cell.name];
      var differs := !DefaultKept(desired, cat, cell);
      && (want.default.Some? ==> (SetDefault(cell.table, cell.name, want.default.value) in done <==> differs))
      && (DropDefault(cell.table, cell.name) in done <==> differs && want.default.None?)
  {
    hide NormalizeType, Canonical, FromPg, NormalizeDefault;
    assert Cell(cell.table, cell.name) == cell;
  }
  // ----- foreign keys -----------------------------------------------------------------------

  ghost predicate ReadsConstraints(desired: DesiredSchema, current: CurrentSchema, cat: Catalogue,
                                   done: set<Statement>, st: Catalogue)
  {
    && (forall s :: s in done <==> Planned(desired, current, s))
    && current.Keys == cat.tables && DescribesForeignKeys(current, cat) && DescribesColumns(current, cat)
    && ConstraintsReached(cat, done, st)
    && (forall cell :: cell in cat.constraints ==> cell.table in cat.tables)
    && (forall cell :: cell in cat.columns ==> cell.table in cat.tables)
    && (forall cell :: cell in cat.constraints && cat.constraints[cell].References? ==>
          SingleColumn(cat, cell.table, cat.constraints[cell]))
  }

  lemma ExecutedConstraints(desired: DesiredSchema, current: CurrentSchema, cat: Catalogue,
                            done: set<Statement>, st: Catalogue)
    requires Executed(desired, current, cat, done, st)
    ensures ReadsConstraints(desired, current, cat, done, st)
    ensures WellFormed(cat) && Describes(current, cat) && RelationsResolve(desired) && Unblocked(desired, cat)
    ensures ForeignKeysAddable(desired, cat) && ConstraintsReached(cat, done, st)
  {
    hide Planned, DescribesColumns, DescribesForeignKeys, DescribesIndexes, RelationsResolve, ConstraintsReached;
    hide KeysKeepShape, ForeignKeysAddable, UniqueNamesFree, PoliciesFree, DroppedTablesLackUnique;
  }

  /** A surviving column is never dropped; any other existing column of a desired table is. */
  lemma ColumnDropped(desired: DesiredSchema, current: CurrentSchema, cat: Catalogue,
                      done: set<Statement>, st: Catalogue, t: string, c: string)
    requires ReadsConstraints(desired, current, cat, done, st) && t in desired
    ensures c in desired[t].columns ==> DropColumn(t, c) !in done
    ensures c !in desired[t].columns && Cell(t, c) in cat.columns ==> DropColumn(t, c) in done
    ensures DropTable(t) !in done
  {
    hide NormalizeType, DescribesForeignKeys, ConstraintsReached, SingleColumn;
    assert Planned(desired, current, DropColumn(t, c)) <==>
      IsKept(desired, current, t) && HasColumn(current[t], c) && c !in desired[t].columns;
    assert Planned(desired, current, DropTable(t)) <==> IsDropped(desired, current, t);
  }

  /** An existing foreign key is dropped exactly when no relation of a desired table justifies it. */
  lemma ForeignKeyDropped(desired: DesiredSchema, current: CurrentSchema, cat: Catalogue,
                          done: set<Statement>, st: Catalogue, cell: Cell)
    requires ReadsConstraints(desired, current, cat, done, st)
    ensures cell !in cat.constraints ==> DropConstraint(cell.table, cell.name) !in done
    ensures cell in cat.constraints && cat.constraints[cell].References? ==>
      (DropConstraint(cell.table, cell.name) in done <==> !Justified(desired, cell, cat.constraints[cell]))
  {
    hide NormalizeType, DescribesColumns, ConstraintsReached, SingleColumn;
    var t := cell.table;
    if DropConstraint(t, cell.name) in done {
      var fk :|
        fk in current[t].foreignKeys && fk.constraintName == cell.name && (t in desired ==> !StillDesired(desired[t], fk));
      assert Cell(t, fk.constraintName) == cell;
      if t in desired {
        NotJustified(desired, cell, cat.constraints[cell], fk);
      }
    } else if cell in cat.constraints && cat.constraints[cell].References? {
      var fk := AsForeignKey(cell, cat.constraints[cell]);
      assert fk in current[t].foreignKeys;
      assert !Planned(desired, current, DropConstraint(t, cell.name));
      var r :| r in desired[t].relations && Realises(fk, desired[t].relations[r]);
      assert RealisedBy(cat.constraints[cell], desired[t].relations[r]);
    }
  }

  lemma NotJustified(desired: DesiredSchema, cell: Cell, con: Constraint, fk: ForeignKey)
    requires cell.table in desired && con == References(fk.columns, fk.referencedTable, fk.referencedColumns)
    requires !StillDesired(desired[cell.table], fk)
    ensures !Justified(desired, cell, con)
  {
    forall r | r in desired[cell.table].relations ensures !RealisedBy(con, desired[cell.table].relations[r]) {
      assert !Realises(fk, desired[cell.table].relations[r]);
    }
  }

  /** Some relation of the table asks for the foreign key. */
  ghost predicate Justified(desired: DesiredSchema, cell: Cell, con: Constraint) {
    && cell.table in desired
    && exists r :: r in desired[cell.table].relations && RealisedBy(con, desired[cell.table].relations[r])
  }

  /** Every remaining foreign key is asked for by a relation. */
  lemma ForeignKeysAreJustified(desired: DesiredSchema, current: CurrentSchema, cat: Catalogue,
                                done: set<Statement>, st: Catalogue, cell: Cell)
    requires Executed(desired, current, cat, done, st)
    requires cell in st.constraints && st.constraints[cell].References?
    ensures Justified(desired, cell, st.constraints[cell])
  {
    hide *;
    ExecutedConstraints(desired, current, cat, done, st);
    var con := st.constraints[cell];
    StillThere(desired, current, cat, done, st, cell);
    if cell in cat.constraints && cat.constraints[cell] == con {
      ForeignKeyDropped(desired, current, cat, done, st, cell);
    } else {
      var x := Adder(desired, current, done, cell, con);
      ExecutedMember(desired, current, cat, done, st, x);
      var r := PlannedForeignKey(desired, current, x);
      AddedIsJustified(desired, x, r, cell, con);
    }
  }

  lemma StillThere(desired: DesiredSchema, current: CurrentSchema, cat: Catalogue,
                   done: set<Statement>, st: Catalogue, cell: Cell)
    requires ReadsConstraints(desired, current, cat, done, st) && cell in st.constraints
    ensures
      || (cell in cat.constraints && cat.constraints[cell] == st.constraints[cell])
      || AddedBy(done, cell, st.constraints[cell])
    ensures DropConstraint(cell.table, cell.name) !in done && DropTable(cell.table) !in done
    ensures forall c :: c in st.constraints[cell].columns ==> DropColumn(cell.table, c) !in done
  {
    hide Planned, DescribesColumns, DescribesForeignKeys, SingleColumn;
    assert ConstraintIn(cat, done, cell, st.constraints[cell]);
  }

  lemma ExecutedMember(desired: DesiredSchema, current: CurrentSchema, cat: Catalogue,
                       done: set<Statement>, st: Catalogue, s: Statement)
    requires ReadsConstraints(desired, current, cat, done, st)
    ensures s in done <==> Planned(desired, current, s)
  {
    hide Planned, DescribesColumns, DescribesForeignKeys, SingleColumn, ConstraintsReached;
  }

  lemma AddedIsJustified(desired: DesiredSchema, x: Statement, r: string, cell: Cell, con: Constraint)
    requires ForRelation(desired, x, r) && x.table == cell.table
    requires con == References(x.cols, x.refTable, x.refColumns)
    ensures Justified(desired, cell, con)
  {
    assert RealisedBy(con, desired[x.table].relations[r]);
  }

  /**
   * A relation ends up with a foreign key exactly when its column is a column of its own table.
   * `hasMany` and `hasOne` name a column of the other table.
   */
  lemma RelationsRealised(desired: DesiredSchema, current: CurrentSchema, cat: Catalogue,
                          done: set<Statement>, st: Catalogue, t: string, r: string)
    requires Executed(desired, current, cat, done, st) && t in desired && r in desired[t].relations
    ensures AlreadyRealised(st, t, desired[t].relations[r]) <==> desired[t].relations[r].foreignKey in desired[t].columns
  {
    hide *;
    ExecutedConstraints(desired, current, cat, done, st);
    var rel := desired[t].relations[r];
    ColumnDropped(desired, current, cat, done, st, t, rel.foreignKey);
    if rel.foreignKey in desired[t].columns {
      var cell, con := RealisingConstraint(desired, current, cat, done, st, t, r);
      RemainsIn(cat, done, st, cell, con);
      RealisedHere(st, cell, con, rel);
    } else if AlreadyRealised(st, t, rel) {
      var cell := Realiser(st, t, rel);
      StillThere(desired, current, cat, done, st, cell);
      if cell in cat.constraints && cat.constraints[cell] == st.constraints[cell] {
        OldColumn(desired, current, cat, done, st, cell);
      } else {
        var x := Adder(desired, current, done, cell, st.constraints[cell]);
        ExecutedMember(desired, current, cat, done, st, x);
        InputsHold(desired, current, cat);
        PermittedIfUnblocked(desired, current, cat, x);
        AddedColumnExists(desired, cat, x, rel.foreignKey);
      }
    }
  }

  lemma InputsHold(desired: DesiredSchema, current: CurrentSchema, cat: Catalogue)
    requires WellFormed(cat) && Describes(current, cat) && RelationsResolve(desired)
    ensures Inputs(desired, current, cat)
  {
    hide WellFormed, Describes, RelationsResolve;
  }

  lemma Realiser(st: Catalogue, t: string, rel: Relation) returns (cell: Cell)
    requires AlreadyRealised(st, t, rel)
    ensures cell in st.constraints && cell.table == t && st.constraints[cell].References?
    ensures rel.foreignKey in st.constraints[cell].columns
  {
    cell :| cell in st.constraints && cell.table == t && RealisedBy(st.constraints[cell], rel);
  }

  lemma RealisedHere(st: Catalogue, cell: Cell, con: Constraint, rel: Relation)
    requires cell in st.constraints && st.constraints[cell] == con && RealisedBy(con, rel)
    ensures AlreadyRealised(st, cell.table, rel)
  {}

  lemma RemainsIn(cat: Catalogue, done: set<Statement>, st: Catalogue, cell: Cell, con: Constraint)
    requires ConstraintsReached(cat, done, st) && ConstraintIn(cat, done, cell, con)
    ensures cell in st.constraints && st.constraints[cell] == con
  {}

  lemma OldColumn(desired: DesiredSchema, current: CurrentSchema, cat: Catalogue,
                  done: set<Statement>, st: Catalogue, cell: Cell)
    requires ReadsConstraints(desired, current, cat, done, st)
    requires cell in cat.constraints && cat.constraints[cell].References?
    ensures cell.table in cat.tables
    ensures forall c :: c in cat.constraints[cell].columns ==> Cell(cell.table, c) in cat.columns
  {
    hide Planned, DescribesColumns, DescribesForeignKeys, ConstraintsReached;
  }

  lemma AddedColumnExists(desired: DesiredSchema, cat: Catalogue, x: Statement, c: string)
    requires x.AddForeignKey? && Permitted(desired, cat, x) && c in x.cols
    ensures x.table in desired && (c in desired[x.table].columns || Cell(x.table, c) in cat.columns)
  {
    hide HasKey;
  }

  /** The foreign key that realises a relation on a column of its own table. */
  lemma RealisingConstraint(desired: DesiredSchema, current: CurrentSchema, cat: Catalogue,
                            done: set<Statement>, st: Catalogue, t: string, r: string) returns (cell: Cell, con: Constraint)
    requires ReadsConstraints(desired, current, cat, done, st)
    requires WellFormed(cat) && Describes(current, cat) && RelationsResolve(desired) && ForeignKeysAddable(desired, cat)
    requires t in desired && r in desired[t].relations && desired[t].relations[r].foreignKey in desired[t].columns
    ensures cell.table == t && RealisedBy(con, desired[t].relations[r]) && ConstraintIn(cat, done, cell, con)
  {
    var rel := desired[t].relations[r];
    if AlreadyRealised(cat, t, rel) {
      cell :| cell in cat.constraints && cell.table == t && RealisedBy(cat.constraints[cell], rel);
      con := cat.constraints[cell];
      hide *;
      RealisedIsJustified(desired, cell, con, r);
      ForeignKeyDropped(desired, current, cat, done, st, cell);
      ColumnDropped(desired, current, cat, done, st, t, rel.foreignKey);
      OldForeignKeyStays(cat, done, cell, rel);
    } else {
      cell, con := Cell(t, ForeignKeyName(t, r)), References([rel.foreignKey], rel.table, ["id"]);
      assert cell !in cat.constraints by {
        hide HasKey, WellFormed, Describes, ReadsConstraints;
        assert Addable(desired, cat, t, r);
      }
      RealisedIffExists(current, cat, t, rel);
      hide *;
      RelationPlanned(desired, current, t, r);
      ExecutedMember(desired, current, cat, done, st, AddForeignKeyFor(t, r, rel));
      ForeignKeyDropped(desired, current, cat, done, st, cell);
      ColumnDropped(desired, current, cat, done, st, t, rel.foreignKey);
      NewForeignKeyStays(cat, done, t, r, rel);
    }
  }

  lemma RealisedIsJustified(desired: DesiredSchema, cell: Cell, con: Constraint, r: string)
    requires cell.table in desired && r in desired[cell.table].relations && RealisedBy(con, desired[cell.table].relations[r])
    ensures Justified(desired, cell, con) && con.References?
  {}

  lemma OldForeignKeyStays(cat: Catalogue, done: set<Statement>, cell: Cell, rel: Relation)
    requires WellFormed(cat) && cell in cat.constraints && RealisedBy(cat.constraints[cell], rel)
    requires DropConstraint(cell.table, cell.name) !in done && DropTable(cell.table) !in done
    requires DropColumn(cell.table, rel.foreignKey) !in done
    ensures ConstraintIn(cat, done, cell, cat.constraints[cell])
  {}

  lemma NewForeignKeyStays(cat: Catalogue, done: set<Statement>, t: string, r: string, rel: Relation)
    requires AddForeignKeyFor(t, r, rel) in done
    requires DropConstraint(t, ForeignKeyName(t, r)) !in done && DropTable(t) !in done
    requires DropColumn(t, rel.foreignKey) !in done
    ensures var con := References([rel.foreignKey], rel.table, ["id"]);
      RealisedBy(con, rel) && ConstraintIn(cat, done, Cell(t, ForeignKeyName(t, r)), con)
  {}

  lemma RelationPlanned(desired: DesiredSchema, current: CurrentSchema, t: string, r: string)
    requires t in desired && r in desired[t].relations
    requires t in current ==> !FkExists(current[t], desired[t].relations[r])
    ensures Planned(desired, current, AddForeignKeyFor(t, r, desired[t].relations[r]))
  {
    hide NormalizeType;
  }

  // ----- the rest of the catalogue ----------------------------------------------------------

  /**
   * Policies: the plan drops every generated policy after creating it, so none is left on a
   * table with access rules; policies of other names stay with their tables.
   */
  lemma FinalPolicies(desired: DesiredSchema, current: CurrentSchema, cat: Catalogue,
                      done: set<Statement>, st: Catalogue, cell: Cell)
    requires Executed(desired, current, cat, done, st)
    ensures cell in st.policies <==>
      cell in cat.policies && cell.table in desired && !GeneratedPolicy(desired, cell)
  {
    hide *;
    ExecutedPolicies(desired, current, cat, done, st, cell);
    PolicyStatements(desired, current, cat, done, cell);
    PolicyLeft(desired, cat, done, cell);
  }

  lemma ExecutedPolicies(desired: DesiredSchema, current: CurrentSchema, cat: Catalogue,
                         done: set<Statement>, st: Catalogue, cell: Cell)
    requires Executed(desired, current, cat, done, st)
    ensures PolicyIn(cat, done, cell) <==> cell in st.policies
    ensures cell in cat.policies ==> cell.table in current
    ensures forall s :: s in done <==> Planned(desired, current, s)
    ensures current.Keys == cat.tables
  {
    hide Planned, Unblocked, DescribesColumns, DescribesForeignKeys, DescribesIndexes, RelationsResolve;
    hide PolicyIn, ColumnsReached, KeysReached, ConstraintsReached, IndexesReached, TablesReached, RlsReached;
  }

  ghost predicate GeneratedPolicy(desired: DesiredSchema, cell: Cell) {
    && cell.table in desired && desired[cell.table].access.Some?
    && exists command :: cell.name == PolicyName(command, cell.table)
  }

  lemma PolicyStatements(desired: DesiredSchema, current: CurrentSchema, cat: Catalogue,
                         done: set<Statement>, cell: Cell)
    requires forall s :: s in done <==> Planned(desired, current, s)
    ensures DropPolicy(cell.table, cell.name) in done <==> GeneratedPolicy(desired, cell)
    ensures (exists command :: CreatePolicy(cell.table, cell.name, command) in done) ==> GeneratedPolicy(desired, cell)
    ensures DropTable(cell.table) in done <==> cell.table in current && cell.table !in desired
  {
    hide NormalizeType;
    assert Planned(desired, current, DropTable(cell.table)) <==> IsDropped(desired, current, cell.table);
    assert Planned(desired, current, DropPolicy(cell.table, cell.name)) <==> GeneratedPolicy(desired, cell);
  }

  lemma PolicyLeft(desired: DesiredSchema, cat: Catalogue, done: set<Statement>, cell: Cell)
    requires DropPolicy(cell.table, cell.name) in done <==> GeneratedPolicy(desired, cell)
    requires (exists command :: CreatePolicy(cell.table, cell.name, command) in done) ==> GeneratedPolicy(desired, cell)
    requires cell in cat.policies ==> (DropTable(cell.table) !in done <==> cell.table in desired)
    ensures PolicyIn(cat, done, cell) <==>
      cell in cat.policies && cell.table in desired && !GeneratedPolicy(desired, cell)
  {}

  /** New tables get row security, their primary key and their UNIQUE constraints. */
  lemma NewTables(desired: DesiredSchema, current: CurrentSchema, cat: Catalogue,
                  done: set<Statement>, st: Catalogue, t: string)
    requires Executed(desired, current, cat, done, st) && t in desired && t !in cat.tables
    ensures t in st.rlsEnabled && t in st.rlsForced
    ensures t in st.keys <==> PrimaryKeyOf(desired[t]) != {}
    ensures t in st.keys ==> st.keys[t] == PrimaryKeyOf(desired[t])
    ensures forall c :: c in desired[t].columns ==>
      var col := desired[t].columns[c];
      var cell := Cell(t, UniqueName(t, c));
      col.unique && !col.primaryKey ==> cell in st.constraints && st.constraints[cell] == Unique([c])
  {
    hide *;
    ExecutedConstraints(desired, current, cat, done, st);
    ExecutedNewTable(desired, current, cat, done, st, t);
    ReadsNewTable(desired, current, cat, done, st, t);
    SecuredAndKeyed(desired, cat, done, st, t);
    forall c | c in desired[t].columns && desired[t].columns[c].unique && !desired[t].columns[c].primaryKey
      ensures var cell := Cell(t, UniqueName(t, c)); cell in st.constraints && st.constraints[cell] == Unique([c])
    {
      UniquePlanned(desired, current, cat, done, st, t, c);
      RemainsIn(cat, done, st, Cell(t, UniqueName(t, c)), Unique([c]));
    }
  }

  lemma ExecutedNewTable(desired: DesiredSchema, current: CurrentSchema, cat: Catalogue,
                         done: set<Statement>, st: Catalogue, t: string)
    requires Executed(desired, current, cat, done, st) && t in desired && t !in cat.tables
    ensures KeysReached(desired, cat, done, st) && RlsReached(cat, done, st)
    ensures t !in cat.keys && t !in current
  {
    hide Planned, Unblocked, DescribesColumns, DescribesForeignKeys, DescribesIndexes, RelationsResolve;
    hide ColumnsReached, KeysReached, ConstraintsReached, IndexesReached, TablesReached, RlsReached, PoliciesReached;
  }

  lemma ReadsNewTable(desired: DesiredSchema, current: CurrentSchema, cat: Catalogue,
                      done: set<Statement>, st: Catalogue, t: string)
    requires ReadsConstraints(desired, current, cat, done, st) && t in desired && t !in current
    ensures CreatedBy(desired, done, t) && EnableRls(t) in done && ForceRls(t) in done && DropTable(t) !in done
  {
    hide NormalizeType, DescribesColumns, DescribesForeignKeys, ConstraintsReached, SingleColumn;
    assert Planned(desired, current, EnableRls(t)) && Planned(desired, current, ForceRls(t));
    assert Planned(desired, current, CreateTableFor(t, desired[t]));
    assert !Planned(desired, current, DropTable(t));
  }

  lemma SecuredAndKeyed(desired: DesiredSchema, cat: Catalogue, done: set<Statement>, st: Catalogue, t: string)
    requires KeysReached(desired, cat, done, st) && RlsReached(cat, done, st)
    requires t in desired && t !in cat.tables && t !in cat.keys
    requires CreatedBy(desired, done, t) && EnableRls(t) in done && ForceRls(t) in done && DropTable(t) !in done
    ensures t in st.rlsEnabled && t in st.rlsForced
    ensures t in st.keys <==> PrimaryKeyOf(desired[t]) != {}
    ensures t in st.keys ==> st.keys[t] == PrimaryKeyOf(desired[t])
  {}

  lemma UniquePlanned(desired: DesiredSchema, current: CurrentSchema, cat: Catalogue,
                      done: set<Statement>, st: Catalogue, t: string, c: string)
    requires ReadsConstraints(desired, current, cat, done, st) && t in desired && t !in current
    requires c in desired[t].columns && desired[t].columns[c].unique && !desired[t].columns[c].primaryKey
    ensures ConstraintIn(cat, done, Cell(t, UniqueName(t, c)), Unique([c]))
  {
    hide NormalizeType, DescribesColumns, DescribesForeignKeys, ConstraintsReached, SingleColumn;
    var n := UniqueName(t, c);
    assert Planned(desired, current, AddUnique(t, n, c));
    assert !Planned(desired, current, DropConstraint(t, n));
    assert !Planned(desired, current, DropColumn(t, c));
    assert !Planned(desired, current, DropTable(t));
  }

  // ----- convergence ------------------------------------------------------------------------

  ghost predicate ColumnMatches(shown: Rendering, want: DesiredColumn, have: CatColumn) {
    && Canonical(FromPg(shown.udtOf(have.sqlType))) == NormalizeType(want.colType)
    && have.nullable == want.nullable
    && ShowsDefault(shown, have.sqlType, have.default, want.default)
  }

  ghost predicate ColumnsMatch(desired: DesiredSchema, cat: Catalogue) {
    && (forall cell :: cell in cat.columns <==> Wanted(desired, cell))
    && (forall cell :: cell in cat.columns && Wanted(desired, cell) ==>
          ColumnMatches(cat.shown, desired[cell.table].columns[cell.name], cat.columns[cell]))
  }

  ghost predicate ForeignKeysMatch(desired: DesiredSchema, cat: Catalogue) {
    && (forall t, r :: t in desired && r in desired[t].relations ==> AlreadyRealised(cat, t, desired[t].relations[r]))
    && (forall cell :: cell in cat.constraints && cat.constraints[cell].References? ==>
          Justified(desired, cell, cat.constraints[cell]))
  }

  /** The catalogue is what the desired schema asks for. */
  ghost predicate Converged(desired: DesiredSchema, cat: Catalogue) {
    cat.tables == desired.Keys && ColumnsMatch(desired, cat) && ForeignKeysMatch(desired, cat)
  }

  /**
   * The four things a desired schema must not do: ask for a foreign key on a column of another table,
   * call a primary-key column of a new table nullable, give a column that is created or altered a type
   * that PostgreSQL reports under another name, such as one with a modifier, and give one a default that
   * PostgreSQL reports as another expression, such as a string, to which it adds a cast.
   */
  ghost predicate Settled(desired: DesiredSchema, cat: Catalogue) {
    && RelationColumnsOwn(desired)
    && NewKeysNotNull(desired, cat)
    && TypesReadBack(desired, cat)
    && DefaultsReadBack(desired, cat)
  }

  ghost predicate DefaultsReadBack(desired: DesiredSchema, cat: Catalogue) {
    forall t, c :: t in desired && c in desired[t].columns ==> DefaultSettles(desired, cat, Cell(t, c))
  }

  /** The default the column keeps or gets is reported as the wanted one, in the type it keeps or gets. */
  ghost predicate DefaultSettles(desired: DesiredSchema, cat: Catalogue, cell: Cell)
    requires Wanted(desired, cell)
  {
    var want := desired[cell.table].columns[cell.name];
    var keepsType :=
      cell in cat.columns && Canonical(FromPg(cat.shown.udtOf(cat.columns[cell].sqlType))) == NormalizeType(want.colType);
    ShowsDefault(cat.shown,
                 if keepsType then cat.columns[cell].sqlType else NormalizeType(want.colType),
                 if DefaultKept(desired, cat, cell) then cat.columns[cell].default else want.default,
                 want.default)
  }

  ghost predicate TypesReadBack(desired: DesiredSchema, cat: Catalogue) {
    forall t, c :: t in desired && c in desired[t].columns ==> TypeSettles(desired, cat, Cell(t, c))
  }

  /** The column has its type already, or the type reads back. */
  ghost predicate TypeSettles(desired: DesiredSchema, cat: Catalogue, cell: Cell)
    requires Wanted(desired, cell)
  {
    var want := desired[cell.table].columns[cell.name].colType;
    (cell in cat.columns && Canonical(FromPg(cat.shown.udtOf(cat.columns[cell].sqlType))) == NormalizeType(want))
    || ReadsBackAs(cat.shown.udtOf, want)
  }

  /** A column declared with the normalised type is read as being of that type. */
  ghost predicate ReadsBackAs(udtOf: string -> string, colType: string) {
    Canonical(FromPg(udtOf(NormalizeType(colType)))) == NormalizeType(colType)
  }

  /** Every type that PostgreSQL reports under the very name it was declared with reads back. */
  lemma OwnNameReadsBack(udtOf: string -> string, colType: string)
    requires udtOf(NormalizeType(colType)) == NormalizeType(colType)
    ensures ReadsBackAs(udtOf, colType)
  {
    hide NormalizeType, Canonical, FromPg;
    TypeReadsBack(colType);
  }

  ghost predicate RelationColumnsOwn(desired: DesiredSchema) {
    forall t, r :: t in desired && r in desired[t].relations ==>
      desired[t].relations[r].foreignKey in desired[t].columns
  }

  ghost predicate NewKeysNotNull(desired: DesiredSchema, cat: Catalogue) {
    forall t, c :: t in desired && t !in cat.tables && c in desired[t].columns && desired[t].columns[c].primaryKey ==>
      !desired[t].columns[c].nullable
  }

  lemma FinalColumnMatches(desired: DesiredSchema, cat: Catalogue, cell: Cell)
    requires WellFormed(cat) && Wanted(desired, cell)
    ensures ColumnMatches(cat.shown, desired[cell.table].columns[cell.name], FinalColumn(desired, cat, cell)) <==>
      ColumnSettles(desired, cat, cell)
  {
    hide NormalizeType, Canonical, FromPg, NormalizeDefaultOption;
  }

  ghost predicate ColumnSettles(desired: DesiredSchema, cat: Catalogue, cell: Cell)
    requires Wanted(desired, cell)
  {
    var want := desired[cell.table].columns[cell.name];
    && TypeSettles(desired, cat, cell) && DefaultSettles(desired, cat, cell)
    && !(cell.table !in cat.tables && want.primaryKey && want.nullable)
  }

  /** A completed plan converges exactly when the desired schema is settled. */
  lemma ConvergedIffSettled(desired: DesiredSchema, current: CurrentSchema, cat: Catalogue,
                            p: seq<Statement>, st: Catalogue)
    requires Outcome(desired, current, cat, p, st)
    ensures Converged(desired, st) <==> Settled(desired, cat)
  {
    hide *;
    OutcomeExecuted(desired, current, cat, p, st);
    FinalTables(desired, current, cat, Elements(p), st);
    ColumnsMatchIff(desired, current, cat, Elements(p), st);
    ForeignKeysMatchIff(desired, current, cat, Elements(p), st);
    ConvergedParts(desired, cat, st);
  }

  lemma ConvergedParts(desired: DesiredSchema, cat: Catalogue, st: Catalogue)
    requires st.tables == desired.Keys
    requires ColumnsMatch(desired, st) <==>
      NewKeysNotNull(desired, cat) && TypesReadBack(desired, cat) && DefaultsReadBack(desired, cat)
    requires ForeignKeysMatch(desired, st) <==> RelationColumnsOwn(desired)
    ensures Converged(desired, st) <==> Settled(desired, cat)
  {
    hide ColumnsMatch, NewKeysNotNull, TypesReadBack, DefaultsReadBack, ForeignKeysMatch, RelationColumnsOwn;
  }

  lemma ColumnsMatchIff(desired: DesiredSchema, current: CurrentSchema, cat: Catalogue,
                        done: set<Statement>, st: Catalogue)
    requires Executed(desired, current, cat, done, st)
    ensures ColumnsMatch(desired, st) <==>
      NewKeysNotNull(desired, cat) && TypesReadBack(desired, cat) && DefaultsReadBack(desired, cat)
  {
    hide *;
    ExecutedConstraints(desired, current, cat, done, st);
    FinalTables(desired, current, cat, done, st);
    forall cell ensures ColumnVerdict(desired, cat, st, cell) {
      FinalColumns(desired, current, cat, done, st, cell);
      if Wanted(desired, cell) {
        FinalColumnMatches(desired, cat, cell);
      }
      IsColumnVerdict(desired, cat, st, cell);
    }
    ColumnVerdicts(desired, cat, st);
  }

  ghost predicate ColumnVerdict(desired: DesiredSchema, cat: Catalogue, st: Catalogue, cell: Cell) {
    && (cell in st.columns <==> Wanted(desired, cell))
    && (Wanted(desired, cell) ==>
          (ColumnMatches(st.shown, desired[cell.table].columns[cell.name], st.columns[cell]) <==>
             ColumnSettles(desired, cat, cell)))
  }

  lemma IsColumnVerdict(desired: DesiredSchema, cat: Catalogue, st: Catalogue, cell: Cell)
    requires cell in st.columns <==> Wanted(desired, cell)
    requires cell in st.columns ==> st.columns[cell] == FinalColumn(desired, cat, cell)
    requires Wanted(desired, cell) ==>
      (ColumnMatches(cat.shown, desired[cell.table].columns[cell.name], FinalColumn(desired, cat, cell)) <==>
         ColumnSettles(desired, cat, cell))
    requires st.shown == cat.shown
    ensures ColumnVerdict(desired, cat, st, cell)
  {
    hide ColumnMatches, FinalColumn, ColumnSettles;
  }

  lemma ColumnVerdicts(desired: DesiredSchema, cat: Catalogue, st: Catalogue)
    requires forall cell :: ColumnVerdict(desired, cat, st, cell)
    ensures ColumnsMatch(desired, st) <==>
      NewKeysNotNull(desired, cat) && TypesReadBack(desired, cat) && DefaultsReadBack(desired, cat)
  {
    SettledColumns(desired, cat);
    hide ColumnMatches, ColumnSettles, NewKeysNotNull, TypesReadBack, DefaultsReadBack;
    if ColumnsMatch(desired, st) {
      forall cell | Wanted(desired, cell)
        ensures ColumnSettles(desired, cat, cell)
      {
        assert ColumnVerdict(desired, cat, st, cell);
      }
    }
    if forall cell :: Wanted(desired, cell) ==> ColumnSettles(desired, cat, cell) {
      forall cell ensures cell in st.columns <==> Wanted(desired, cell)
        ensures Wanted(desired, cell) ==> ColumnMatches(st.shown, desired[cell.table].columns[cell.name], st.columns[cell])
      {
        assert ColumnVerdict(desired, cat, st, cell);
      }
    }
  }

  lemma SettledColumns(desired: DesiredSchema, cat: Catalogue)
    ensures NewKeysNotNull(desired, cat) && TypesReadBack(desired, cat) && DefaultsReadBack(desired, cat) <==>
      forall cell :: Wanted(desired, cell) ==> ColumnSettles(desired, cat, cell)
  {
    hide TypeSettles, DefaultSettles;
    if forall cell :: Wanted(desired, cell) ==> ColumnSettles(desired, cat, cell) {
      forall t, c | t in desired && c in desired[t].columns
        ensures TypeSettles(desired, cat, Cell(t, c)) && DefaultSettles(desired, cat, Cell(t, c))
        ensures t !in cat.tables && desired[t].columns[c].primaryKey ==> !desired[t].columns[c].nullable
      {
        assert ColumnSettles(desired, cat, Cell(t, c));
      }
    } else {
      var cell :| Wanted(desired, cell) && !ColumnSettles(desired, cat, cell);
      assert cell == Cell(cell.table, cell.name);
    }
  }

  lemma ForeignKeysMatchIff(desired: DesiredSchema, current: CurrentSchema, cat: Catalogue,
                            done: set<Statement>, st: Catalogue)
    requires Executed(desired, current, cat, done, st)
    ensures ForeignKeysMatch(desired, st) <==> RelationColumnsOwn(desired)
  {
    hide Executed, AlreadyRealised, Justified;
    forall t, r | t in desired && r in desired[t].relations
      ensures AlreadyRealised(st, t, desired[t].relations[r]) <==> desired[t].relations[r].foreignKey in desired[t].columns
    {
      RelationsRealised(desired, current, cat, done, st, t, r);
    }
    forall cell | cell in st.constraints && st.constraints[cell].References?
      ensures Justified(desired, cell, st.constraints[cell])
    {
      ForeignKeysAreJustified(desired, current, cat, done, st, cell);
    }
  }
}
