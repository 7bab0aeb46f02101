/**
 * The verdicts of the planner: when a plan is empty, when it is destructive, and what the
 * planner says when it is run again on the catalogue that its own plan produced.
 */
module Fixpoint {
  import opened Normalize
  import opened Schema
  import opened Catalogue
  import opened Plan
  import opened PlanRun
  import opened PlanOutcome
  import opened Convergence

  predicate IsPolicyStatement(s: Statement) {
    s.CreatePolicy? || s.DropPolicy?
  }

  /** The planner has nothing to say, except for regenerating policies. */
  ghost predicate Silent(desired: DesiredSchema, current: CurrentSchema) {
    forall s :: Planned(desired, current, s) ==> IsPolicyStatement(s)
  }

  /** The planner is silent exactly on a catalogue that is what the desired schema asks for. */
  lemma SilentIffConverged(desired: DesiredSchema, current: CurrentSchema, cat: Catalogue)
    requires Anchored(cat) && Describes(current, cat)
    ensures Silent(desired, current) <==> Converged(desired, cat)
  {
    hide Silent, Converged, Describes, Anchored;
    if Silent(desired, current) {
      SilentTables(desired, current, cat);
      forall cell ensures SameColumn(desired, cat, cell) {
        SilentColumn(desired, current, cat, cell);
      }
      forall t, r | t in desired && r in desired[t].relations ensures AlreadyRealised(cat, t, desired[t].relations[r]) {
        SilentRelation(desired, current, cat, t, r);
      }
      forall cell | cell in cat.constraints && cat.constraints[cell].References?
        ensures Justified(desired, cell, cat.constraints[cell])
      {
        SilentForeignKey(desired, current, cat, cell);
      }
      hide *;
      AssembleConverged(desired, cat);
    }
    if Converged(desired, cat) {
      forall s | Planned(desired, current, s) ensures IsPolicyStatement(s) {
        hide Planned, IsPolicyStatement;
        ConvergedSays(desired, current, cat, s);
      }
      hide *;
      AssembleSilent(desired, current);
    }
  }

  ghost predicate SameColumn(desired: DesiredSchema, cat: Catalogue, cell: Cell) {
    && (cell in cat.columns <==> Wanted(desired, cell))
    && (cell in cat.columns && Wanted(desired, cell) ==>
          ColumnMatches(cat.shown, desired[cell.table].columns[cell.name], cat.columns[cell]))
  }

  lemma AssembleConverged(desired: DesiredSchema, cat: Catalogue)
    requires cat.tables == desired.Keys && forall cell :: SameColumn(desired, cat, cell)
    requires forall t, r :: t in desired && r in desired[t].relations ==> AlreadyRealised(cat, t, desired[t].relations[r])
    requires forall cell :: cell in cat.constraints && cat.constraints[cell].References? ==>
      Justified(desired, cell, cat.constraints[cell])
    ensures Converged(desired, cat)
  {
    hide ColumnMatches, AlreadyRealised, Justified;
    forall cell ensures cell in cat.columns <==> Wanted(desired, cell)
      ensures cell in cat.columns && Wanted(desired, cell) ==>
        ColumnMatches(cat.shown, desired[cell.table].columns[cell.name], cat.columns[cell])
    {
      assert SameColumn(desired, cat, cell);
    }
  }

  lemma AssembleSilent(desired: DesiredSchema, current: CurrentSchema)
    requires forall s :: Planned(desired, current, s) ==> IsPolicyStatement(s)
    ensures Silent(desired, current)
  {
    hide Planned;
  }

  lemma SilentTables(desired: DesiredSchema, current: CurrentSchema, cat: Catalogue)
    requires Describes(current, cat) && Silent(desired, current)
    ensures cat.tables == desired.Keys
  {
    hide NormalizeType, DescribesColumns, DescribesForeignKeys, DescribesIndexes;
    forall t ensures t in current <==> t in desired {
      if t in desired {
        assert !Planned(desired, current, CreateTableFor(t, desired[t]));
      }
      assert !Planned(desired, current, DropTable(t));
    }
  }

  lemma SilentColumn(desired: DesiredSchema, current: CurrentSchema, cat: Catalogue, cell: Cell)
    requires Anchored(cat) && Describes(current, cat) && Silent(desired, current) && cat.tables == desired.Keys
    ensures SameColumn(desired, cat, cell)
  {
    hide NormalizeType, Canonical, FromPg, NormalizeDefault, DescribesForeignKeys, DescribesIndexes, ColumnMatches;
    var t, c := cell.table, cell.name;
    assert !Planned(desired, current, DropColumn(t, c));
    if Wanted(desired, cell) {
      assert !Planned(desired, current, AddColumnFor(t, c, desired[t].columns[c]));
      if cell in cat.columns {
        SilentColumnShape(desired, current, cat, cell);
      }
    }
  }

  lemma SilentColumnShape(desired: DesiredSchema, current: CurrentSchema, cat: Catalogue, cell: Cell)
    requires Anchored(cat) && Describes(current, cat) && Silent(desired, current)
    requires cell in cat.columns && Wanted(desired, cell)
    ensures ColumnMatches(cat.shown, desired[cell.table].columns[cell.name], cat.columns[cell])
  {
    hide Silent, NormalizeType, Canonical, FromPg, NormalizeDefaultOption, DescribesForeignKeys, DescribesIndexes;
    var t, c := cell.table, cell.name;
    assert Cell(t, c) == cell && IsKeptColumn(desired, current, t, c);
    SilentType(desired, current, t, c);
    SilentNullability(desired, current, t, c);
    SilentDefault(desired, current, t, c);
  }

  lemma SilentType(desired: DesiredSchema, current: CurrentSchema, t: string, c: string)
    requires Silent(desired, current) && IsKeptColumn(desired, current, t, c)
    ensures !TypeDiffers(desired[t].columns[c], ColumnNamed(current[t].columns, c).value)
  {
    hide NormalizeType, Canonical;
    assert !Planned(desired, current, AlterTypeFor(t, c, desired[t].columns[c]));
  }

  lemma SilentNullability(desired: DesiredSchema, current: CurrentSchema, t: string, c: string)
    requires Silent(desired, current) && IsKeptColumn(desired, current, t, c)
    ensures desired[t].columns[c].nullable == ColumnNamed(current[t].columns, c).value.isNullable
  {
    hide TypeDiffers;
    assert !Planned(desired, current, DropNotNull(t, c)) && !Planned(desired, current, SetNotNull(t, c));
  }

  lemma SilentDefault(desired: DesiredSchema, current: CurrentSchema, t: string, c: string)
    requires Silent(desired, current) && IsKeptColumn(desired, current, t, c)
    ensures !DefaultDiffers(desired[t].columns[c], ColumnNamed(current[t].columns, c).value)
  {
    hide DefaultDiffers, TypeDiffers;
    var default := desired[t].columns[c].default;
    if default.Some? {
      assert !Planned(desired, current, SetDefault(t, c, default.value));
    } else {
      assert !Planned(desired, current, DropDefault(t, c));
    }
  }

  lemma SilentRelation(desired: DesiredSchema, current: CurrentSchema, cat: Catalogue, t: string, r: string)
    requires Anchored(cat) && Describes(current, cat) && Silent(desired, current)
    requires t in desired && r in desired[t].relations
    ensures AlreadyRealised(cat, t, desired[t].relations[r])
  {
    hide Anchored, Describes, AlreadyRealised;
    RealisedIffExists(current, cat, t, desired[t].relations[r]);
    if t !in current || !FkExists(current[t], desired[t].relations[r]) {
      RelationPlanned(desired, current, t, r);
    }
  }

  lemma SilentForeignKey(desired: DesiredSchema, current: CurrentSchema, cat: Catalogue, cell: Cell)
    requires Anchored(cat) && Describes(current, cat) && Silent(desired, current)
    requires cell in cat.constraints && cat.constraints[cell].References?
    ensures Justified(desired, cell, cat.constraints[cell])
  {
    hide NormalizeType, DescribesColumns, DescribesIndexes;
    var fk := AsForeignKey(cell, cat.constraints[cell]);
    assert fk in current[cell.table].foreignKeys;
    assert !Planned(desired, current, DropConstraint(cell.table, cell.name));
    var r :| r in desired[cell.table].relations && Realises(fk, desired[cell.table].relations[r]);
    assert RealisedBy(cat.constraints[cell], desired[cell.table].relations[r]);
  }

  lemma ConvergedSays(desired: DesiredSchema, current: CurrentSchema, cat: Catalogue, s: Statement)
    requires Anchored(cat) && Describes(current, cat) && Converged(desired, cat) && Planned(desired, current, s)
    ensures IsPolicyStatement(s)
  {
    if s.AddForeignKey? {
      var r := PlannedForeignKey(desired, current, s);
      assert AlreadyRealised(cat, s.table, desired[s.table].relations[r]);
      RealisedIffExists(current, cat, s.table, desired[s.table].relations[r]);
      assert false;
    } else if s.DropConstraint? {
      UnjustifiedDrop(desired, current, cat, s);
    } else if ChangesColumn(s) || s.AddColumn? || s.DropColumn? {
      NoColumnChange(desired, current, cat, s);
    } else {
      hide NormalizeType, ColumnsMatch, ForeignKeysMatch, DescribesColumns, DescribesForeignKeys, DescribesIndexes;
    }
  }

  lemma UnjustifiedDrop(desired: DesiredSchema, current: CurrentSchema, cat: Catalogue, s: Statement)
    requires Describes(current, cat) && s.DropConstraint? && Planned(desired, current, s)
    ensures !Converged(desired, cat)
  {
    hide NormalizeType, DescribesColumns, DescribesIndexes, ColumnsMatch;
    var t := s.table;
    var fk :|
      fk in current[t].foreignKeys && fk.constraintName == s.constraint && (t in desired ==> !StillDesired(desired[t], fk));
    var cell := Cell(t, fk.constraintName);
    if t in desired {
      NotJustified(desired, cell, cat.constraints[cell], fk);
    }
  }

  lemma NoColumnChange(desired: DesiredSchema, current: CurrentSchema, cat: Catalogue, s: Statement)
    requires Describes(current, cat) && Planned(desired, current, s)
    requires ChangesColumn(s) || s.AddColumn? || s.DropColumn?
    ensures !Converged(desired, cat)
  {
    hide NormalizeType, Canonical, FromPg, NormalizeDefault, DescribesForeignKeys, DescribesIndexes, ForeignKeysMatch;
    assert Wanted(desired, Cell(s.table, s.column)) || s.DropColumn?;
  }

  lemma OutcomeAnchored(desired: DesiredSchema, current: CurrentSchema, cat: Catalogue, p: seq<Statement>, st: Catalogue)
    requires Outcome(desired, current, cat, p, st)
    ensures Anchored(st)
  {
    hide *;
    OutcomeExecuted(desired, current, cat, p, st);
    FinalTables(desired, current, cat, Elements(p), st);
    ExecutedConstraints(desired, current, cat, Elements(p), st);
    forall cell | cell in st.columns ensures cell.table in st.tables {
      FinalColumns(desired, current, cat, Elements(p), st, cell);
      WantedTable(desired, cell);
    }
    forall cell | cell in st.constraints ensures cell.table in st.tables {
      StillThere(desired, current, cat, Elements(p), st, cell);
      ConstraintTable(desired, current, cat, Elements(p), st, cell);
    }
    IsAnchored(st);
  }

  lemma WantedTable(desired: DesiredSchema, cell: Cell)
    requires Wanted(desired, cell)
    ensures cell.table in desired
  {}

  lemma ConstraintTable(desired: DesiredSchema, current: CurrentSchema, cat: Catalogue,
                        done: set<Statement>, st: Catalogue, cell: Cell)
    requires ReadsConstraints(desired, current, cat, done, st) && DropTable(cell.table) !in done
    requires cell in cat.constraints || (exists con :: AddedBy(done, cell, con))
    ensures cell.table in desired
  {
    hide NormalizeType, DescribesColumns, DescribesForeignKeys, ConstraintsReached, SingleColumn;
    assert !Planned(desired, current, DropTable(cell.table));
  }

  lemma IsAnchored(st: Catalogue)
    requires forall cell :: cell in st.columns ==> cell.table in st.tables
    requires forall cell :: cell in st.constraints ==> cell.table in st.tables
    ensures Anchored(st)
  {}

  /**
   * Planning again: on a reading of the catalogue that a plan produced, the planner is silent
   * exactly when the desired schema is settled.
   */
  lemma SecondPlanSilent(desired: DesiredSchema, current: CurrentSchema, cat: Catalogue,
                         p: seq<Statement>, st: Catalogue, again: CurrentSchema)
    requires Outcome(desired, current, cat, p, st) && Describes(again, st)
    ensures Silent(desired, again) <==> Settled(desired, cat)
  {
    hide *;
    OutcomeAnchored(desired, current, cat, p, st);
    ConvergedIffSettled(desired, current, cat, p, st);
    SilentIffConverged(desired, again, st);
  }

  /** Without access rules, a plan is empty exactly when the catalogue is as desired. */
  lemma EmptyIffConverged(desired: DesiredSchema, current: CurrentSchema, cat: Catalogue, p: seq<Statement>)
    requires Anchored(cat) && Describes(current, cat) && IsPlan(desired, current, p)
    requires forall t :: t in desired ==> desired[t].access.None?
    ensures p == [] <==> Converged(desired, cat)
  {
    SilentIffConverged(desired, current, cat);
    hide Anchored, Describes, Converged;
    if p != [] {
      assert p[0] in p && Planned(desired, current, p[0]);
      assert !IsPolicyStatement(p[0]) by {
        hide NormalizeType;
      }
    }
  }

  /** The verdict `has_destructive`: some existing table or column is gone after the plan. */
  lemma DestructiveIffLoss(desired: DesiredSchema, current: CurrentSchema, cat: Catalogue,
                           p: seq<Statement>, st: Catalogue)
    requires Outcome(desired, current, cat, p, st)
    ensures LosesData(desired, current) <==>
      !(cat.tables <= st.tables && cat.columns.Keys <= st.columns.Keys)
  {
    assert WellFormed(cat) && current.Keys == cat.tables && DescribesColumns(current, cat);
    OutcomeExecuted(desired, current, cat, p, st);
    hide *;
    FinalTables(desired, current, cat, Elements(p), st);
    forall cell ensures cell in st.columns <==> Wanted(desired, cell) {
      FinalColumns(desired, current, cat, Elements(p), st, cell);
    }
    LossMeansMissing(desired, current, cat, st);
  }

  lemma LossMeansMissing(desired: DesiredSchema, current: CurrentSchema, cat: Catalogue, st: Catalogue)
    requires WellFormed(cat) && current.Keys == cat.tables && DescribesColumns(current, cat)
    requires st.tables == desired.Keys && forall cell :: cell in st.columns <==> Wanted(desired, cell)
    ensures LosesData(desired, current) <==> !(cat.tables <= st.tables && cat.columns.Keys <= st.columns.Keys)
  {
    if t :| t in current && t in desired && exists c :: HasColumn(current[t], c) && c !in desired[t].columns {
      var c :| HasColumn(current[t], c) && c !in desired[t].columns;
      assert Cell(t, c) in cat.columns && Cell(t, c) !in st.columns;
    }
    if cell :| cell in cat.columns && cell !in st.columns {
      assert cell == Cell(cell.table, cell.name);
      assert HasColumn(current[cell.table], cell.name);
    }
  }
}
