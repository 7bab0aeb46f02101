/** Executing a plan keeps the catalogue well-formed, statement by statement. */
module WellFormedRuns {
  import opened Schema
  import opened Catalogue
  import opened Plan
  import opened PlanRun
  import opened PlanOutcome
  import opened Convergence

  /** The foreign keys the planner adds are on one column and onto `id`. */
  predicate Plannable(s: Statement) {
    s.AddForeignKey? ==> |s.cols| == 1 && s.refColumns == ["id"]
  }

  lemma PlannedPlannable(desired: DesiredSchema, current: CurrentSchema, s: Statement)
    requires Planned(desired, current, s)
    ensures Plannable(s)
  {}

  lemma KeepsAnchors(cat: Catalogue, s: Statement)
    requires WellFormed(cat) && Accepts(cat, s)
    ensures var after := Apply(cat, s);
      && Anchored(after)
      && (forall cell :: cell in after.policies ==> cell.table in after.tables)
      && (forall i :: i in after.indexes ==> after.indexes[i].table in after.tables)
      && after.keys.Keys <= after.tables && after.rlsEnabled <= after.tables && after.rlsForced <= after.tables
  {
    hide HasKey;
  }

  lemma KeepsKeys(cat: Catalogue, s: Statement)
    requires WellFormed(cat) && Accepts(cat, s)
    ensures var after := Apply(cat, s);
      forall t, c :: t in after.tables && InKey(after, t, c) ==>
        Cell(t, c) in after.columns && !after.columns[Cell(t, c)].nullable
  {
    hide HasKey, ConstraintsAfter, IndexesAfter, PoliciesAfter, RlsEnabledAfter, RlsForcedAfter;
  }

  lemma KeepsForeignKeys(cat: Catalogue, s: Statement)
    requires WellFormed(cat) && Accepts(cat, s) && Plannable(s)
    ensures var after := Apply(cat, s);
      forall cell :: cell in after.constraints && after.constraints[cell].References? ==>
        SingleColumn(after, cell.table, after.constraints[cell])
  {
    hide HasKey, KeysAfter, IndexesAfter, PoliciesAfter, RlsEnabledAfter, RlsForcedAfter;
    var after := Apply(cat, s);
    forall cell | cell in after.constraints && after.constraints[cell].References?
      ensures SingleColumn(after, cell.table, after.constraints[cell])
    {
      if cell in cat.constraints && cat.constraints[cell] == after.constraints[cell] {
        assert SingleColumn(cat, cell.table, cat.constraints[cell]);
      }
    }
  }

  lemma KeepsIndexNames(cat: Catalogue, s: Statement)
    requires WellFormed(cat) && Accepts(cat, s)
    ensures var after := Apply(cat, s);
      forall cell :: cell in after.constraints && after.constraints[cell].Unique? ==> cell.name !in after.indexes
  {
    hide HasKey, ColumnsAfter, KeysAfter, PoliciesAfter, RlsEnabledAfter, RlsForcedAfter;
  }

  /** An accepted statement of a plan keeps the catalogue well-formed. */
  lemma ApplyKeepsWellFormed(cat: Catalogue, s: Statement)
    requires WellFormed(cat) && Accepts(cat, s) && Plannable(s)
    ensures WellFormed(Apply(cat, s))
  {
    KeepsAnchors(cat, s);
    KeepsKeys(cat, s);
    KeepsForeignKeys(cat, s);
    KeepsIndexNames(cat, s);
    hide Apply, Accepts, Anchored, SingleColumn, InKey;
  }

  lemma {:induction false} RunKeepsWellFormed(cat: Catalogue, statements: seq<Statement>)
    requires WellFormed(cat) && (forall s :: s in statements ==> Plannable(s)) && Run(cat, statements).Some?
    ensures WellFormed(Run(cat, statements).value)
    decreases |statements|
  {
    hide WellFormed, Plannable, Accepts, Apply;
    if statements != [] {
      assert statements[0] in statements;
      ApplyKeepsWellFormed(cat, statements[0]);
      RunKeepsWellFormed(Apply(cat, statements[0]), statements[1..]);
    }
  }

  /** What a plan leaves is a fit input for planning again. */
  lemma OutcomeIsInput(desired: DesiredSchema, current: CurrentSchema, cat: Catalogue,
                       p: seq<Statement>, st: Catalogue, again: CurrentSchema)
    requires Outcome(desired, current, cat, p, st) && Describes(again, st)
    ensures Inputs(desired, again, st)
  {
    InputsResolve(desired, current, cat);
    PlannedInPlan(desired, current, p);
    hide Planned, WellFormed, Describes, IsPlan, Plannable, RelationsResolve, Run;
    forall s | s in p
      ensures Plannable(s)
    {
      PlannedPlannable(desired, current, s);
    }
    RunKeepsWellFormed(cat, p);
  }
}
