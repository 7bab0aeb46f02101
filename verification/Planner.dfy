/**
 * The planner of `diff/diff.rs`: it walks the two schemas in the unspecified order of their hash
 * sets and maps, pushes statements into buckets, counts them, and concatenates the buckets.
 */
module Planner {
  import opened Wrappers
  import opened Normalize
  import opened Schema
  import opened Catalogue
  import opened Plan
  import opened PlanRun
  import PlanOutcome

  /** `DiffStatements`: one vector of statements per bucket. */
  class DiffStatements {
    var buckets: map<Bucket, seq<Statement>>
    ghost var emitted: set<Statement>

    ghost predicate Valid()
      reads this
    {
      && (forall b: Bucket :: b in buckets)
      && (forall b: Bucket :: NoDuplicates(buckets[b]))
      && (forall b: Bucket, s :: s in buckets[b] <==> s in emitted && BucketOf(s) == b)
    }

    constructor ()
      ensures Valid() && emitted == {}
      ensures forall b: Bucket :: buckets[b] == []
    {
      buckets := map b | b in Elements(ASSEMBLY) :: [];
      emitted := {};
      new;
      forall b: Bucket ensures b in buckets {
        assert ASSEMBLY[Rank(b)] == b;
      }
    }

    method Push(b: Bucket, s: Statement)
      requires Valid() && BucketOf(s) == b && s !in emitted
      modifies this
      ensures Valid() && emitted == old(emitted) + {s}
      ensures buckets == old(buckets)[b := old(buckets)[b] + [s]]
    {
      buckets := buckets[b := buckets[b] + [s]];
      emitted := emitted + {s};
    }

    /** The concatenation of the buckets in their fixed order. */
    method Assemble() returns (all: seq<Statement>)
      requires Valid()
      ensures NoDuplicates(all) && InBucketOrder(all)
      ensures forall s :: s in all <==> s in emitted
    {
      all := [];
      for k := 0 to |ASSEMBLY|
        invariant NoDuplicates(all) && InBucketOrder(all)
        invariant forall s :: s in all <==> s in emitted && StatementRank(s) < k
      {
        var b := ASSEMBLY[k];
        assert Rank(b) == k;
        all := all + buckets[b];
      }
      assert forall s :: StatementRank(s) < |ASSEMBLY|;
    }
  }

  /** The counters of `DiffSummary`. */
  datatype Counter =
    | TablesCreated | TablesDropped | ColumnsAdded | ColumnsDropped | ColumnsModified
    | IndexesCreated | IndexesDropped | ForeignKeysAdded | ForeignKeysDropped
    | RlsEnabled | PoliciesCreated | PoliciesDropped

  /** The bucket whose statements a counter counts one by one. */
  function CountedBucket(k: Counter): Option<Bucket> {
    match k
    case TablesCreated => Some(CreateTables)
    case TablesDropped => Some(DropTables)
    case ColumnsAdded => Some(AddColumns)
    case ColumnsDropped => Some(DropColumns)
    case IndexesCreated => Some(CreateIndexes)
    case IndexesDropped => Some(DropIndexes)
    case ForeignKeysAdded => Some(AddFks)
    case ForeignKeysDropped => Some(DropFks)
    case PoliciesCreated => Some(CreatePolicies)
    case PoliciesDropped => Some(DropPolicies)
    case RlsEnabled => None
    case ColumnsModified => None
  }

  /** `DiffSummary`, with the changed columns that `columns_modified` counts. */
  class DiffSummary {
    var counters: map<Counter, nat>
    ghost var shapes: set<Cell>
    ghost var defaults: set<Cell>

    constructor ()
      ensures forall k: Counter :: k in counters && counters[k] == 0
      ensures shapes == {} && defaults == {}
    {
      counters := map[
        TablesCreated := 0, TablesDropped := 0, ColumnsAdded := 0, ColumnsDropped := 0, ColumnsModified := 0,
        IndexesCreated := 0, IndexesDropped := 0, ForeignKeysAdded := 0, ForeignKeysDropped := 0,
        RlsEnabled := 0, PoliciesCreated := 0, PoliciesDropped := 0];
      shapes, defaults := {}, {};
      new;
      forall k: Counter ensures k in counters && counters[k] == 0 {
        match k
        case TablesCreated => case TablesDropped => case ColumnsAdded => case ColumnsDropped =>
        case ColumnsModified => case IndexesCreated => case IndexesDropped => case ForeignKeysAdded =>
        case ForeignKeysDropped => case RlsEnabled => case PoliciesCreated => case PoliciesDropped =>
      }
    }

    method Increment(k: Counter, n: nat)
      requires k in counters
      modifies this`counters
      ensures counters == old(counters)[k := old(counters)[k] + n]
    {
      counters := counters[k := counters[k] + n];
    }

    ghost predicate Counts(st: DiffStatements)
      reads this, st
    {
      Tallies(counters, st.buckets, |shapes| + |defaults|)
    }
  }

  /** Every counter agrees with the statements in the buckets. */
  ghost predicate Tallies(counters: map<Counter, nat>, buckets: map<Bucket, seq<Statement>>, modified: nat) {
    && (forall k: Counter :: k in counters) && (forall b: Bucket :: b in buckets)
    && (forall k: Counter :: CountedBucket(k).Some? ==> counters[k] == |buckets[CountedBucket(k).value]|)
    && 2 * counters[RlsEnabled] == |buckets[RowSecurity]|
    && counters[ColumnsModified] == modified
  }

  lemma TallyPush(counters: map<Counter, nat>, buckets: map<Bucket, seq<Statement>>, modified: nat,
                  k: Counter, b: Bucket, s: Statement)
    requires Tallies(counters, buckets, modified) && CountedBucket(k) == Some(b)
    ensures k in counters && b in buckets
    ensures Tallies(counters[k := counters[k] + 1], buckets[b := buckets[b] + [s]], modified)
  {}

  lemma TallyUncounted(counters: map<Counter, nat>, buckets: map<Bucket, seq<Statement>>, modified: nat,
                       b: Bucket, s: Statement)
    requires Tallies(counters, buckets, modified)
    requires b != RowSecurity && forall k :: CountedBucket(k) != Some(b)
    ensures b in buckets && Tallies(counters, buckets[b := buckets[b] + [s]], modified)
  {}

  /** A statement that the summary counts: pushed, and its counter incremented. */
  method PushCounted(k: Counter, b: Bucket, s: Statement, statements: DiffStatements, summary: DiffSummary)
    requires statements.Valid() && summary.Counts(statements)
    requires CountedBucket(k) == Some(b) && BucketOf(s) == b && s !in statements.emitted
    modifies statements, summary
    ensures statements.Valid() && summary.Counts(statements)
    ensures summary.shapes == old(summary.shapes) && summary.defaults == old(summary.defaults)
    ensures statements.emitted == old(statements.emitted) + {s}
  {
    hide Tallies, DiffStatements.Valid;
    TallyPush(summary.counters, statements.buckets, |summary.shapes| + |summary.defaults|, k, b, s);
    statements.Push(b, s);
    summary.Increment(k, 1);
  }

  /** One more column whose type or nullability changes. */
  method CountShape(cell: Cell, statements: DiffStatements, summary: DiffSummary)
    requires summary.Counts(statements) && cell !in summary.shapes
    modifies summary
    ensures summary.Counts(statements)
    ensures summary.shapes == old(summary.shapes) + {cell} && summary.defaults == old(summary.defaults)
  {
    hide Tallies;
    TallyModified(summary.counters, statements.buckets, |summary.shapes| + |summary.defaults|);
    summary.Increment(ColumnsModified, 1);
    summary.shapes := summary.shapes + {cell};
  }

  /** One more column whose default changes. */
  method CountDefault(cell: Cell, statements: DiffStatements, summary: DiffSummary)
    requires summary.Counts(statements) && cell !in summary.defaults
    modifies summary
    ensures summary.Counts(statements)
    ensures summary.defaults == old(summary.defaults) + {cell} && summary.shapes == old(summary.shapes)
  {
    hide Tallies;
    TallyModified(summary.counters, statements.buckets, |summary.shapes| + |summary.defaults|);
    summary.Increment(ColumnsModified, 1);
    summary.defaults := summary.defaults + {cell};
  }

  /** A statement that no counter of its own counts. */
  method PushUncounted(b: Bucket, s: Statement, statements: DiffStatements, summary: DiffSummary)
    requires statements.Valid() && summary.Counts(statements)
    requires b != RowSecurity && BucketOf(s) == b && s !in statements.emitted
    requires forall k :: CountedBucket(k) != Some(b)
    modifies statements
    ensures statements.Valid() && summary.Counts(statements)
    ensures statements.emitted == old(statements.emitted) + {s}
  {
    hide Tallies, DiffStatements.Valid;
    TallyUncounted(summary.counters, statements.buckets, |summary.shapes| + |summary.defaults|, b, s);
    statements.Push(b, s);
  }

  // ----- the parts of the plan, table by table ----------------------------------------------

  ghost predicate NewTablePart(desired: DesiredSchema, current: CurrentSchema, t: string, s: Statement) {
    Planned(desired, current, s) && (s.CreateTable? || s.AddUnique?) && s.table == t
  }

  predicate NeedsUnique(table: DesiredTable, c: string) {
    c in table.columns && table.columns[c].unique && !table.columns[c].primaryKey
  }

  function UniqueFor(t: string, c: string): Statement {
    AddUnique(t, UniqueName(t, c), c)
  }

  lemma NewTableStatements(desired: DesiredSchema, current: CurrentSchema, t: string, s: Statement)
    requires IsNew(desired, current, t)
    ensures NewTablePart(desired, current, t, s) <==>
      s == CreateTableFor(t, desired[t]) || (s.AddUnique? && NeedsUnique(desired[t], s.column) && s == UniqueFor(t, s.column))
  {
    hide NormalizeType;
  }

  method PlanNewTable(desired: DesiredSchema, current: CurrentSchema, t: string,
                      statements: DiffStatements, summary: DiffSummary)
    requires IsNew(desired, current, t)
    requires statements.Valid() && summary.Counts(statements)
    requires forall s :: NewTablePart(desired, current, t, s) ==> s !in statements.emitted
    modifies statements, summary
    ensures statements.Valid() && summary.Counts(statements)
    ensures summary.shapes == old(summary.shapes) && summary.defaults == old(summary.defaults)
    ensures forall s :: s in statements.emitted <==>
      s in old(statements.emitted) || NewTablePart(desired, current, t, s)
  {
    hide CreateTableFor, NewTablePart, DiffStatements.Valid, Tallies;
    forall s {
      NewTableStatements(desired, current, t, s);
    }
    var table := desired[t];
    var create := CreateTableFor(t, table);
    PushCounted(TablesCreated, CreateTables, create, statements, summary);
    var todo := table.columns.Keys;
    while todo != {}
      invariant todo <= table.columns.Keys
      invariant statements.Valid() && summary.Counts(statements)
      invariant summary.shapes == old(summary.shapes) && summary.defaults == old(summary.defaults)
      invariant forall s :: s in statements.emitted <==>
        s in old(statements.emitted) || s == create ||
        (s.AddUnique? && NeedsUnique(table, s.column) && s == UniqueFor(t, s.column) && s.column !in todo)
    {
      var c :| c in todo;
      if table.columns[c].unique && !table.columns[c].primaryKey {
        PushUncounted(AddUniques, UniqueFor(t, c), statements, summary);
      }
      todo := todo - {c};
    }
  }

  ghost predicate DroppedTablePart(desired: DesiredSchema, current: CurrentSchema, t: string, s: Statement) {
    && IsDropped(desired, current, t)
    && match s {
         case DropConstraint(u, n) => u == t && NamesForeignKey(current[t].foreignKeys, n)
         case DropIndex(i) => ListsIndex(current[t].indexes, i)
         case DropTable(u) => u == t
         case _ => false
       }
  }

  predicate NamesForeignKey(fks: seq<ForeignKey>, n: string) {
    exists fk :: fk in fks && fk.constraintName == n
  }

  lemma ForeignKeyPrefix(fks: seq<ForeignKey>, k: nat, n: string)
    requires k < |fks|
    ensures NamesForeignKey(fks[..k + 1], n) <==> NamesForeignKey(fks[..k], n) || fks[k].constraintName == n
  {
    assert fks[..k + 1] == fks[..k] + [fks[k]];
    if fk :| fk in fks[..k] && fk.constraintName == n {
      assert fk in fks[..k + 1];
    }
    assert fks[k] in fks[..k + 1];
  }

  lemma IndexPrefix(indexes: seq<Index>, k: nat, n: string)
    requires k < |indexes|
    ensures ListsIndex(indexes[..k + 1], n) <==> ListsIndex(indexes[..k], n) || indexes[k].name == n
  {
    assert indexes[..k + 1] == indexes[..k] + [indexes[k]];
    if idx :| idx in indexes[..k] && idx.name == n {
      assert idx in indexes[..k + 1];
    }
    assert indexes[k] in indexes[..k + 1];
  }

  method PlanDroppedTable(desired: DesiredSchema, current: CurrentSchema, t: string,
                          statements: DiffStatements, summary: DiffSummary)
    requires IsDropped(desired, current, t) && DistinctNames(current)
    requires statements.Valid() && summary.Counts(statements)
    requires forall s :: DroppedTablePart(desired, current, t, s) ==> s !in statements.emitted
    modifies statements, summary
    ensures statements.Valid() && summary.Counts(statements)
    ensures summary.shapes == old(summary.shapes) && summary.defaults == old(summary.defaults)
    ensures forall s :: s in statements.emitted <==>
      s in old(statements.emitted) || DroppedTablePart(desired, current, t, s)
  {
    hide DiffStatements.Valid, Tallies, NamesForeignKey, ListsIndex, DistinctNames;
    DropForeignKeysOf(desired, current, t, statements, summary);
    DropIndexesOf(desired, current, t, statements, summary);
    PushCounted(TablesDropped, DropTables, DropTable(t), statements, summary);
  }

  method DropForeignKeysOf(desired: DesiredSchema, current: CurrentSchema, t: string,
                           statements: DiffStatements, summary: DiffSummary)
    requires t in current && DistinctNames(current)
    requires statements.Valid() && summary.Counts(statements)
    requires forall n :: NamesForeignKey(current[t].foreignKeys, n) ==> DropConstraint(t, n) !in statements.emitted
    modifies statements, summary
    ensures statements.Valid() && summary.Counts(statements)
    ensures summary.shapes == old(summary.shapes) && summary.defaults == old(summary.defaults)
    ensures forall s :: s in statements.emitted <==>
      s in old(statements.emitted) ||
      (s.DropConstraint? && s.table == t && NamesForeignKey(current[t].foreignKeys, s.constraint))
  {
    hide DiffStatements.Valid, Tallies, NamesForeignKey;
    var fks := current[t].foreignKeys;
    NoNames(fks, current[t].indexes);
    for k := 0 to |fks|
      invariant statements.Valid() && summary.Counts(statements)
      invariant summary.shapes == old(summary.shapes) && summary.defaults == old(summary.defaults)
      invariant forall s :: s in statements.emitted <==>
        s in old(statements.emitted) || (s.DropConstraint? && s.table == t && NamesForeignKey(fks[..k], s.constraint))
    {
      var s := DropConstraint(t, fks[k].constraintName);
      forall n {
        ForeignKeyPrefix(fks, k, n);
      }
      FreshForeignKey(current, t, k);
      PushCounted(ForeignKeysDropped, DropFks, s, statements, summary);
    }
    assert fks[..|fks|] == fks;
  }

  lemma NoNames(fks: seq<ForeignKey>, indexes: seq<Index>)
    ensures forall n :: !NamesForeignKey(fks[..0], n) && !ListsIndex(indexes[..0], n)
  {}

  lemma FreshForeignKey(current: CurrentSchema, t: string, k: nat)
    requires t in current && DistinctNames(current) && k < |current[t].foreignKeys|
    ensures var fks := current[t].foreignKeys;
      NamesForeignKey(fks, fks[k].constraintName) && !NamesForeignKey(fks[..k], fks[k].constraintName)
  {
    var fks := current[t].foreignKeys;
    assert fks[k] in fks;
  }

  method DropIndexesOf(desired: DesiredSchema, current: CurrentSchema, t: string,
                       statements: DiffStatements, summary: DiffSummary)
    requires t in current && DistinctNames(current)
    requires statements.Valid() && summary.Counts(statements)
    requires forall i :: ListsIndex(current[t].indexes, i) ==> DropIndex(i) !in statements.emitted
    modifies statements, summary
    ensures statements.Valid() && summary.Counts(statements)
    ensures summary.shapes == old(summary.shapes) && summary.defaults == old(summary.defaults)
    ensures forall s :: s in statements.emitted <==>
      s in old(statements.emitted) || (s.DropIndex? && ListsIndex(current[t].indexes, s.index))
  {
    hide DiffStatements.Valid, Tallies, ListsIndex;
    var indexes := current[t].indexes;
    NoNames(current[t].foreignKeys, indexes);
    for k := 0 to |indexes|
      invariant statements.Valid() && summary.Counts(statements)
      invariant summary.shapes == old(summary.shapes) && summary.defaults == old(summary.defaults)
      invariant forall s :: s in statements.emitted <==>
        s in old(statements.emitted) || (s.DropIndex? && ListsIndex(indexes[..k], s.index))
    {
      var s := DropIndex(indexes[k].name);
      forall n {
        IndexPrefix(indexes, k, n);
      }
      FreshIndex(current, t, k);
      PushCounted(IndexesDropped, DropIndexes, s, statements, summary);
    }
    assert indexes[..|indexes|] == indexes;
  }

  lemma FreshIndex(current: CurrentSchema, t: string, k: nat)
    requires t in current && DistinctNames(current) && k < |current[t].indexes|
    ensures var indexes := current[t].indexes;
      ListsIndex(indexes, indexes[k].name) && !ListsIndex(indexes[..k], indexes[k].name)
  {
    var indexes := current[t].indexes;
    assert indexes[k] in indexes;
  }

  // ----- kept tables ------------------------------------------------------------------------

  lemma TallyModified(counters: map<Counter, nat>, buckets: map<Bucket, seq<Statement>>, modified: nat)
    requires Tallies(counters, buckets, modified)
    ensures ColumnsModified in counters
    ensures Tallies(counters[ColumnsModified := counters[ColumnsModified] + 1], buckets, modified + 1)
  {}

  ghost predicate ShapePart(desired: DesiredSchema, current: CurrentSchema, t: string, c: string, s: Statement) {
    && Planned(desired, current, s) && (s.DropNotNull? || s.AlterColumnType? || s.SetNotNull?)
    && s.table == t && s.column == c
  }

  ghost predicate DefaultPart(desired: DesiredSchema, current: CurrentSchema, t: string, c: string, s: Statement) {
    Planned(desired, current, s) && (s.SetDefault? || s.DropDefault?) && s.table == t && s.column == c
  }

  lemma ShapeStatements(desired: DesiredSchema, current: CurrentSchema, t: string, c: string, s: Statement)
    requires IsKeptColumn(desired, current, t, c)
    ensures
      var want, have := desired[t].columns[c], ColumnNamed(current[t].columns, c).value;
      ShapePart(desired, current, t, c, s) <==>
        || (s == DropNotNull(t, c) && !have.isNullable && (TypeDiffers(want, have) || want.nullable))
        || (s == AlterTypeFor(t, c, want) && TypeDiffers(want, have))
        || (s == SetNotNull(t, c) && !want.nullable && (TypeDiffers(want, have) || have.isNullable))
  {
    hide TypeDiffers, NormalizeType;
  }

  lemma DefaultStatements(desired: DesiredSchema, current: CurrentSchema, t: string, c: string, s: Statement)
    requires IsKeptColumn(desired, current, t, c)
    ensures
      var want, have := desired[t].columns[c], ColumnNamed(current[t].columns, c).value;
      DefaultPart(desired, current, t, c, s) <==>
        && DefaultDiffers(want, have)
        && s == (if want.default.Some? then SetDefault(t, c, want.default.value) else DropDefault(t, c))
  {
    hide TypeDiffers, DefaultDiffers;
  }

  /** What a type or nullability change of a column takes. */
  function ShapeSteps(t: string, c: string, want: DesiredColumn, have: Column): set<Statement> {
    (if !have.isNullable && (TypeDiffers(want, have) || want.nullable) then {DropNotNull(t, c)} else {})
    + (if TypeDiffers(want, have) then {AlterTypeFor(t, c, want)} else {})
    + (if !want.nullable && (TypeDiffers(want, have) || have.isNullable) then {SetNotNull(t, c)} else {})
  }

  lemma ShapeStepsPlanned(desired: DesiredSchema, current: CurrentSchema, t: string, c: string, s: Statement)
    requires IsKeptColumn(desired, current, t, c)
    ensures s in ShapeSteps(t, c, desired[t].columns[c], ColumnNamed(current[t].columns, c).value)
      <==> ShapePart(desired, current, t, c, s)
  {
    var want, have := desired[t].columns[c], ColumnNamed(current[t].columns, c).value;
    ShapeStatements(desired, current, t, c, s);
    hide *;
    ShapeStepsMembers(t, c, want, have, s);
  }

  lemma ShapeStepsMembers(t: string, c: string, want: DesiredColumn, have: Column, s: Statement)
    ensures s in ShapeSteps(t, c, want, have) <==>
      || (s == DropNotNull(t, c) && !have.isNullable && (TypeDiffers(want, have) || want.nullable))
      || (s == AlterTypeFor(t, c, want) && TypeDiffers(want, have))
      || (s == SetNotNull(t, c) && !want.nullable && (TypeDiffers(want, have) || have.isNullable))
  {
    hide TypeDiffers, AlterTypeFor;
  }

  /** The type and the nullability of one kept column. */
  method PlanColumnShape(t: string, c: string, want: DesiredColumn, have: Column,
                         statements: DiffStatements, summary: DiffSummary)
    requires statements.Valid() && summary.Counts(statements) && Cell(t, c) !in summary.shapes
    requires forall s :: s in ShapeSteps(t, c, want, have) ==> s !in statements.emitted
    modifies statements, summary
    ensures statements.Valid() && summary.Counts(statements)
    ensures summary.defaults == old(summary.defaults)
    ensures summary.shapes == old(summary.shapes) +
      if TypeDiffers(want, have) || want.nullable != have.isNullable then {Cell(t, c)} else {}
    ensures forall s :: s in statements.emitted <==> s in old(statements.emitted) || s in ShapeSteps(t, c, want, have)
  {
    hide NormalizeType, Canonical, Tallies, DiffStatements.Valid, ShapeSteps;
    if NormalizeType(want.colType) != Canonical(have.dataType) {
      Retype(t, c, want, have, statements, summary);
    } else {
      ChangeNullability(t, c, want, have, statements, summary);
    }
  }

  /** The branch for a type change: NOT NULL is lifted first and set again afterwards. */
  method Retype(t: string, c: string, want: DesiredColumn, have: Column,
                statements: DiffStatements, summary: DiffSummary)
    requires statements.Valid() && summary.Counts(statements) && Cell(t, c) !in summary.shapes
    requires forall s :: s in ShapeSteps(t, c, want, have) ==> s !in statements.emitted
    requires TypeDiffers(want, have)
    modifies statements, summary
    ensures statements.Valid() && summary.Counts(statements)
    ensures summary.defaults == old(summary.defaults)
    ensures summary.shapes == old(summary.shapes) + {Cell(t, c)}
    ensures forall s :: s in statements.emitted <==> s in old(statements.emitted) || s in ShapeSteps(t, c, want, have)
  {
    ShapeBuckets(t, c, want);
    forall s {
      ShapeStepsMembers(t, c, want, have, s);
    }
    hide TypeDiffers, BucketOf, CountedBucket, Tallies, DiffStatements.Valid, AlterTypeFor, ShapeSteps;
    if !have.isNullable {
      PushUncounted(DropNotNulls, DropNotNull(t, c), statements, summary);
    }
    PushUncounted(AlterTypes, AlterTypeFor(t, c, want), statements, summary);
    if !want.nullable {
      PushUncounted(SetNotNulls, SetNotNull(t, c), statements, summary);
    }
    CountShape(Cell(t, c), statements, summary);
  }

  /** The branch for an unchanged type. */
  method ChangeNullability(t: string, c: string, want: DesiredColumn, have: Column,
                           statements: DiffStatements, summary: DiffSummary)
    requires statements.Valid() && summary.Counts(statements) && Cell(t, c) !in summary.shapes
    requires forall s :: s in ShapeSteps(t, c, want, have) ==> s !in statements.emitted
    requires !TypeDiffers(want, have)
    modifies statements, summary
    ensures statements.Valid() && summary.Counts(statements)
    ensures summary.defaults == old(summary.defaults)
    ensures summary.shapes == old(summary.shapes) + if want.nullable != have.isNullable then {Cell(t, c)} else {}
    ensures forall s :: s in statements.emitted <==> s in old(statements.emitted) || s in ShapeSteps(t, c, want, have)
  {
    ShapeBuckets(t, c, want);
    forall s {
      ShapeStepsMembers(t, c, want, have, s);
    }
    hide TypeDiffers, BucketOf, CountedBucket, Tallies, DiffStatements.Valid, AlterTypeFor, ShapeSteps;
    if want.nullable && !have.isNullable {
      PushUncounted(DropNotNulls, DropNotNull(t, c), statements, summary);
      CountShape(Cell(t, c), statements, summary);
    } else if !want.nullable && have.isNullable {
      PushUncounted(SetNotNulls, SetNotNull(t, c), statements, summary);
      CountShape(Cell(t, c), statements, summary);
    }
  }

  lemma ShapeBuckets(t: string, c: string, want: DesiredColumn)
    ensures BucketOf(DropNotNull(t, c)) == DropNotNulls && BucketOf(SetNotNull(t, c)) == SetNotNulls
    ensures BucketOf(AlterTypeFor(t, c, want)) == AlterTypes
    ensures DropNotNulls != RowSecurity && forall k :: CountedBucket(k) != Some(DropNotNulls)
    ensures forall k :: CountedBucket(k) != Some(SetNotNulls) && CountedBucket(k) != Some(AlterTypes)
  {
    hide AlterTypeFor;
  }

  /** The default of one kept column. */
  method PlanColumnDefault(desired: DesiredSchema, current: CurrentSchema, t: string, c: string,
                           statements: DiffStatements, summary: DiffSummary)
    requires IsKeptColumn(desired, current, t, c)
    requires statements.Valid() && summary.Counts(statements) && Cell(t, c) !in summary.defaults
    requires forall s :: DefaultPart(desired, current, t, c, s) ==> s !in statements.emitted
    modifies statements, summary
    ensures statements.Valid() && summary.Counts(statements)
    ensures summary.shapes == old(summary.shapes)
    ensures summary.defaults == old(summary.defaults) + if DefaultChanges(desired, current, Cell(t, c)) then {Cell(t, c)} else {}
    ensures forall s :: s in statements.emitted <==>
      s in old(statements.emitted) || DefaultPart(desired, current, t, c, s)
  {
    hide NormalizeDefaultOption, NormalizeType, Planned, DefaultPart, Tallies, DiffStatements.Valid, CountedBucket;
    UncountedDefaults();
    var want, have := desired[t].columns[c], ColumnNamed(current[t].columns, c).value;
    var desiredDefault := NormalizeDefaultOption(want.default);
    var currentDefault := NormalizeDefaultOption(have.defaultValue);
    assert DefaultChanges(desired, current, Cell(t, c)) <==> DefaultDiffers(want, have);
    assert DefaultDiffers(want, have) <==> desiredDefault != currentDefault;
    forall s {
      DefaultStatements(desired, current, t, c, s);
    }
    hide DefaultChanges, DefaultDiffers, IsKeptColumn;
    if desiredDefault != currentDefault {
      match want.default {
        case Some(e) =>
          PushUncounted(SetDefaults, SetDefault(t, c, e), statements, summary);
        case None =>
          PushUncounted(DropDefaults, DropDefault(t, c), statements, summary);
      }
      CountDefault(Cell(t, c), statements, summary);
    }
  }

  lemma UncountedDefaults()
    ensures forall k :: CountedBucket(k) != Some(SetDefaults) && CountedBucket(k) != Some(DropDefaults)
  {}

  function ColumnNames(table: Table): set<string> {
    set col | col in table.columns :: col.name
  }

  function KeptNames(desired: DesiredSchema, current: CurrentSchema, t: string): (names: set<string>)
    requires IsKept(desired, current, t)
    ensures forall c :: c in names <==> IsKeptColumn(desired, current, t, c)
  {
    forall c ensures c in ColumnNames(current[t]) <==> HasColumn(current[t], c) {
      ColumnNamesHave(current[t], c);
    }
    desired[t].columns.Keys * ColumnNames(current[t])
  }

  lemma ColumnNamesHave(table: Table, c: string)
    ensures c in ColumnNames(table) <==> HasColumn(table, c)
  {}

  ghost predicate NewColumnPart(desired: DesiredSchema, current: CurrentSchema, t: string, s: Statement) {
    Planned(desired, current, s) && s.AddColumn? && s.table == t
  }

  ghost predicate DroppedColumnPart(desired: DesiredSchema, current: CurrentSchema, t: string, s: Statement) {
    Planned(desired, current, s) && s.DropColumn? && s.table == t
  }

  ghost predicate ColumnChangePart(desired: DesiredSchema, current: CurrentSchema, t: string, c: string, s: Statement) {
    ShapePart(desired, current, t, c, s) || DefaultPart(desired, current, t, c, s)
  }

  lemma NewColumnStatements(desired: DesiredSchema, current: CurrentSchema, t: string, s: Statement)
    requires IsKept(desired, current, t)
    ensures NewColumnPart(desired, current, t, s) <==>
      && s.AddColumn? && s.column in desired[t].columns && s.column !in ColumnNames(current[t])
      && s == AddColumnFor(t, s.column, desired[t].columns[s.column])
  {
    hide NormalizeType;
    if s.AddColumn? {
      ColumnNamesHave(current[t], s.column);
    }
  }

  lemma DroppedColumnStatements(desired: DesiredSchema, current: CurrentSchema, t: string, s: Statement)
    requires IsKept(desired, current, t)
    ensures DroppedColumnPart(desired, current, t, s) <==>
      && s.DropColumn? && s.column in ColumnNames(current[t]) && s.column !in desired[t].columns
      && s == DropColumn(t, s.column)
  {
    hide NormalizeType;
    if s.DropColumn? {
      ColumnNamesHave(current[t], s.column);
    }
  }

  method PlanNewColumns(desired: DesiredSchema, current: CurrentSchema, t: string,
                        statements: DiffStatements, summary: DiffSummary)
    requires IsKept(desired, current, t)
    requires statements.Valid() && summary.Counts(statements)
    requires forall s :: NewColumnPart(desired, current, t, s) ==> s !in statements.emitted
    modifies statements, summary
    ensures statements.Valid() && summary.Counts(statements)
    ensures summary.shapes == old(summary.shapes) && summary.defaults == old(summary.defaults)
    ensures forall s :: s in statements.emitted <==> s in old(statements.emitted) || NewColumnPart(desired, current, t, s)
  {
    hide NewColumnPart, AddColumnFor, NormalizeType, ColumnNames, Tallies, DiffStatements.Valid;
    forall s {
      NewColumnStatements(desired, current, t, s);
    }
    var columns := desired[t].columns;
    var names := columns.Keys - ColumnNames(current[t]);
    var todo := names;
    while todo != {}
      invariant todo <= names
      invariant statements.Valid() && summary.Counts(statements)
      invariant summary.shapes == old(summary.shapes) && summary.defaults == old(summary.defaults)
      invariant forall s :: s in statements.emitted <==>
        s in old(statements.emitted) ||
        (s.AddColumn? && s.column in names && s.column !in todo && s == AddColumnFor(t, s.column, columns[s.column]))
    {
      var c :| c in todo;
      var s := AddColumnFor(t, c, columns[c]);
      PushCounted(ColumnsAdded, AddColumns, s, statements, summary);
      todo := todo - {c};
    }
  }

  method PlanDroppedColumns(desired: DesiredSchema, current: CurrentSchema, t: string,
                            statements: DiffStatements, summary: DiffSummary) returns (lost: bool)
    requires IsKept(desired, current, t)
    requires statements.Valid() && summary.Counts(statements)
    requires forall s :: DroppedColumnPart(desired, current, t, s) ==> s !in statements.emitted
    modifies statements, summary
    ensures statements.Valid() && summary.Counts(statements)
    ensures summary.shapes == old(summary.shapes) && summary.defaults == old(summary.defaults)
    ensures forall s :: s in statements.emitted <==> s in old(statements.emitted) || DroppedColumnPart(desired, current, t, s)
    ensures lost <==> exists c :: HasColumn(current[t], c) && c !in desired[t].columns
  {
    hide DroppedColumnPart, ColumnNames, HasColumn, Tallies, DiffStatements.Valid;
    forall s {
      DroppedColumnStatements(desired, current, t, s);
    }
    forall c {
      ColumnNamesHave(current[t], c);
    }
    var names := ColumnNames(current[t]) - desired[t].columns.Keys;
    var todo := names;
    lost := false;
    while todo != {}
      invariant todo <= names
      invariant lost <==> todo != names
      invariant statements.Valid() && summary.Counts(statements)
      invariant summary.shapes == old(summary.shapes) && summary.defaults == old(summary.defaults)
      invariant forall s :: s in statements.emitted <==>
        s in old(statements.emitted) || (s.DropColumn? && s.column in names && s.column !in todo && s == DropColumn(t, s.column))
    {
      var c :| c in todo;
      var s := DropColumn(t, c);
      PushCounted(ColumnsDropped, DropColumns, s, statements, summary);
      lost := true;
      todo := todo - {c};
    }
    assert forall c :: c in names <==> HasColumn(current[t], c) && c !in desired[t].columns;
    if names != {} {
      var c :| c in names;
      assert HasColumn(current[t], c);
    }
  }

  method PlanKeptColumn(desired: DesiredSchema, current: CurrentSchema, t: string, c: string,
                        statements: DiffStatements, summary: DiffSummary)
    requires IsKeptColumn(desired, current, t, c)
    requires statements.Valid() && summary.Counts(statements)
    requires Cell(t, c) !in summary.shapes && Cell(t, c) !in summary.defaults
    requires forall s :: ColumnChangePart(desired, current, t, c, s) ==> s !in statements.emitted
    modifies statements, summary
    ensures statements.Valid() && summary.Counts(statements)
    ensures summary.shapes == old(summary.shapes) + if ShapeChanges(desired, current, Cell(t, c)) then {Cell(t, c)} else {}
    ensures summary.defaults == old(summary.defaults) + if DefaultChanges(desired, current, Cell(t, c)) then {Cell(t, c)} else {}
    ensures forall s :: s in statements.emitted <==>
      s in old(statements.emitted) || ColumnChangePart(desired, current, t, c, s)
  {
    hide Planned, Tallies, DiffStatements.Valid, ShapePart, DefaultPart, TypeDiffers, ShapeSteps, DefaultChanges;
    var want, have := desired[t].columns[c], ColumnNamed(current[t].columns, c).value;
    forall s
      ensures s in ShapeSteps(t, c, want, have) <==> ShapePart(desired, current, t, c, s)
      ensures !(ShapePart(desired, current, t, c, s) && DefaultPart(desired, current, t, c, s))
    {
      ShapeStepsPlanned(desired, current, t, c, s);
      DifferentParts(desired, current, t, c, s);
    }
    PlanColumnShape(t, c, want, have, statements, summary);
    PlanColumnDefault(desired, current, t, c, statements, summary);
  }

  lemma DifferentParts(desired: DesiredSchema, current: CurrentSchema, t: string, c: string, s: Statement)
    ensures !(ShapePart(desired, current, t, c, s) && DefaultPart(desired, current, t, c, s))
  {
    hide Planned;
  }

  lemma ChangesItsColumn(desired: DesiredSchema, current: CurrentSchema, t: string, c: string, s: Statement)
    ensures ColumnChangePart(desired, current, t, c, s) ==> ChangesColumn(s) && s.column == c
  {
    hide Planned;
  }

  /** `after` extends `before` by the changed cells among some columns of one table. */
  ghost predicate ShapesGrown(desired: DesiredSchema, current: CurrentSchema, t: string, columns: set<string>,
                              before: set<Cell>, after: set<Cell>)
  {
    forall cell :: cell in after <==>
      cell in before || (cell.table == t && cell.name in columns && ShapeChanges(desired, current, cell))
  }

  ghost predicate DefaultsGrown(desired: DesiredSchema, current: CurrentSchema, t: string, columns: set<string>,
                                before: set<Cell>, after: set<Cell>)
  {
    forall cell :: cell in after <==>
      cell in before || (cell.table == t && cell.name in columns && DefaultChanges(desired, current, cell))
  }

  lemma GrownNone(desired: DesiredSchema, current: CurrentSchema, t: string, before: set<Cell>)
    ensures ShapesGrown(desired, current, t, {}, before, before) && DefaultsGrown(desired, current, t, {}, before, before)
  {}

  lemma ShapesGrow(desired: DesiredSchema, current: CurrentSchema, t: string, columns: set<string>, c: string,
                   before: set<Cell>, after: set<Cell>)
    requires ShapesGrown(desired, current, t, columns, before, after)
    requires c !in columns && Cell(t, c) !in before
    ensures Cell(t, c) !in after
    ensures ShapesGrown(desired, current, t, columns + {c}, before,
      after + if ShapeChanges(desired, current, Cell(t, c)) then {Cell(t, c)} else {})
  {
    hide ShapeChanges;
  }

  lemma DefaultsGrow(desired: DesiredSchema, current: CurrentSchema, t: string, columns: set<string>, c: string,
                     before: set<Cell>, after: set<Cell>)
    requires DefaultsGrown(desired, current, t, columns, before, after)
    requires c !in columns && Cell(t, c) !in before
    ensures Cell(t, c) !in after
    ensures DefaultsGrown(desired, current, t, columns + {c}, before,
      after + if DefaultChanges(desired, current, Cell(t, c)) then {Cell(t, c)} else {})
  {
    hide DefaultChanges;
  }

  method PlanKeptColumns(desired: DesiredSchema, current: CurrentSchema, t: string,
                         statements: DiffStatements, summary: DiffSummary)
    requires IsKept(desired, current, t)
    requires statements.Valid() && summary.Counts(statements)
    requires forall c, s :: ColumnChangePart(desired, current, t, c, s) ==> s !in statements.emitted
    requires forall c :: Cell(t, c) !in summary.shapes && Cell(t, c) !in summary.defaults
    modifies statements, summary
    ensures statements.Valid() && summary.Counts(statements)
    ensures ShapesGrown(desired, current, t, KeptNames(desired, current, t), old(summary.shapes), summary.shapes)
    ensures DefaultsGrown(desired, current, t, KeptNames(desired, current, t), old(summary.defaults), summary.defaults)
    ensures forall s :: s in statements.emitted <==>
      s in old(statements.emitted) ||
      (ChangesColumn(s) && s.column in KeptNames(desired, current, t) && ColumnChangePart(desired, current, t, s.column, s))
  {
    hide ColumnChangePart, ShapeChanges, DefaultChanges, KeptNames, Tallies, DiffStatements.Valid;
    hide ShapesGrown, DefaultsGrown;
    forall c, s {
      ChangesItsColumn(desired, current, t, c, s);
    }
    var names := KeptNames(desired, current, t);
    var todo := names;
    ghost var done: set<string> := {};
    GrownNone(desired, current, t, summary.shapes);
    GrownNone(desired, current, t, summary.defaults);
    while todo != {}
      invariant todo <= names && done == names - todo
      invariant statements.Valid() && summary.Counts(statements)
      invariant ShapesGrown(desired, current, t, done, old(summary.shapes), summary.shapes)
      invariant DefaultsGrown(desired, current, t, done, old(summary.defaults), summary.defaults)
      invariant forall s :: s in statements.emitted <==>
        s in old(statements.emitted) ||
        (ChangesColumn(s) && s.column in done && ColumnChangePart(desired, current, t, s.column, s))
    {
      var c :| c in todo;
      ShapesGrow(desired, current, t, done, c, old(summary.shapes), summary.shapes);
      DefaultsGrow(desired, current, t, done, c, old(summary.defaults), summary.defaults);
      PlanKeptColumn(desired, current, t, c, statements, summary);
      done, todo := done + {c}, todo - {c};
    }
    assert done == names;
  }

  // ----- foreign keys -----------------------------------------------------------------------

  /** The statement adds the foreign key for one of the given relations that lacks one. */
  ghost predicate AddsRelation(desired: DesiredSchema, current: CurrentSchema, t: string, names: set<string>, s: Statement)
    requires t in desired
  {
    exists r :: r in names && r in desired[t].relations && NeedsForeignKey(desired, current, t, r) &&
      s == AddForeignKeyFor(t, r, desired[t].relations[r])
  }

  predicate NeedsForeignKey(desired: DesiredSchema, current: CurrentSchema, t: string, r: string)
    requires t in desired && r in desired[t].relations
  {
    t in current ==> !FkExists(current[t], desired[t].relations[r])
  }

  lemma AddsRelationGrow(desired: DesiredSchema, current: CurrentSchema, t: string, names: set<string>, r: string)
    requires t in desired && r in desired[t].relations && r !in names
    ensures forall s :: AddsRelation(desired, current, t, names + {r}, s) <==>
      AddsRelation(desired, current, t, names, s) ||
      (NeedsForeignKey(desired, current, t, r) && s == AddForeignKeyFor(t, r, desired[t].relations[r]))
    ensures !AddsRelation(desired, current, t, names, AddForeignKeyFor(t, r, desired[t].relations[r]))
    ensures forall s :: !AddsRelation(desired, current, t, {}, s)
  {
    hide NeedsForeignKey;
    forall q | q in desired[t].relations &&
        AddForeignKeyFor(t, r, desired[t].relations[r]) == AddForeignKeyFor(t, q, desired[t].relations[q])
      ensures q == r
    {
      PlanOutcome.ForeignKeyNameInjective(t, r, q);
    }
    forall s | AddsRelation(desired, current, t, names, s) ensures AddsRelation(desired, current, t, names + {r}, s) {
      var q :| q in names && q in desired[t].relations && NeedsForeignKey(desired, current, t, q) &&
        s == AddForeignKeyFor(t, q, desired[t].relations[q]);
      assert q in names + {r};
    }
    if NeedsForeignKey(desired, current, t, r) {
      assert r in names + {r};
    }
  }

  lemma AllRelationsAdded(desired: DesiredSchema, current: CurrentSchema, t: string, s: Statement)
    requires t in desired
    ensures AddsRelation(desired, current, t, desired[t].relations.Keys, s) <==>
      s.AddForeignKey? && s.table == t && Planned(desired, current, s)
  {
    hide NormalizeType;
  }

  /** The relations of one table that lack a foreign key. */
  method AddMissingForeignKeys(desired: DesiredSchema, current: CurrentSchema, t: string,
                               statements: DiffStatements, summary: DiffSummary)
    requires t in desired
    requires statements.Valid() && summary.Counts(statements)
    requires forall s :: AddsRelation(desired, current, t, desired[t].relations.Keys, s) ==> s !in statements.emitted
    modifies statements, summary
    ensures statements.Valid() && summary.Counts(statements)
    ensures summary.shapes == old(summary.shapes) && summary.defaults == old(summary.defaults)
    ensures forall s :: s in statements.emitted <==>
      s in old(statements.emitted) || AddsRelation(desired, current, t, desired[t].relations.Keys, s)
  {
    hide AddsRelation, Tallies, DiffStatements.Valid, FkExists;
    var relations := desired[t].relations;
    var todo := relations.Keys;
    ghost var done: set<string> := {};
    NoRelationYet(desired, current, t);
    while todo != {}
      invariant todo <= relations.Keys && done == relations.Keys - todo
      invariant statements.Valid() && summary.Counts(statements)
      invariant summary.shapes == old(summary.shapes) && summary.defaults == old(summary.defaults)
      invariant forall s :: s in statements.emitted <==>
        s in old(statements.emitted) || AddsRelation(desired, current, t, done, s)
    {
      var r :| r in todo;
      AddsRelationGrow(desired, current, t, done, r);
      AddedByTable(desired, current, t, r);
      // A new table has no foreign keys to compare with.
      var present := t in current && FkExists(current[t], relations[r]);
      if !present {
        var s := AddForeignKeyFor(t, r, relations[r]);
        PushCounted(ForeignKeysAdded, AddFks, s, statements, summary);
      }
      done, todo := done + {r}, todo - {r};
    }
    assert done == relations.Keys;
  }

  lemma NoRelationYet(desired: DesiredSchema, current: CurrentSchema, t: string)
    requires t in desired
    ensures forall s :: !AddsRelation(desired, current, t, {}, s)
  {}

  lemma AddedByTable(desired: DesiredSchema, current: CurrentSchema, t: string, r: string)
    requires t in desired && r in desired[t].relations
    ensures NeedsForeignKey(desired, current, t, r) ==>
      AddsRelation(desired, current, t, desired[t].relations.Keys, AddForeignKeyFor(t, r, desired[t].relations[r]))
  {
    hide NeedsForeignKey;
  }

  predicate NamesObsolete(table: DesiredTable, fks: seq<ForeignKey>, n: string) {
    exists fk :: fk in fks && fk.constraintName == n && !StillDesired(table, fk)
  }

  lemma ObsoletePrefix(table: DesiredTable, fks: seq<ForeignKey>, k: nat)
    requires k < |fks|
    ensures forall n :: NamesObsolete(table, fks[..k + 1], n) <==>
      NamesObsolete(table, fks[..k], n) || (fks[k].constraintName == n && !StillDesired(table, fks[k]))
    ensures forall n :: !NamesObsolete(table, fks[..0], n)
    ensures !StillDesired(table, fks[k]) ==> NamesObsolete(table, fks, fks[k].constraintName)
  {
    hide StillDesired;
    assert fks[..k + 1] == fks[..k] + [fks[k]];
    forall n | NamesObsolete(table, fks[..k], n) ensures NamesObsolete(table, fks[..k + 1], n) {
      var fk :| fk in fks[..k] && fk.constraintName == n && !StillDesired(table, fk);
      assert fk in fks[..k + 1];
    }
    assert fks[k] in fks[..k + 1] && fks[k] in fks;
  }

  lemma FreshObsolete(table: DesiredTable, current: CurrentSchema, t: string, k: nat)
    requires t in current && DistinctNames(current) && k < |current[t].foreignKeys|
    ensures var fks := current[t].foreignKeys; !NamesObsolete(table, fks[..k], fks[k].constraintName)
  {
    hide StillDesired;
  }

  /** The foreign keys of one kept table that no relation asks for. */
  method DropObsoleteForeignKeys(desired: DesiredSchema, current: CurrentSchema, t: string,
                                 statements: DiffStatements, summary: DiffSummary)
    requires IsKept(desired, current, t) && DistinctNames(current)
    requires statements.Valid() && summary.Counts(statements)
    requires forall n :: NamesObsolete(desired[t], current[t].foreignKeys, n) ==> DropConstraint(t, n) !in statements.emitted
    modifies statements, summary
    ensures statements.Valid() && summary.Counts(statements)
    ensures summary.shapes == old(summary.shapes) && summary.defaults == old(summary.defaults)
    ensures forall s :: s in statements.emitted <==>
      s in old(statements.emitted) ||
      (s.DropConstraint? && s.table == t && NamesObsolete(desired[t], current[t].foreignKeys, s.constraint))
  {
    hide NamesObsolete, StillDesired, Tallies, DiffStatements.Valid, DistinctNames;
    var table, fks := desired[t], current[t].foreignKeys;
    NoneObsolete(table, fks);
    for k := 0 to |fks|
      invariant statements.Valid() && summary.Counts(statements)
      invariant summary.shapes == old(summary.shapes) && summary.defaults == old(summary.defaults)
      invariant forall s :: s in statements.emitted <==>
        s in old(statements.emitted) || (s.DropConstraint? && s.table == t && NamesObsolete(table, fks[..k], s.constraint))
    {
      ObsoletePrefix(table, fks, k);
      FreshObsolete(table, current, t, k);
      if !StillDesired(table, fks[k]) {
        var s := DropConstraint(t, fks[k].constraintName);
        PushCounted(ForeignKeysDropped, DropFks, s, statements, summary);
      }
    }
    assert fks[..|fks|] == fks;
  }

  lemma NoneObsolete(table: DesiredTable, fks: seq<ForeignKey>)
    ensures forall n :: !NamesObsolete(table, fks[..0], n)
  {}

  ghost predicate ForeignKeyPart(desired: DesiredSchema, current: CurrentSchema, t: string, s: Statement) {
    Planned(desired, current, s) && (s.AddForeignKey? || s.DropConstraint?) && s.table == t
  }

  lemma ForeignKeyStatements(desired: DesiredSchema, current: CurrentSchema, t: string, s: Statement)
    requires IsKept(desired, current, t)
    ensures ForeignKeyPart(desired, current, t, s) <==>
      AddsRelation(desired, current, t, desired[t].relations.Keys, s) ||
      (s.DropConstraint? && s.table == t && NamesObsolete(desired[t], current[t].foreignKeys, s.constraint))
  {
    AllRelationsAdded(desired, current, t, s);
    hide AddsRelation, StillDesired, NormalizeType;
  }

  /** `diff_foreign_keys` */
  method DiffForeignKeys(desired: DesiredSchema, current: CurrentSchema, t: string,
                         statements: DiffStatements, summary: DiffSummary)
    requires IsKept(desired, current, t) && DistinctNames(current)
    requires statements.Valid() && summary.Counts(statements)
    requires forall s :: ForeignKeyPart(desired, current, t, s) ==> s !in statements.emitted
    modifies statements, summary
    ensures statements.Valid() && summary.Counts(statements)
    ensures summary.shapes == old(summary.shapes) && summary.defaults == old(summary.defaults)
    ensures forall s :: s in statements.emitted <==>
      s in old(statements.emitted) || ForeignKeyPart(desired, current, t, s)
  {
    hide ForeignKeyPart, AddsRelation, NamesObsolete, Tallies, DiffStatements.Valid, DistinctNames;
    forall s {
      ForeignKeyStatements(desired, current, t, s);
    }
    forall s {
      AddsForeignKeys(desired, current, t, s);
    }
    AddMissingForeignKeys(desired, current, t, statements, summary);
    DropObsoleteForeignKeys(desired, current, t, statements, summary);
  }

  lemma AddsForeignKeys(desired: DesiredSchema, current: CurrentSchema, t: string, s: Statement)
    requires t in desired
    ensures AddsRelation(desired, current, t, desired[t].relations.Keys, s) ==> s.AddForeignKey?
  {}

  // ----- one kept table ---------------------------------------------------------------------

  ghost predicate KeptTablePart(desired: DesiredSchema, current: CurrentSchema, t: string, s: Statement) {
    && IsKept(desired, current, t) && Planned(desired, current, s)
    && (s.AddColumn? || s.DropColumn? || ChangesColumn(s) || s.AddForeignKey? || s.DropConstraint?) && s.table == t
  }

  lemma KeptTableStatements(desired: DesiredSchema, current: CurrentSchema, t: string, s: Statement)
    requires IsKept(desired, current, t)
    ensures KeptTablePart(desired, current, t, s) <==>
      || NewColumnPart(desired, current, t, s) || DroppedColumnPart(desired, current, t, s)
      || (ChangesColumn(s) && s.column in KeptNames(desired, current, t) && ColumnChangePart(desired, current, t, s.column, s))
      || ForeignKeyPart(desired, current, t, s)
    ensures NewColumnPart(desired, current, t, s) ==> s.AddColumn?
    ensures DroppedColumnPart(desired, current, t, s) ==> s.DropColumn?
    ensures ForeignKeyPart(desired, current, t, s) ==> s.AddForeignKey? || s.DropConstraint?
  {
    if ChangesColumn(s) && Planned(desired, current, s) && s.table == t {
      ChangedIsKept(desired, current, s);
    }
    KindsOfParts(desired, current, t, s);
    hide *;
  }

  /** The parts of a kept table, by the kind of statement. */
  lemma KindsOfParts(desired: DesiredSchema, current: CurrentSchema, t: string, s: Statement)
    requires IsKept(desired, current, t)
    ensures NewColumnPart(desired, current, t, s) <==> Planned(desired, current, s) && s.AddColumn? && s.table == t
    ensures DroppedColumnPart(desired, current, t, s) <==> Planned(desired, current, s) && s.DropColumn? && s.table == t
    ensures ForeignKeyPart(desired, current, t, s) <==>
      Planned(desired, current, s) && (s.AddForeignKey? || s.DropConstraint?) && s.table == t
    ensures ChangesColumn(s) ==>
      (ColumnChangePart(desired, current, t, s.column, s) <==> Planned(desired, current, s) && s.table == t)
    ensures KeptTablePart(desired, current, t, s) <==>
      && Planned(desired, current, s)
      && (s.AddColumn? || s.DropColumn? || ChangesColumn(s) || s.AddForeignKey? || s.DropConstraint?)
      && s.table == t
  {
    hide Planned;
  }

  lemma ChangedIsKept(desired: DesiredSchema, current: CurrentSchema, s: Statement)
    requires ChangesColumn(s) && Planned(desired, current, s)
    ensures IsKeptColumn(desired, current, s.table, s.column)
  {
    hide NormalizeType;
  }

  lemma ChangePartKept(desired: DesiredSchema, current: CurrentSchema, t: string, c: string, s: Statement)
    requires IsKept(desired, current, t) && ColumnChangePart(desired, current, t, c, s)
    ensures KeptTablePart(desired, current, t, s) && ChangesColumn(s)
  {
    hide Planned;
  }

  method PlanKeptTable(desired: DesiredSchema, current: CurrentSchema, t: string,
                       statements: DiffStatements, summary: DiffSummary) returns (lost: bool)
    requires IsKept(desired, current, t) && DistinctNames(current)
    requires statements.Valid() && summary.Counts(statements)
    requires forall s :: KeptTablePart(desired, current, t, s) ==> s !in statements.emitted
    requires forall c :: Cell(t, c) !in summary.shapes && Cell(t, c) !in summary.defaults
    modifies statements, summary
    ensures statements.Valid() && summary.Counts(statements)
    ensures ShapesGrown(desired, current, t, KeptNames(desired, current, t), old(summary.shapes), summary.shapes)
    ensures DefaultsGrown(desired, current, t, KeptNames(desired, current, t), old(summary.defaults), summary.defaults)
    ensures forall s :: s in statements.emitted <==>
      s in old(statements.emitted) || KeptTablePart(desired, current, t, s)
    ensures lost <==> exists c :: HasColumn(current[t], c) && c !in desired[t].columns
  {
    hide KeptTablePart, NewColumnPart, DroppedColumnPart, ColumnChangePart, ForeignKeyPart, KeptNames;
    hide Tallies, DiffStatements.Valid, DistinctNames, ShapesGrown, DefaultsGrown;
    forall s {
      KeptTableStatements(desired, current, t, s);
    }
    forall c, s | ColumnChangePart(desired, current, t, c, s)
      ensures KeptTablePart(desired, current, t, s) && ChangesColumn(s)
    {
      ChangePartKept(desired, current, t, c, s);
    }
    PlanNewColumns(desired, current, t, statements, summary);
    lost := PlanDroppedColumns(desired, current, t, statements, summary);
    PlanKeptColumns(desired, current, t, statements, summary);
    DiffForeignKeys(desired, current, t, statements, summary);
    // The index comparison of `diff_indexes` emits nothing.
  }

  // ----- row security -----------------------------------------------------------------------

  ghost predicate SecurityPart(desired: DesiredSchema, current: CurrentSchema, t: string, s: Statement) {
    && Planned(desired, current, s)
    && (s.EnableRls? || s.ForceRls? || s.CreatePolicy? || s.DropPolicy?) && s.table == t
  }

  function RlsSteps(desired: DesiredSchema, current: CurrentSchema, t: string): set<Statement> {
    if IsNew(desired, current, t) then {EnableRls(t), ForceRls(t)} else {}
  }

  const COMMANDS: seq<Command> := [ForSelect, ForInsert, ForUpdate, ForDelete]

  lemma SecurityStatements(desired: DesiredSchema, current: CurrentSchema, t: string, s: Statement)
    requires t in desired
    ensures SecurityPart(desired, current, t, s) <==>
      || s in RlsSteps(desired, current, t)
      || (s.CreatePolicy? && desired[t].access.Some? && HasRule(desired[t].access.value, s.command)
          && s == PolicyFor(t, s.command))
      || (desired[t].access.Some? && exists command :: s == PolicyDropFor(t, command))
  {
    hide NormalizeType;
    if s.DropPolicy? && SecurityPart(desired, current, t, s) {
      var command :| s.policy == PolicyName(command, t);
      assert s == PolicyDropFor(t, command);
    }
  }

  function PolicyFor(t: string, command: Command): Statement {
    CreatePolicy(t, PolicyName(command, t), command)
  }

  function PolicyDropFor(t: string, command: Command): Statement {
    DropPolicy(t, PolicyName(command, t))
  }

  method PlanRls(desired: DesiredSchema, current: CurrentSchema, t: string,
                 statements: DiffStatements, summary: DiffSummary)
    requires t in desired
    requires statements.Valid() && summary.Counts(statements)
    requires forall s :: s in RlsSteps(desired, current, t) ==> s !in statements.emitted
    modifies statements, summary
    ensures statements.Valid() && summary.Counts(statements)
    ensures summary.shapes == old(summary.shapes) && summary.defaults == old(summary.defaults)
    ensures forall s :: s in statements.emitted <==>
      s in old(statements.emitted) || s in RlsSteps(desired, current, t)
  {
    hide DiffStatements.Valid, Tallies;
    if t !in current {
      TallyRls(summary.counters, statements.buckets, |summary.shapes| + |summary.defaults|, t);
      statements.Push(RowSecurity, EnableRls(t));
      statements.Push(RowSecurity, ForceRls(t));
      summary.Increment(RlsEnabled, 1);
    }
  }

  lemma TallyRls(counters: map<Counter, nat>, buckets: map<Bucket, seq<Statement>>, modified: nat, t: string)
    requires Tallies(counters, buckets, modified)
    ensures RlsEnabled in counters && RowSecurity in buckets
    ensures var once := buckets[RowSecurity := buckets[RowSecurity] + [EnableRls(t)]];
      Tallies(counters[RlsEnabled := counters[RlsEnabled] + 1],
              once[RowSecurity := once[RowSecurity] + [ForceRls(t)]], modified)
  {}

  /** Some command among the first `k` has a rule, and `s` creates its policy. */
  ghost predicate CreatesPolicy(access: Access, t: string, k: nat, s: Statement)
    requires k <= 4
  {
    exists i :: 0 <= i < k && HasRule(access, COMMANDS[i]) && s == PolicyFor(t, COMMANDS[i])
  }

  ghost predicate DropsPolicy(t: string, k: nat, s: Statement)
    requires k <= 4
  {
    exists i :: 0 <= i < k && s == PolicyDropFor(t, COMMANDS[i])
  }

  lemma PoliciesGrow(access: Access, t: string, k: nat)
    requires k < 4
    ensures forall s :: CreatesPolicy(access, t, k + 1, s) <==>
      CreatesPolicy(access, t, k, s) || (HasRule(access, COMMANDS[k]) && s == PolicyFor(t, COMMANDS[k]))
    ensures forall s :: DropsPolicy(t, k + 1, s) <==> DropsPolicy(t, k, s) || s == PolicyDropFor(t, COMMANDS[k])
    ensures !CreatesPolicy(access, t, k, PolicyFor(t, COMMANDS[k])) && !DropsPolicy(t, k, PolicyDropFor(t, COMMANDS[k]))
    ensures forall s :: !CreatesPolicy(access, t, 0, s) && !DropsPolicy(t, 0, s)
  {
    forall i | 0 <= i < k ensures PolicyName(COMMANDS[i], t) != PolicyName(COMMANDS[k], t) {
      if PolicyName(COMMANDS[i], t) == PolicyName(COMMANDS[k], t) {
        PlanOutcome.PolicyNameInjective(COMMANDS[i], COMMANDS[k], t);
        DistinctCommands(i, k);
      }
    }
    hide PolicyName, HasRule;
    forall s | DropsPolicy(t, k, s) || s == PolicyDropFor(t, COMMANDS[k]) ensures DropsPolicy(t, k + 1, s) {
      if DropsPolicy(t, k, s) {
        var i :| 0 <= i < k && s == PolicyDropFor(t, COMMANDS[i]);
      }
    }
    forall s | CreatesPolicy(access, t, k, s) || (HasRule(access, COMMANDS[k]) && s == PolicyFor(t, COMMANDS[k]))
      ensures CreatesPolicy(access, t, k + 1, s)
    {
      if CreatesPolicy(access, t, k, s) {
        var i :| 0 <= i < k && HasRule(access, COMMANDS[i]) && s == PolicyFor(t, COMMANDS[i]);
      }
    }
  }

  lemma DistinctCommands(i: nat, k: nat)
    requires i < k < 4
    ensures COMMANDS[i] != COMMANDS[k]
  {}

  lemma AllCommands(access: Access, t: string, s: Statement)
    ensures CreatesPolicy(access, t, 4, s) <==> s.CreatePolicy? && HasRule(access, s.command) && s == PolicyFor(t, s.command)
    ensures DropsPolicy(t, 4, s) <==> exists command :: s == PolicyDropFor(t, command)
  {
    hide HasRule, PolicyName;
    if s.CreatePolicy? && HasRule(access, s.command) && s == PolicyFor(t, s.command) {
      assert COMMANDS[Position(s.command)] == s.command;
    }
    if command :| s == PolicyDropFor(t, command) {
      assert COMMANDS[Position(command)] == command;
    }
  }

  function Position(command: Command): (i: nat)
    ensures i < 4 && COMMANDS[i] == command
  {
    match command case ForSelect => 0 case ForInsert => 1 case ForUpdate => 2 case ForDelete => 3
  }

  method PlanPolicies(t: string, access: Access, statements: DiffStatements, summary: DiffSummary)
    requires statements.Valid() && summary.Counts(statements)
    requires forall s :: CreatesPolicy(access, t, 4, s) || DropsPolicy(t, 4, s) ==> s !in statements.emitted
    modifies statements, summary
    ensures statements.Valid() && summary.Counts(statements)
    ensures summary.shapes == old(summary.shapes) && summary.defaults == old(summary.defaults)
    ensures forall s :: s in statements.emitted <==>
      s in old(statements.emitted) || CreatesPolicy(access, t, 4, s) || DropsPolicy(t, 4, s)
  {
    hide CreatesPolicy, DropsPolicy, HasRule, PolicyName, Tallies, DiffStatements.Valid;
    KindsOfPolicy(access, t);
    for k := 0 to 4
      invariant statements.Valid() && summary.Counts(statements)
      invariant summary.shapes == old(summary.shapes) && summary.defaults == old(summary.defaults)
      invariant forall s :: s in statements.emitted <==> s in old(statements.emitted) || DropsPolicy(t, k, s)
    {
      PoliciesGrow(access, t, k);
      var s := PolicyDropFor(t, COMMANDS[k]);
      InAllPolicies(access, t, k);
      PushCounted(PoliciesDropped, DropPolicies, s, statements, summary);
    }
    for k := 0 to 4
      invariant statements.Valid() && summary.Counts(statements)
      invariant summary.shapes == old(summary.shapes) && summary.defaults == old(summary.defaults)
      invariant forall s :: s in statements.emitted <==>
        s in old(statements.emitted) || DropsPolicy(t, 4, s) || CreatesPolicy(access, t, k, s)
    {
      PoliciesGrow(access, t, k);
      if HasRule(access, COMMANDS[k]) {
        var s := PolicyFor(t, COMMANDS[k]);
        InAllPolicies(access, t, k);
        PushCounted(PoliciesCreated, CreatePolicies, s, statements, summary);
      }
    }
  }

  lemma KindsOfPolicy(access: Access, t: string)
    ensures forall s :: !CreatesPolicy(access, t, 0, s) && !DropsPolicy(t, 0, s)
    ensures forall s :: DropsPolicy(t, 4, s) ==> s.DropPolicy?
  {}

  lemma InAllPolicies(access: Access, t: string, k: nat)
    requires k < 4
    ensures DropsPolicy(t, 4, PolicyDropFor(t, COMMANDS[k]))
    ensures HasRule(access, COMMANDS[k]) ==> CreatesPolicy(access, t, 4, PolicyFor(t, COMMANDS[k]))
  {
    hide HasRule, PolicyName;
  }

  method PlanSecurity(desired: DesiredSchema, current: CurrentSchema, t: string,
                      statements: DiffStatements, summary: DiffSummary)
    requires t in desired
    requires statements.Valid() && summary.Counts(statements)
    requires forall s :: SecurityPart(desired, current, t, s) ==> s !in statements.emitted
    modifies statements, summary
    ensures statements.Valid() && summary.Counts(statements)
    ensures summary.shapes == old(summary.shapes) && summary.defaults == old(summary.defaults)
    ensures forall s :: s in statements.emitted <==> s in old(statements.emitted) || SecurityPart(desired, current, t, s)
  {
    hide SecurityPart, CreatesPolicy, DropsPolicy, Tallies, DiffStatements.Valid, HasRule, PolicyName;
    forall s {
      SecurityStatements(desired, current, t, s);
    }
    PlanRls(desired, current, t, statements, summary);
    match desired[t].access {
      case None =>
      case Some(access) =>
        forall s {
          AllCommands(access, t, s);
        }
        PlanPolicies(t, access, statements, summary);
    }
  }

  // ----- the whole diff ---------------------------------------------------------------------

  datatype DiffResult = DiffResult(statements: seq<Statement>, summary: map<Counter, nat>, hasDestructive: bool)

  /** The statement belongs to the part of `diff` that handles table `t` in the given phase. */
  ghost predicate PhasePart(desired: DesiredSchema, current: CurrentSchema, phase: nat, t: string, s: Statement) {
    match phase
    case 1 => NewTablePart(desired, current, t, s)
    case 2 => DroppedTablePart(desired, current, t, s)
    case 3 => KeptTablePart(desired, current, t, s)
    case 4 => IsNew(desired, current, t) && AddsRelation(desired, current, t, desired[t].relations.Keys, s)
    case 5 => t in desired && SecurityPart(desired, current, t, s)
    case _ => false
  }

  /** The statements of one phase for the tables of a set. */
  ghost predicate PhasePartIn(desired: DesiredSchema, current: CurrentSchema, phase: nat, tables: set<string>, s: Statement) {
    exists t :: t in tables && PhasePart(desired, current, phase, t, s)
  }

  lemma PhaseGrow(desired: DesiredSchema, current: CurrentSchema, phase: nat, tables: set<string>, t: string)
    ensures forall s :: PhasePartIn(desired, current, phase, tables + {t}, s) <==>
      PhasePartIn(desired, current, phase, tables, s) || PhasePart(desired, current, phase, t, s)
    ensures forall s :: !PhasePartIn(desired, current, phase, {}, s)
  {
    hide PhasePart;
    forall s | PhasePartIn(desired, current, phase, tables, s) || PhasePart(desired, current, phase, t, s)
      ensures PhasePartIn(desired, current, phase, tables + {t}, s)
    {
      if PhasePartIn(desired, current, phase, tables, s) {
        var u :| u in tables && PhasePart(desired, current, phase, u, s);
        assert u in tables + {t};
      } else {
        assert t in tables + {t};
      }
    }
  }

  /** No statement belongs to two tables, nor to two phases. */
  lemma PartsDisjoint(desired: DesiredSchema, current: CurrentSchema, i: nat, t: string, j: nat, u: string, s: Statement)
    requires DistinctNames(current) && (i != j || t != u)
    ensures !(PhasePart(desired, current, i, t, s) && PhasePart(desired, current, j, u, s))
  {
    hide Planned, NamesForeignKey;
  }

  lemma PhaseFresh(desired: DesiredSchema, current: CurrentSchema, phase: nat, tables: set<string>, t: string, s: Statement)
    requires DistinctNames(current) && PhasePart(desired, current, phase, t, s)
    ensures forall j, u :: j != phase || u != t ==> !PhasePart(desired, current, j, u, s)
    ensures t !in tables ==> !PhasePartIn(desired, current, phase, tables, s)
    ensures forall j, us :: j != phase ==> !PhasePartIn(desired, current, j, us, s)
  {
    forall j, u | j != phase || u != t ensures !PhasePart(desired, current, j, u, s) {
      PartsDisjoint(desired, current, phase, t, j, u, s);
    }
    hide PhasePart;
  }

  lemma PartIsPlanned(desired: DesiredSchema, current: CurrentSchema, phase: nat, t: string, s: Statement)
    requires PhasePart(desired, current, phase, t, s)
    ensures Planned(desired, current, s)
  {
    hide NormalizeType;
    if phase == 4 {
      AllRelationsAdded(desired, current, t, s);
    }
  }

  /** The tables a phase walks over. */
  function PhaseTables(desired: DesiredSchema, current: CurrentSchema, phase: nat): set<string> {
    match phase
    case 1 => desired.Keys - current.Keys
    case 2 => current.Keys - desired.Keys
    case 3 => desired.Keys * current.Keys
    case 4 => desired.Keys - current.Keys
    case _ => desired.Keys
  }

  lemma PlannedInPart(desired: DesiredSchema, current: CurrentSchema, s: Statement) returns (phase: nat, t: string)
    requires Planned(desired, current, s)
    ensures 1 <= phase <= 5 && PhasePart(desired, current, phase, t, s) && t in PhaseTables(desired, current, phase)
  {
    hide NormalizeType, TypeDiffers, DefaultDiffers, ColumnNamed;
    hide CreateTableFor, AddColumnFor, AlterTypeFor, UniqueName, PolicyName;
    match s
    case CreateTable(u, _, _) => phase, t := 1, u;
    case AddUnique(u, _, _) => phase, t := 1, u;
    case DropTable(u) => phase, t := 2, u;
    case DropIndex(i) =>
      phase := 2;
      t :| t in current && t !in desired && ListsIndex(current[t].indexes, i);
    case DropConstraint(u, n) => phase, t := if u in desired then 3 else 2, u;
    case AddForeignKey(u, _, _, _, _) =>
      AllRelationsAdded(desired, current, u, s);
      phase, t := if u in current then 3 else 4, u;
    case EnableRls(u) => phase, t := 5, u;
    case ForceRls(u) => phase, t := 5, u;
    case CreatePolicy(u, _, _) => phase, t := 5, u;
    case DropPolicy(u, _) => phase, t := 5, u;
    case _ => phase, t := 3, s.table;
  }

  /** Together the phases make up the plan. */
  lemma PhasesCover(desired: DesiredSchema, current: CurrentSchema, s: Statement)
    ensures Planned(desired, current, s) <==>
      exists phase :: 1 <= phase <= 5 && PhasePartIn(desired, current, phase, PhaseTables(desired, current, phase), s)
  {
    if Planned(desired, current, s) {
      var phase, t := PlannedInPart(desired, current, s);
      hide *;
      IsPartIn(desired, current, phase, PhaseTables(desired, current, phase), t, s);
    } else {
      hide Planned, PhasePart;
      forall phase, t ensures !PhasePart(desired, current, phase, t, s) {
        if PhasePart(desired, current, phase, t, s) {
          PartIsPlanned(desired, current, phase, t, s);
        }
      }
    }
  }

  lemma IsPartIn(desired: DesiredSchema, current: CurrentSchema, phase: nat, tables: set<string>, t: string, s: Statement)
    requires t in tables && PhasePart(desired, current, phase, t, s)
    ensures PhasePartIn(desired, current, phase, tables, s)
  {
    hide PhasePart;
  }

  /** The statements of all phases before `phase`, and of `phase` itself for the tables of a set. */
  ghost predicate EmittedBefore(desired: DesiredSchema, current: CurrentSchema, phase: nat, done: set<string>, s: Statement) {
    || PhasePartIn(desired, current, phase, done, s)
    || exists i :: 1 <= i < phase && PhasePartIn(desired, current, i, PhaseTables(desired, current, i), s)
  }

  lemma EmittedGrow(desired: DesiredSchema, current: CurrentSchema, phase: nat, done: set<string>, t: string)
    requires DistinctNames(current) && t !in done
    ensures forall s :: EmittedBefore(desired, current, phase, done + {t}, s) <==>
      EmittedBefore(desired, current, phase, done, s) || PhasePart(desired, current, phase, t, s)
    ensures forall s :: PhasePart(desired, current, phase, t, s) ==> !EmittedBefore(desired, current, phase, done, s)
  {
    PhaseGrow(desired, current, phase, done, t);
    forall s | PhasePart(desired, current, phase, t, s) ensures !EmittedBefore(desired, current, phase, done, s) {
      PhaseFresh(desired, current, phase, done, t, s);
    }
    hide PhasePartIn;
  }

  lemma NextPhase(desired: DesiredSchema, current: CurrentSchema, phase: nat)
    requires 1 <= phase
    ensures forall s :: EmittedBefore(desired, current, phase + 1, {}, s) <==>
      EmittedBefore(desired, current, phase, PhaseTables(desired, current, phase), s)
  {
    var next := phase + 1;
    assert forall s :: !PhasePartIn(desired, current, next, {}, s);
    hide PhasePartIn;
    forall s | EmittedBefore(desired, current, phase, PhaseTables(desired, current, phase), s)
      ensures EmittedBefore(desired, current, phase + 1, {}, s)
    {
      if PhasePartIn(desired, current, phase, PhaseTables(desired, current, phase), s) {
      } else {
        var i :| 1 <= i < phase && PhasePartIn(desired, current, i, PhaseTables(desired, current, i), s);
      }
    }
  }

  lemma NothingEmitted(desired: DesiredSchema, current: CurrentSchema)
    ensures forall s :: !EmittedBefore(desired, current, 1, {}, s)
  {}

  lemma AllEmitted(desired: DesiredSchema, current: CurrentSchema, s: Statement)
    ensures EmittedBefore(desired, current, 6, {}, s) <==> Planned(desired, current, s)
  {
    PhasesCover(desired, current, s);
    hide Planned, PhasePart;
  }

  // Each loop below is one of the loops of `diff` over a set of table names.

  method NewTablesPhase(desired: DesiredSchema, current: CurrentSchema, statements: DiffStatements, summary: DiffSummary)
    requires statements.Valid() && summary.Counts(statements) && DistinctNames(current)
    requires forall s :: s in statements.emitted <==> EmittedBefore(desired, current, 1, {}, s)
    modifies statements, summary
    ensures statements.Valid() && summary.Counts(statements)
    ensures summary.shapes == old(summary.shapes) && summary.defaults == old(summary.defaults)
    ensures forall s :: s in statements.emitted <==> EmittedBefore(desired, current, 2, {}, s)
  {
    hide EmittedBefore, PhasePart, NewTablePart, DistinctNames, Tallies, DiffStatements.Valid, DiffSummary.Counts, IsNew;
    PhaseOne(desired, current);
    var tables := desired.Keys - current.Keys;
    var todo := tables;
    ghost var done: set<string> := {};
    while todo != {}
      invariant todo <= tables && forall u :: u in done <==> u in tables && u !in todo
      invariant statements.Valid() && summary.Counts(statements)
      invariant summary.shapes == old(summary.shapes) && summary.defaults == old(summary.defaults)
      invariant forall s :: s in statements.emitted <==> EmittedBefore(desired, current, 1, done, s)
    {
      var t :| t in todo;
      EmittedGrow(desired, current, 1, done, t);
      PlanNewTable(desired, current, t, statements, summary);
      done, todo := done + {t}, todo - {t};
    }
    assert done == tables;
    NextPhase(desired, current, 1);
  }

  lemma PhaseOne(desired: DesiredSchema, current: CurrentSchema)
    ensures PhaseTables(desired, current, 1) == desired.Keys - current.Keys
    ensures forall t :: t in desired.Keys - current.Keys ==> IsNew(desired, current, t)
    ensures forall t, s :: PhasePart(desired, current, 1, t, s) <==> NewTablePart(desired, current, t, s)
  {
    hide NewTablePart;
  }

  method DroppedTablesPhase(desired: DesiredSchema, current: CurrentSchema, statements: DiffStatements, summary: DiffSummary)
    returns (lost: bool)
    requires statements.Valid() && summary.Counts(statements) && DistinctNames(current)
    requires forall s :: s in statements.emitted <==> EmittedBefore(desired, current, 2, {}, s)
    modifies statements, summary
    ensures statements.Valid() && summary.Counts(statements)
    ensures summary.shapes == old(summary.shapes) && summary.defaults == old(summary.defaults)
    ensures forall s :: s in statements.emitted <==> EmittedBefore(desired, current, 3, {}, s)
    ensures lost <==> current.Keys - desired.Keys != {}
  {
    hide EmittedBefore, PhasePart, DistinctNames, Tallies, DiffStatements.Valid, DiffSummary.Counts, DroppedTablePart, IsDropped;
    PhaseTwo(desired, current);
    var tables := current.Keys - desired.Keys;
    var todo := tables;
    ghost var done: set<string> := {};
    lost := false;
    while todo != {}
      invariant todo <= tables && forall u :: u in done <==> u in tables && u !in todo
      invariant statements.Valid() && summary.Counts(statements)
      invariant summary.shapes == old(summary.shapes) && summary.defaults == old(summary.defaults)
      invariant lost <==> todo != tables
      invariant forall s :: s in statements.emitted <==> EmittedBefore(desired, current, 2, done, s)
    {
      var t :| t in todo;
      EmittedGrow(desired, current, 2, done, t);
      PlanDroppedTable(desired, current, t, statements, summary);
      lost := true;
      done, todo := done + {t}, todo - {t};
    }
    assert done == tables;
    NextPhase(desired, current, 2);
  }

  lemma PhaseTwo(desired: DesiredSchema, current: CurrentSchema)
    ensures PhaseTables(desired, current, 2) == current.Keys - desired.Keys
    ensures forall t :: t in current.Keys - desired.Keys ==> IsDropped(desired, current, t)
    ensures forall t, s :: PhasePart(desired, current, 2, t, s) <==> DroppedTablePart(desired, current, t, s)
  {
    hide DroppedTablePart;
  }

  method DeferredForeignKeysPhase(desired: DesiredSchema, current: CurrentSchema,
                                  statements: DiffStatements, summary: DiffSummary)
    requires statements.Valid() && summary.Counts(statements) && DistinctNames(current)
    requires forall s :: s in statements.emitted <==> EmittedBefore(desired, current, 4, {}, s)
    modifies statements, summary
    ensures statements.Valid() && summary.Counts(statements)
    ensures summary.shapes == old(summary.shapes) && summary.defaults == old(summary.defaults)
    ensures forall s :: s in statements.emitted <==> EmittedBefore(desired, current, 5, {}, s)
  {
    hide EmittedBefore, PhasePart, DistinctNames, Tallies, DiffStatements.Valid, DiffSummary.Counts, AddsRelation, IsNew;
    PhaseFour(desired, current);
    var tables := desired.Keys - current.Keys;
    var todo := tables;
    ghost var done: set<string> := {};
    while todo != {}
      invariant todo <= tables && forall u :: u in done <==> u in tables && u !in todo
      invariant statements.Valid() && summary.Counts(statements)
      invariant summary.shapes == old(summary.shapes) && summary.defaults == old(summary.defaults)
      invariant forall s :: s in statements.emitted <==> EmittedBefore(desired, current, 4, done, s)
    {
      var t :| t in todo;
      EmittedGrow(desired, current, 4, done, t);
      AddMissingForeignKeys(desired, current, t, statements, summary);
      done, todo := done + {t}, todo - {t};
    }
    assert done == tables;
    NextPhase(desired, current, 4);
  }

  lemma PhaseFour(desired: DesiredSchema, current: CurrentSchema)
    ensures PhaseTables(desired, current, 4) == desired.Keys - current.Keys
    ensures forall t, s :: t in desired.Keys - current.Keys ==>
      (PhasePart(desired, current, 4, t, s) <==> AddsRelation(desired, current, t, desired[t].relations.Keys, s))
  {
    hide AddsRelation;
  }

  method SecurityPhase(desired: DesiredSchema, current: CurrentSchema, statements: DiffStatements, summary: DiffSummary)
    requires statements.Valid() && summary.Counts(statements) && DistinctNames(current)
    requires forall s :: s in statements.emitted <==> EmittedBefore(desired, current, 5, {}, s)
    modifies statements, summary
    ensures statements.Valid() && summary.Counts(statements)
    ensures summary.shapes == old(summary.shapes) && summary.defaults == old(summary.defaults)
    ensures forall s :: s in statements.emitted <==> EmittedBefore(desired, current, 6, {}, s)
  {
    hide EmittedBefore, PhasePart, DistinctNames, Tallies, DiffStatements.Valid, DiffSummary.Counts, SecurityPart;
    PhaseFive(desired, current);
    var tables := desired.Keys;
    var todo := tables;
    ghost var done: set<string> := {};
    while todo != {}
      invariant todo <= tables && forall u :: u in done <==> u in tables && u !in todo
      invariant statements.Valid() && summary.Counts(statements)
      invariant summary.shapes == old(summary.shapes) && summary.defaults == old(summary.defaults)
      invariant forall s :: s in statements.emitted <==> EmittedBefore(desired, current, 5, done, s)
    {
      var t :| t in todo;
      EmittedGrow(desired, current, 5, done, t);
      PlanSecurity(desired, current, t, statements, summary);
      done, todo := done + {t}, todo - {t};
    }
    assert done == tables;
    NextPhase(desired, current, 5);
  }

  lemma PhaseFive(desired: DesiredSchema, current: CurrentSchema)
    ensures PhaseTables(desired, current, 5) == desired.Keys
    ensures forall t, s :: t in desired.Keys ==>
      (PhasePart(desired, current, 5, t, s) <==> SecurityPart(desired, current, t, s))
  {
    hide SecurityPart;
  }

  /** `shapes` and `defaults` hold the changed columns of the tables of a set. */
  ghost predicate ChangedIn(desired: DesiredSchema, current: CurrentSchema, tables: set<string>,
                            shapes: set<Cell>, defaults: set<Cell>)
  {
    && (forall cell :: cell in shapes <==> cell.table in tables && ShapeChanges(desired, current, cell))
    && (forall cell :: cell in defaults <==> cell.table in tables && DefaultChanges(desired, current, cell))
  }

  lemma ChangedGrow(desired: DesiredSchema, current: CurrentSchema, tables: set<string>, t: string,
                    shapes: set<Cell>, defaults: set<Cell>, shapes': set<Cell>, defaults': set<Cell>)
    requires ChangedIn(desired, current, tables, shapes, defaults) && t !in tables && IsKept(desired, current, t)
    requires ShapesGrown(desired, current, t, KeptNames(desired, current, t), shapes, shapes')
    requires DefaultsGrown(desired, current, t, KeptNames(desired, current, t), defaults, defaults')
    ensures ChangedIn(desired, current, tables + {t}, shapes', defaults')
  {
    hide TypeDiffers, DefaultDiffers;
  }

  lemma NotChangedYet(desired: DesiredSchema, current: CurrentSchema, tables: set<string>, t: string,
                      shapes: set<Cell>, defaults: set<Cell>)
    requires ChangedIn(desired, current, tables, shapes, defaults) && t !in tables
    ensures forall c :: Cell(t, c) !in shapes && Cell(t, c) !in defaults
  {
    hide ShapeChanges, DefaultChanges;
  }

  ghost predicate LosesColumn(desired: DesiredSchema, current: CurrentSchema, t: string) {
    t in current && t in desired && exists c :: HasColumn(current[t], c) && c !in desired[t].columns
  }

  method KeptTablesPhase(desired: DesiredSchema, current: CurrentSchema, statements: DiffStatements, summary: DiffSummary)
    returns (lost: bool)
    requires statements.Valid() && summary.Counts(statements) && DistinctNames(current)
    requires summary.shapes == {} && summary.defaults == {}
    requires forall s :: s in statements.emitted <==> EmittedBefore(desired, current, 3, {}, s)
    modifies statements, summary
    ensures statements.Valid() && summary.Counts(statements)
    ensures ChangedIn(desired, current, desired.Keys * current.Keys, summary.shapes, summary.defaults)
    ensures forall s :: s in statements.emitted <==> EmittedBefore(desired, current, 4, {}, s)
    ensures lost <==> exists t :: LosesColumn(desired, current, t)
  {
    hide EmittedBefore, PhasePart, KeptTablePart, DistinctNames, Tallies, DiffStatements.Valid, DiffSummary.Counts;
    hide ChangedIn, ShapesGrown, DefaultsGrown, KeptNames;
    PhaseThree(desired, current);
    NoneChanged(desired, current);
    var tables := desired.Keys * current.Keys;
    var todo := tables;
    ghost var done: set<string> := {};
    lost := false;
    while todo != {}
      invariant todo <= tables && forall u :: u in done <==> u in tables && u !in todo
      invariant statements.Valid() && summary.Counts(statements)
      invariant ChangedIn(desired, current, done, summary.shapes, summary.defaults)
      invariant lost <==> exists t :: t in done && LosesColumn(desired, current, t)
      invariant forall s :: s in statements.emitted <==> EmittedBefore(desired, current, 3, done, s)
    {
      var t :| t in todo;
      EmittedGrow(desired, current, 3, done, t);
      NotChangedYet(desired, current, done, t, summary.shapes, summary.defaults);
      ghost var shapes, defaults := summary.shapes, summary.defaults;
      var lostHere := PlanKeptTable(desired, current, t, statements, summary);
      ChangedGrow(desired, current, done, t, shapes, defaults, summary.shapes, summary.defaults);
      assert lostHere <==> LosesColumn(desired, current, t);
      lost := lost || lostHere;
      done, todo := done + {t}, todo - {t};
    }
    assert done == tables;
    NextPhase(desired, current, 3);
  }

  lemma NoneChanged(desired: DesiredSchema, current: CurrentSchema)
    ensures ChangedIn(desired, current, {}, {}, {})
  {}

  lemma PhaseThree(desired: DesiredSchema, current: CurrentSchema)
    ensures PhaseTables(desired, current, 3) == desired.Keys * current.Keys
    ensures forall t :: t in desired.Keys * current.Keys ==> IsKept(desired, current, t)
    ensures forall t, s :: PhasePart(desired, current, 3, t, s) <==> KeptTablePart(desired, current, t, s)
  {
    hide KeptTablePart;
  }

  // ----- counting ---------------------------------------------------------------------------

  /** The statements of a plan that stand in one bucket. */
  ghost function InBucket(p: seq<Statement>, b: Bucket): set<Statement> {
    set s | s in p && BucketOf(s) == b
  }

  lemma {:induction false} SizeOfEnumeration<T(!new)>(q: seq<T>, elements: set<T>)
    requires NoDuplicates(q) && forall x :: x in q <==> x in elements
    ensures |q| == |elements|
  {
    if q == [] {
      assert elements == {};
    } else {
      var last := q[|q| - 1];
      var rest := q[..|q| - 1];
      assert q == rest + [last];
      assert last !in rest;
      SizeOfEnumeration(rest, elements - {last});
    }
  }

  /** The counters say how many statements of each kind the plan has. */
  ghost predicate SummaryCounts(desired: DesiredSchema, current: CurrentSchema, p: seq<Statement>, counters: map<Counter, nat>) {
    && (forall k: Counter :: k in counters)
    && (forall k: Counter :: CountedBucket(k).Some? ==> counters[k] == |InBucket(p, CountedBucket(k).value)|)
    && 2 * counters[RlsEnabled] == |InBucket(p, RowSecurity)|
    && exists shapes, defaults ::
         ChangedIn(desired, current, desired.Keys * current.Keys, shapes, defaults) &&
         counters[ColumnsModified] == |shapes| + |defaults|
  }

  lemma BucketsCounted(statements: DiffStatements, p: seq<Statement>, b: Bucket)
    requires statements.Valid() && forall s :: s in p <==> s in statements.emitted
    ensures b in statements.buckets && |statements.buckets[b]| == |InBucket(p, b)|
  {
    SizeOfEnumeration(statements.buckets[b], InBucket(p, b));
  }

  lemma Summarised(desired: DesiredSchema, current: CurrentSchema, p: seq<Statement>,
                   statements: DiffStatements, summary: DiffSummary)
    requires statements.Valid() && summary.Counts(statements) && forall s :: s in p <==> s in statements.emitted
    requires ChangedIn(desired, current, desired.Keys * current.Keys, summary.shapes, summary.defaults)
    ensures SummaryCounts(desired, current, p, summary.counters)
  {
    hide ChangedIn, InBucket, BucketOf, DiffStatements.Valid;
    forall b ensures b in statements.buckets && |statements.buckets[b]| == |InBucket(p, b)| {
      BucketsCounted(statements, p, b);
    }
  }

  lemma LossInPhases(desired: DesiredSchema, current: CurrentSchema)
    ensures LosesData(desired, current) <==>
      current.Keys - desired.Keys != {} || exists t :: LosesColumn(desired, current, t)
  {
    if t :| t in current && t !in desired {
      assert t in current.Keys - desired.Keys;
    } else if t :| t in current && t in desired && exists c :: HasColumn(current[t], c) && c !in desired[t].columns {
      assert LosesColumn(desired, current, t);
    }
  }

  /**
   * `diff`: whatever the order in which the sets are walked, the result is a plan for the two
   * schemas, the summary counts its statements, and the verdict says whether data is lost.
   */
  method Diff(desired: DesiredSchema, current: CurrentSchema) returns (r: DiffResult)
    requires DistinctNames(current)
    ensures IsPlan(desired, current, r.statements)
    ensures SummaryCounts(desired, current, r.statements, r.summary)
    ensures r.hasDestructive <==> LosesData(desired, current)
  {
    hide EmittedBefore, DistinctNames, DiffStatements.Valid, Tallies, ChangedIn, Planned, InBucketOrder, NoDuplicates;
    hide IsPlan, SummaryCounts, LosesData, LosesColumn;
    var statements := new DiffStatements();
    var summary := new DiffSummary();
    StartTally(statements, summary);
    NothingEmitted(desired, current);
    NewTablesPhase(desired, current, statements, summary);
    var dropsTable := DroppedTablesPhase(desired, current, statements, summary);
    var dropsColumn := KeptTablesPhase(desired, current, statements, summary);
    DeferredForeignKeysPhase(desired, current, statements, summary);
    SecurityPhase(desired, current, statements, summary);
    LossInPhases(desired, current);
    forall s {
      AllEmitted(desired, current, s);
    }
    var all := statements.Assemble();
    AssembledPlan(desired, current, all);
    Summarised(desired, current, all, statements, summary);
    r := DiffResult(all, summary.counters, dropsTable || dropsColumn);
  }

  lemma AssembledPlan(desired: DesiredSchema, current: CurrentSchema, all: seq<Statement>)
    requires NoDuplicates(all) && InBucketOrder(all) && forall s :: s in all <==> Planned(desired, current, s)
    ensures IsPlan(desired, current, all)
  {
    hide NoDuplicates, InBucketOrder, Planned;
  }

  lemma StartTally(statements: DiffStatements, summary: DiffSummary)
    requires statements.Valid() && forall b: Bucket :: statements.buckets[b] == []
    requires forall k: Counter :: k in summary.counters && summary.counters[k] == 0
    requires summary.shapes == {} && summary.defaults == {}
    ensures summary.Counts(statements)
  {}

  // ----- sizes of the differences -----------------------------------------------------------

  lemma {:induction false} SizeOfImage<S(!new), T(!new)>(names: set<S>, f: S -> T, image: set<T>)
    requires forall a, b :: a in names && b in names && f(a) == f(b) ==> a == b
    requires forall y :: y in image <==> exists x :: x in names && f(x) == y
    ensures |image| == |names|
  {
    if names == {} {
      assert image == {};
    } else {
      var x :| x in names;
      SizeOfImage(names - {x}, f, image - {f(x)});
    }
  }

  /** The columns of kept tables that only the desired schema has. */
  ghost predicate AreAddedColumns(desired: DesiredSchema, current: CurrentSchema, cells: set<Cell>) {
    forall cell :: cell in cells <==>
      && IsKept(desired, current, cell.table)
      && cell.name in desired[cell.table].columns && !HasColumn(current[cell.table], cell.name)
  }

  /** The columns of kept tables that only the current schema has. */
  ghost predicate AreDroppedColumns(desired: DesiredSchema, current: CurrentSchema, cells: set<Cell>) {
    forall cell :: cell in cells <==>
      && IsKept(desired, current, cell.table)
      && HasColumn(current[cell.table], cell.name) && cell.name !in desired[cell.table].columns
  }

  /** The counters of a summary are the sizes of the differences between the schemas. */
  lemma SummarySizes(desired: DesiredSchema, current: CurrentSchema, p: seq<Statement>, counters: map<Counter, nat>,
                     added: set<Cell>, dropped: set<Cell>)
    requires IsPlan(desired, current, p) && SummaryCounts(desired, current, p, counters)
    requires AreAddedColumns(desired, current, added) && AreDroppedColumns(desired, current, dropped)
    ensures counters[TablesCreated] == |desired.Keys - current.Keys|
    ensures counters[TablesDropped] == |current.Keys - desired.Keys|
    ensures counters[ColumnsAdded] == |added| && counters[ColumnsDropped] == |dropped|
  {
    assert CountedBucket(TablesCreated) == Some(CreateTables) && CountedBucket(TablesDropped) == Some(DropTables);
    assert CountedBucket(ColumnsAdded) == Some(AddColumns) && CountedBucket(ColumnsDropped) == Some(DropColumns);
    PlanOutcome.PlannedInPlan(desired, current, p);
    hide IsPlan, InBucket, AreAddedColumns, AreDroppedColumns, Planned, ChangedIn;
    CreatedCount(desired, current, p);
    DroppedCount(desired, current, p);
    AddedColumnCount(desired, current, p, added);
    DroppedColumnCount(desired, current, p, dropped);
  }

  lemma CreatedCount(desired: DesiredSchema, current: CurrentSchema, p: seq<Statement>)
    requires forall s :: s in p <==> Planned(desired, current, s)
    ensures |InBucket(p, CreateTables)| == |desired.Keys - current.Keys|
  {
    hide CreateTableFor, Planned, BucketOf;
    var names := desired.Keys - current.Keys;
    var f := t => if t in desired then CreateTableFor(t, desired[t]) else DropTable(t);
    forall s ensures s in InBucket(p, CreateTables) <==> exists t :: t in names && f(t) == s {
      CreatesPlanned(desired, current, s);
      if s in InBucket(p, CreateTables) {
        assert s.table in names && f(s.table) == s;
      }
    }
    SizeOfImage(names, f, InBucket(p, CreateTables));
  }

  lemma CreatesPlanned(desired: DesiredSchema, current: CurrentSchema, s: Statement)
    ensures Planned(desired, current, s) && BucketOf(s) == CreateTables <==>
      s.CreateTable? && s.table in desired.Keys - current.Keys && s == CreateTableFor(s.table, desired[s.table])
  {
    hide NormalizeType, CreateTableFor;
  }

  lemma DropTablesPlanned(desired: DesiredSchema, current: CurrentSchema, s: Statement)
    ensures Planned(desired, current, s) && BucketOf(s) == DropTables <==> s.DropTable? && s.table in current.Keys - desired.Keys
  {
    hide NormalizeType;
  }

  lemma DroppedCount(desired: DesiredSchema, current: CurrentSchema, p: seq<Statement>)
    requires forall s :: s in p <==> Planned(desired, current, s)
    ensures |InBucket(p, DropTables)| == |current.Keys - desired.Keys|
  {
    hide Planned, BucketOf;
    var names := current.Keys - desired.Keys;
    var f := t => DropTable(t);
    forall s ensures s in InBucket(p, DropTables) <==> exists t :: t in names && f(t) == s {
      DropTablesPlanned(desired, current, s);
      if s in InBucket(p, DropTables) {
        assert s.table in names && f(s.table) == s;
      }
    }
    SizeOfImage(names, f, InBucket(p, DropTables));
  }

  lemma AddedColumnCount(desired: DesiredSchema, current: CurrentSchema, p: seq<Statement>, added: set<Cell>)
    requires forall s :: s in p <==> Planned(desired, current, s)
    requires AreAddedColumns(desired, current, added)
    ensures |InBucket(p, AddColumns)| == |added|
  {
    hide NormalizeType, AddColumnFor;
    var f := (cell: Cell) =>
      if cell.table in desired && cell.name in desired[cell.table].columns
      then AddColumnFor(cell.table, cell.name, desired[cell.table].columns[cell.name]) else DropTable(cell.table);
    forall s ensures s in InBucket(p, AddColumns) <==> exists cell :: cell in added && f(cell) == s {
      if s in InBucket(p, AddColumns) {
        assert Cell(s.table, s.column) in added && f(Cell(s.table, s.column)) == s;
      }
    }
    SizeOfImage(added, f, InBucket(p, AddColumns));
  }

  lemma DroppedColumnCount(desired: DesiredSchema, current: CurrentSchema, p: seq<Statement>, dropped: set<Cell>)
    requires forall s :: s in p <==> Planned(desired, current, s)
    requires AreDroppedColumns(desired, current, dropped)
    ensures |InBucket(p, DropColumns)| == |dropped|
  {
    hide NormalizeType;
    var f := (cell: Cell) => DropColumn(cell.table, cell.name);
    forall s ensures s in InBucket(p, DropColumns) <==> exists cell :: cell in dropped && f(cell) == s {
      if s in InBucket(p, DropColumns) {
        assert Cell(s.table, s.column) in dropped && f(Cell(s.table, s.column)) == s;
      }
    }
    SizeOfImage(dropped, f, InBucket(p, DropColumns));
  }
}
