/**
 * What the planner of `diff/diff.rs` emits, as a specification: which statements belong to the
 * plan for a pair of schemas, and in which of the eighteen buckets each one stands.
 */
module Plan {
  import opened Wrappers
  import opened Normalize
  import opened Schema
  import opened Catalogue

  // ----- buckets ----------------------------------------------------------------------------

  /** The vectors of `DiffStatements`. */
  datatype Bucket =
    | CreateTables | RowSecurity | AddColumns | DropNotNulls | AlterTypes | SetDefaults | DropDefaults
    | SetNotNulls | AddFks | AddUniques | CreatePolicies | CreateIndexes | DropIndexes | DropUniques
    | DropPolicies | DropFks | DropColumns | DropTables

  /** The order in which the buckets are concatenated. */
  const ASSEMBLY: seq<Bucket> := [
    CreateTables, RowSecurity, AddColumns, DropNotNulls, AlterTypes, SetDefaults, DropDefaults,
    SetNotNulls, AddFks, AddUniques, CreatePolicies, CreateIndexes, DropIndexes, DropUniques,
    DropPolicies, DropFks, DropColumns, DropTables]

  function Rank(b: Bucket): (r: nat)
    ensures r < |ASSEMBLY| && ASSEMBLY[r] == b
  {
    match b
    case CreateTables => 0 case RowSecurity => 1 case AddColumns => 2 case DropNotNulls => 3
    case AlterTypes => 4 case SetDefaults => 5 case DropDefaults => 6 case SetNotNulls => 7
    case AddFks => 8 case AddUniques => 9 case CreatePolicies => 10 case CreateIndexes => 11
    case DropIndexes => 12 case DropUniques => 13 case DropPolicies => 14 case DropFks => 15
    case DropColumns => 16 case DropTables => 17
  }

  function BucketOf(s: Statement): Bucket {
    match s
    case CreateTable(_, _, _) => CreateTables
    case EnableRls(_) => RowSecurity
    case ForceRls(_) => RowSecurity
    case AddColumn(_, _, _) => AddColumns
    case DropNotNull(_, _) => DropNotNulls
    case AlterColumnType(_, _, _) => AlterTypes
    case SetDefault(_, _, _) => SetDefaults
    case DropDefault(_, _) => DropDefaults
    case SetNotNull(_, _) => SetNotNulls
    case AddForeignKey(_, _, _, _, _) => AddFks
    case AddUnique(_, _, _) => AddUniques
    case CreatePolicy(_, _, _) => CreatePolicies
    case DropIndex(_) => DropIndexes
    case DropPolicy(_, _) => DropPolicies
    case DropConstraint(_, _) => DropFks
    case DropColumn(_, _) => DropColumns
    case DropTable(_) => DropTables
  }

  function StatementRank(s: Statement): nat {
    Rank(BucketOf(s))
  }

  // ----- statement constructors -------------------------------------------------------------

  function ForeignKeyName(table: string, relation: string): string {
    "fk_" + table + "_" + relation
  }

  function UniqueName(table: string, column: string): string {
    table + "_" + column + "_key"
  }

  function PolicyName(command: Command, table: string): string {
    match command
    case ForSelect => "garance_select_" + table
    case ForInsert => "garance_insert_" + table
    case ForUpdate => "garance_update_" + table
    case ForDelete => "garance_delete_" + table
  }

  function DefinitionOf(col: DesiredColumn): ColumnDef {
    ColumnDef(NormalizeType(col.colType), col.nullable, col.default)
  }

  function PrimaryKeyOf(table: DesiredTable): set<string> {
    set c | c in table.columns && table.columns[c].primaryKey
  }

  function CreateTableFor(t: string, table: DesiredTable): (s: Statement)
    ensures s.CreateTable? && s.table == t
  {
    CreateTable(t, map c | c in table.columns :: DefinitionOf(table.columns[c]), PrimaryKeyOf(table))
  }

  function AddColumnFor(t: string, c: string, col: DesiredColumn): (s: Statement)
    ensures s.AddColumn? && s.table == t && s.column == c
  {
    AddColumn(t, c, DefinitionOf(col))
  }

  function AlterTypeFor(t: string, c: string, col: DesiredColumn): (s: Statement)
    ensures s.AlterColumnType? && s.table == t && s.column == c
  {
    AlterColumnType(t, c, NormalizeType(col.colType))
  }

  function AddForeignKeyFor(t: string, name: string, rel: Relation): Statement {
    AddForeignKey(t, ForeignKeyName(t, name), [rel.foreignKey], rel.table, ["id"])
  }

  // ----- comparisons ------------------------------------------------------------------------

  predicate IsNew(desired: DesiredSchema, current: CurrentSchema, t: string) {
    t in desired && t !in current
  }

  predicate IsDropped(desired: DesiredSchema, current: CurrentSchema, t: string) {
    t in current && t !in desired
  }

  predicate IsKept(desired: DesiredSchema, current: CurrentSchema, t: string) {
    t in desired && t in current
  }

  predicate IsKeptColumn(desired: DesiredSchema, current: CurrentSchema, t: string, c: string) {
    IsKept(desired, current, t) && c in desired[t].columns && HasColumn(current[t], c)
  }

  predicate TypeDiffers(want: DesiredColumn, have: Column) {
    NormalizeType(want.colType) != Canonical(have.dataType)
  }

  predicate DefaultDiffers(want: DesiredColumn, have: Column) {
    NormalizeDefaultOption(want.default) != NormalizeDefaultOption(have.defaultValue)
  }

  /** The match that both directions of the foreign-key comparison use. */
  predicate Realises(fk: ForeignKey, rel: Relation) {
    fk.referencedTable == rel.table && rel.foreignKey in fk.columns
  }

  predicate FkExists(table: Table, rel: Relation) {
    exists fk :: fk in table.foreignKeys && Realises(fk, rel)
  }

  predicate StillDesired(table: DesiredTable, fk: ForeignKey) {
    exists r :: r in table.relations && Realises(fk, table.relations[r])
  }

  /** Whether `generate_policies` makes a policy for the command. DELETE does not inherit from write. */
  predicate HasRule(access: Access, command: Command) {
    match command
    case ForSelect => access.read.Some?
    case ForInsert => access.write.Some?
    case ForUpdate => access.write.Some?
    case ForDelete => access.delete.Some?
  }

  // ----- the plan ---------------------------------------------------------------------------

  /** The statement belongs to the plan from `current` to `desired`. */
  ghost predicate Planned(desired: DesiredSchema, current: CurrentSchema, s: Statement) {
    match s
    case CreateTable(t, _, _) => IsNew(desired, current, t) && s == CreateTableFor(t, desired[t])
    case EnableRls(t) => IsNew(desired, current, t)
    case ForceRls(t) => IsNew(desired, current, t)
    case AddColumn(t, c, _) =>
      && IsKept(desired, current, t) && c in desired[t].columns && !HasColumn(current[t], c)
      && s == AddColumnFor(t, c, desired[t].columns[c])
    case DropNotNull(t, c) => IsKeptColumn(desired, current, t, c) &&
      var want, have := desired[t].columns[c], ColumnNamed(current[t].columns, c).value;
      !have.isNullable && (TypeDiffers(want, have) || want.nullable)
    case AlterColumnType(t, c, _) => IsKeptColumn(desired, current, t, c) &&
      var want, have := desired[t].columns[c], ColumnNamed(current[t].columns, c).value;
      TypeDiffers(want, have) && s == AlterTypeFor(t, c, want)
    case SetDefault(t, c, e) => IsKeptColumn(desired, current, t, c) &&
      var want, have := desired[t].columns[c], ColumnNamed(current[t].columns, c).value;
      DefaultDiffers(want, have) && want.default == Some(e)
    case DropDefault(t, c) => IsKeptColumn(desired, current, t, c) &&
      var want, have := desired[t].columns[c], ColumnNamed(current[t].columns, c).value;
      DefaultDiffers(want, have) && want.default == None
    case SetNotNull(t, c) => IsKeptColumn(desired, current, t, c) &&
      var want, have := desired[t].columns[c], ColumnNamed(current[t].columns, c).value;
      !want.nullable && (TypeDiffers(want, have) || have.isNullable)
    case AddForeignKey(t, n, cols, u, refCols) =>
      && t in desired
      && (exists r ::
            && r in desired[t].relations && s == AddForeignKeyFor(t, r, desired[t].relations[r])
            && (t in current ==> !FkExists(current[t], desired[t].relations[r])))
    case AddUnique(t, n, c) =>
      && IsNew(desired, current, t) && c in desired[t].columns && n == UniqueName(t, c)
      && desired[t].columns[c].unique && !desired[t].columns[c].primaryKey
    case CreatePolicy(t, n, command) =>
      && t in desired && desired[t].access.Some? && HasRule(desired[t].access.value, command)
      && n == PolicyName(command, t)
    case DropIndex(i) =>
      exists t :: t in current && t !in desired && ListsIndex(current[t].indexes, i)
    case DropPolicy(t, n) =>
      t in desired && desired[t].access.Some? && exists command :: n == PolicyName(command, t)
    case DropConstraint(t, n) =>
      && t in current
      && (exists fk ::
            && fk in current[t].foreignKeys && fk.constraintName == n
            && (t in desired ==> !StillDesired(desired[t], fk)))
    case DropColumn(t, c) => IsKept(desired, current, t) && HasColumn(current[t], c) && c !in desired[t].columns
    case DropTable(t) => IsDropped(desired, current, t)
  }

  /** No statement of the list stands before one of an earlier bucket. */
  ghost predicate InBucketOrder(p: seq<Statement>) {
    forall i, j :: 0 <= i < j < |p| ==> StatementRank(p[i]) <= StatementRank(p[j])
  }

  ghost predicate NoDuplicates<T(!new)>(s: seq<T>) {
    forall i, j :: 0 <= i < j < |s| ==> s[i] != s[j]
  }

  /**
   * A list the planner may return: the planned statements once each, bucket by bucket, in any
   * order inside a bucket. The hash sets and hash maps it walks leave that order open.
   */
  ghost predicate IsPlan(desired: DesiredSchema, current: CurrentSchema, p: seq<Statement>) {
    && NoDuplicates(p)
    && (forall s :: s in p <==> Planned(desired, current, s))
    && InBucketOrder(p)
  }

  // ----- summary and verdict ----------------------------------------------------------------

  /** Kept columns whose type or nullability the plan changes. */
  ghost predicate ShapeChanges(desired: DesiredSchema, current: CurrentSchema, cell: Cell) {
    IsKeptColumn(desired, current, cell.table, cell.name) &&
    var want, have := desired[cell.table].columns[cell.name], ColumnNamed(current[cell.table].columns, cell.name).value;
    TypeDiffers(want, have) || want.nullable != have.isNullable
  }

  ghost predicate DefaultChanges(desired: DesiredSchema, current: CurrentSchema, cell: Cell) {
    IsKeptColumn(desired, current, cell.table, cell.name) &&
    DefaultDiffers(desired[cell.table].columns[cell.name], ColumnNamed(current[cell.table].columns, cell.name).value)
  }

  /** Some existing table or column is missing from the desired schema. */
  ghost predicate LosesData(desired: DesiredSchema, current: CurrentSchema) {
    exists t :: t in current && (t !in desired || exists c :: HasColumn(current[t], c) && c !in desired[t].columns)
  }
}
