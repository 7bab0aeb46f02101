/**
 * The statements the planner emits (`diff/sql_gen.rs`, `schema/rls.rs`) and their effect on a
 * PostgreSQL catalogue: when each one is accepted, and what it changes.
 */
module Catalogue {
  import opened Wrappers
  import opened Normalize
  import opened Schema

  datatype ColumnDef = ColumnDef(sqlType: string, nullable: bool, default: Option<string>)

  datatype Command = ForSelect | ForInsert | ForUpdate | ForDelete

  datatype Statement =
    | CreateTable(table: string, columns: map<string, ColumnDef>, primaryKey: set<string>)
    | EnableRls(table: string)
    | ForceRls(table: string)
    | AddColumn(table: string, column: string, def: ColumnDef)
    | DropNotNull(table: string, column: string)
    | AlterColumnType(table: string, column: string, sqlType: string)
    | SetDefault(table: string, column: string, expr: string)
    | DropDefault(table: string, column: string)
    | SetNotNull(table: string, column: string)
    | AddForeignKey(table: string, constraint: string, cols: seq<string>, refTable: string, refColumns: seq<string>)
    | AddUnique(table: string, constraint: string, column: string)
    | CreatePolicy(table: string, policy: string, command: Command)
    | DropIndex(index: string)
    | DropPolicy(table: string, policy: string)
    | DropConstraint(table: string, constraint: string)
    | DropColumn(table: string, column: string)
    | DropTable(table: string)

  /** A named object inside a table: a column, a constraint or a policy. */
  datatype Cell = Cell(table: string, name: string)

  datatype CatColumn = CatColumn(sqlType: string, nullable: bool, default: Option<string>)

  datatype Constraint =
    | References(columns: seq<string>, refTable: string, refColumns: seq<string>)
    | Unique(columns: seq<string>)

  /**
   * How PostgreSQL reports what was declared: the name of a column's type, `udt_name`, and the default
   * of a column of a type, `column_default`, which it prints anew from the parsed expression.
   */
  datatype Rendering = Rendering(udtOf: string -> string, defaultOf: (string, Option<string>) -> Option<string>)

  datatype CatIndex = CatIndex(table: string, columns: seq<string>)

  /**
   * `keys` holds the primary keys. `indexes` holds the indexes that belong to no constraint; a
   * UNIQUE constraint has its own index, under the constraint's name.
   */
  datatype Catalogue = Catalogue(
    tables: set<string>,
    columns: map<Cell, CatColumn>,
    keys: map<string, set<string>>,
    constraints: map<Cell, Constraint>,
    indexes: map<string, CatIndex>,
    policies: set<Cell>,
    rlsEnabled: set<string>,
    rlsForced: set<string>,
    shown: Rendering)

  function Elements<T>(s: seq<T>): set<T> {
    set x | x in s
  }

  predicate HasKey(cat: Catalogue, t: string, columns: seq<string>) {
    || (t in cat.keys && cat.keys[t] == Elements(columns))
    || exists cell :: cell in cat.constraints && UniqueOver(cat, cell, t, columns)
  }

  predicate UniqueOver(cat: Catalogue, cell: Cell, t: string, columns: seq<string>)
    requires cell in cat.constraints
  {
    cell.table == t && cat.constraints[cell].Unique? && Elements(cat.constraints[cell].columns) == Elements(columns)
  }

  predicate InKey(cat: Catalogue, t: string, c: string) {
    t in cat.keys && c in cat.keys[t]
  }

  predicate RefersTo(con: Constraint, t: string) {
    con.References? && con.refTable == t
  }

  /** PostgreSQL accepts the statement. */
  predicate Accepts(cat: Catalogue, s: Statement) {
    match s
    case CreateTable(t, columns, pk) => t !in cat.tables && pk <= columns.Keys
    case EnableRls(t) => t in cat.tables
    case ForceRls(t) => t in cat.tables
    case AddColumn(t, c, _) => t in cat.tables && Cell(t, c) !in cat.columns
    case DropNotNull(t, c) => Cell(t, c) in cat.columns && !InKey(cat, t, c)
    case AlterColumnType(t, c, _) => Cell(t, c) in cat.columns
    case SetDefault(t, c, _) => Cell(t, c) in cat.columns
    case DropDefault(t, c) => Cell(t, c) in cat.columns
    case SetNotNull(t, c) => Cell(t, c) in cat.columns
    case AddForeignKey(t, n, cols, u, refCols) =>
      && t in cat.tables && Cell(t, n) !in cat.constraints
      && (forall c :: c in cols ==> Cell(t, c) in cat.columns)
      && (forall c :: c in refCols ==> Cell(u, c) in cat.columns)
      && HasKey(cat, u, refCols)
    case AddUnique(t, n, c) => Cell(t, n) !in cat.constraints && n !in cat.indexes && Cell(t, c) in cat.columns
    case CreatePolicy(t, n, _) => t in cat.tables && Cell(t, n) !in cat.policies
    case DropIndex(i) => i in cat.indexes
    case DropPolicy(t, n) => true
    case DropConstraint(t, n) => Cell(t, n) in cat.constraints && cat.constraints[Cell(t, n)].References?
    case DropColumn(t, c) =>
      && Cell(t, c) in cat.columns
      && forall cell :: cell in cat.constraints && RefersTo(cat.constraints[cell], t) ==>
           c !in cat.constraints[cell].refColumns
    case DropTable(t) =>
      && t in cat.tables
      && forall cell :: cell in cat.constraints && RefersTo(cat.constraints[cell], t) ==> cell.table == t
  }

  /** The catalogue after an accepted statement, one component at a time. */
  function Apply(cat: Catalogue, s: Statement): Catalogue
    requires Accepts(cat, s)
  {
    Catalogue(TablesAfter(cat, s), ColumnsAfter(cat, s), KeysAfter(cat, s), ConstraintsAfter(cat, s),
              IndexesAfter(cat, s), PoliciesAfter(cat, s), RlsEnabledAfter(cat, s), RlsForcedAfter(cat, s), cat.shown)
  }

  function TablesAfter(cat: Catalogue, s: Statement): set<string> {
    match s
    case CreateTable(t, _, _) => cat.tables + {t}
    case DropTable(t) => cat.tables - {t}
    case _ => cat.tables
  }

  function ColumnsAfter(cat: Catalogue, s: Statement): map<Cell, CatColumn>
    requires Accepts(cat, s)
  {
    var m := cat.columns;
    match s
    case CreateTable(t, columns, pk) =>
      m + NewColumns(t, columns, pk)
    case AddColumn(t, c, def) => m[Cell(t, c) := Created(def, false)]
    case DropNotNull(t, c) => m[Cell(t, c) := m[Cell(t, c)].(nullable := true)]
    case AlterColumnType(t, c, ty) => m[Cell(t, c) := m[Cell(t, c)].(sqlType := ty)]
    case SetDefault(t, c, e) => m[Cell(t, c) := m[Cell(t, c)].(default := Some(e))]
    case DropDefault(t, c) => m[Cell(t, c) := m[Cell(t, c)].(default := None)]
    case SetNotNull(t, c) => m[Cell(t, c) := m[Cell(t, c)].(nullable := false)]
    case DropColumn(t, c) => m - {Cell(t, c)}
    case DropTable(t) => map cell | cell in m && cell.table != t :: m[cell]
    case _ => m
  }

  function NewColumns(t: string, columns: map<string, ColumnDef>, pk: set<string>): (r: map<Cell, CatColumn>)
    ensures forall cell :: cell in r <==> cell.table == t && cell.name in columns
    ensures forall cell :: cell in r ==> r[cell] == Created(columns[cell.name], cell.name in pk)
  {
    var cells := set c | c in columns :: Cell(t, c);
    assert forall cell: Cell :: cell.table == t && cell.name in columns ==> Cell(t, cell.name) in cells;
    map cell | cell in cells :: Created(columns[cell.name], cell.name in pk)
  }

  /** Dropping a column takes along the primary key, the constraints and the indexes that use it. */
  function KeysAfter(cat: Catalogue, s: Statement): map<string, set<string>> {
    match s
    case CreateTable(t, _, pk) => if pk == {} then cat.keys else cat.keys[t := pk]
    case DropColumn(t, c) => if InKey(cat, t, c) then cat.keys - {t} else cat.keys
    case DropTable(t) => cat.keys - {t}
    case _ => cat.keys
  }

  function ConstraintsAfter(cat: Catalogue, s: Statement): map<Cell, Constraint> {
    var m := cat.constraints;
    match s
    case AddForeignKey(t, n, cols, u, refCols) => m[Cell(t, n) := References(cols, u, refCols)]
    case AddUnique(t, n, c) => m[Cell(t, n) := Unique([c])]
    case DropConstraint(t, n) => m - {Cell(t, n)}
    case DropColumn(t, c) => map cell | cell in m && !(cell.table == t && c in m[cell].columns) :: m[cell]
    case DropTable(t) => map cell | cell in m && cell.table != t :: m[cell]
    case _ => m
  }

  function IndexesAfter(cat: Catalogue, s: Statement): map<string, CatIndex> {
    var m := cat.indexes;
    match s
    case DropIndex(i) => m - {i}
    case DropColumn(t, c) => map i | i in m && !(m[i].table == t && c in m[i].columns) :: m[i]
    case DropTable(t) => map i | i in m && m[i].table != t :: m[i]
    case _ => m
  }

  function PoliciesAfter(cat: Catalogue, s: Statement): set<Cell> {
    match s
    case CreatePolicy(t, n, _) => cat.policies + {Cell(t, n)}
    case DropPolicy(t, n) => cat.policies - {Cell(t, n)}
    case DropTable(t) => set cell | cell in cat.policies && cell.table != t
    case _ => cat.policies
  }

  function RlsEnabledAfter(cat: Catalogue, s: Statement): set<string> {
    match s
    case EnableRls(t) => cat.rlsEnabled + {t}
    case DropTable(t) => cat.rlsEnabled - {t}
    case _ => cat.rlsEnabled
  }

  function RlsForcedAfter(cat: Catalogue, s: Statement): set<string> {
    match s
    case ForceRls(t) => cat.rlsForced + {t}
    case DropTable(t) => cat.rlsForced - {t}
    case _ => cat.rlsForced
  }

  /** A primary-key column is NOT NULL whatever its definition says. */
  function Created(def: ColumnDef, inKey: bool): CatColumn {
    CatColumn(def.sqlType, def.nullable && !inKey, def.default)
  }

  /** Executing statements in order; `None` when one of them is refused. */
  function Run(cat: Catalogue, statements: seq<Statement>): Option<Catalogue>
    decreases |statements|
  {
    if statements == [] then Some(cat)
    else if Accepts(cat, statements[0]) then Run(Apply(cat, statements[0]), statements[1..])
    else None
  }

  /** Columns and constraints belong to tables of the catalogue. */
  ghost predicate Anchored(cat: Catalogue) {
    && (forall cell :: cell in cat.columns ==> cell.table in cat.tables)
    && (forall cell :: cell in cat.constraints ==> cell.table in cat.tables)
  }

  /** What every catalogue satisfies, plus single-column foreign keys onto `id`. */
  ghost predicate WellFormed(cat: Catalogue) {
    && Anchored(cat)
    && (forall cell :: cell in cat.policies ==> cell.table in cat.tables)
    && (forall i :: i in cat.indexes ==> cat.indexes[i].table in cat.tables)
    && cat.keys.Keys <= cat.tables && cat.rlsEnabled <= cat.tables && cat.rlsForced <= cat.tables
    && (forall t, c :: t in cat.tables && InKey(cat, t, c) ==>
          Cell(t, c) in cat.columns && !cat.columns[Cell(t, c)].nullable)
    && (forall cell :: cell in cat.constraints && cat.constraints[cell].References? ==>
          SingleColumn(cat, cell.table, cat.constraints[cell]))
    && (forall cell :: cell in cat.constraints && cat.constraints[cell].Unique? ==> cell.name !in cat.indexes)
  }

  predicate SingleColumn(cat: Catalogue, t: string, con: Constraint)
    requires con.References?
  {
    |con.columns| == 1 && Cell(t, con.columns[0]) in cat.columns && con.refColumns == ["id"]
  }

  // ----- introspection ----------------------------------------------------------------------

  predicate Reports(col: Column, cat: Catalogue, cell: Cell)
    requires cell in cat.columns
  {
    var have := cat.columns[cell];
    && col.dataType == FromPg(cat.shown.udtOf(have.sqlType))
    && col.isNullable == have.nullable
    && col.defaultValue == cat.shown.defaultOf(have.sqlType, have.default)
  }

  /** `current` is a reading of the catalogue, with its lists in any order. */
  ghost predicate Describes(current: CurrentSchema, cat: Catalogue) {
    && current.Keys == cat.tables
    && DescribesColumns(current, cat)
    && DescribesForeignKeys(current, cat)
    && DescribesIndexes(current, cat)
  }

  ghost predicate DescribesColumns(current: CurrentSchema, cat: Catalogue) {
    forall t, c :: t in current ==>
      var found := ColumnNamed(current[t].columns, c);
      && (found.Some? <==> Cell(t, c) in cat.columns)
      && (found.Some? ==> Reports(found.value, cat, Cell(t, c)))
  }

  ghost predicate DescribesForeignKeys(current: CurrentSchema, cat: Catalogue) {
    && (forall t, fk :: t in current && fk in current[t].foreignKeys ==>
          && Cell(t, fk.constraintName) in cat.constraints
          && cat.constraints[Cell(t, fk.constraintName)] ==
               References(fk.columns, fk.referencedTable, fk.referencedColumns))
    && (forall cell :: cell in cat.constraints && cell.table in current && cat.constraints[cell].References? ==>
          AsForeignKey(cell, cat.constraints[cell]) in current[cell.table].foreignKeys)
  }

  function AsForeignKey(cell: Cell, con: Constraint): ForeignKey
    requires con.References?
  {
    ForeignKey(cell.name, con.columns, con.refTable, con.refColumns)
  }

  ghost predicate DescribesIndexes(current: CurrentSchema, cat: Catalogue) {
    forall t, i :: t in current ==>
      (ListsIndex(current[t].indexes, i) <==>
        (i in cat.indexes && cat.indexes[i].table == t) ||
        (Cell(t, i) in cat.constraints && cat.constraints[Cell(t, i)].Unique?))
  }

  /** No list of the reading names the same thing twice. */
  ghost predicate DistinctNames(current: CurrentSchema) {
    && (forall t, i, j :: t in current && 0 <= i < j < |current[t].foreignKeys| ==>
          current[t].foreignKeys[i].constraintName != current[t].foreignKeys[j].constraintName)
    && (forall t, i, j :: t in current && 0 <= i < j < |current[t].indexes| ==>
          current[t].indexes[i].name != current[t].indexes[j].name)
    && (forall t, u, i :: t in current && u in current && t != u && ListsIndex(current[t].indexes, i) ==>
          !ListsIndex(current[u].indexes, i))
  }
}
