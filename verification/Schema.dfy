/**
 * The two schemas the planner compares: the desired one, read from the project's JSON file
 * (`schema/json_schema.rs`), and the current one, read from PostgreSQL (`schema/types.rs`).
 */
module Schema {
  import opened Wrappers
  import opened Normalize

  // ----- desired schema ---------------------------------------------------------------------

  datatype DesiredColumn = DesiredColumn(
    colType: string, primaryKey: bool, unique: bool, nullable: bool, default: Option<string>)

  datatype Relation = Relation(relType: string, table: string, foreignKey: string)

  /** A JSON value; numbers, arrays and objects are known by the text they print as. */
  datatype JsonValue =
    | JsonBool(b: bool) | JsonNumber(lexeme: string) | JsonString(s: string) | JsonNull | JsonNested(text: string)

  /** `AccessCondition`, one constructor for each `type` the engine distinguishes. */
  datatype AccessCondition =
    | IsOwner(column: Option<string>)
    | IsAuthenticated
    | Where(filters: Option<map<string, JsonValue>>)
    | UnknownCondition(conditionType: string)

  datatype AccessRule = Public(name: string) | Conditions(conditions: seq<AccessCondition>)

  datatype Access = Access(read: Option<AccessRule>, write: Option<AccessRule>, delete: Option<AccessRule>)

  datatype DesiredTable = DesiredTable(
    columns: map<string, DesiredColumn>, relations: map<string, Relation>, access: Option<Access>)

  type DesiredSchema = map<string, DesiredTable>

  // ----- introspected schema ----------------------------------------------------------------

  datatype Column = Column(name: string, dataType: PgType, isNullable: bool, defaultValue: Option<string>)

  datatype ForeignKey = ForeignKey(
    constraintName: string, columns: seq<string>, referencedTable: string, referencedColumns: seq<string>)

  datatype Index = Index(name: string, columns: seq<string>, isUnique: bool)

  datatype Table = Table(
    name: string, columns: seq<Column>, primaryKey: Option<seq<string>>,
    foreignKeys: seq<ForeignKey>, indexes: seq<Index>)

  type CurrentSchema = map<string, Table>

  /** `Table::column`: the first column of that name. */
  function ColumnNamed(columns: seq<Column>, name: string): (r: Option<Column>)
    ensures r.Some? ==> r.value in columns && r.value.name == name
    ensures r.None? ==> forall c :: c in columns ==> c.name != name
  {
    if columns == [] then None
    else if columns[0].name == name then Some(columns[0])
    else ColumnNamed(columns[1..], name)
  }

  predicate HasColumn(table: Table, column: string) {
    ColumnNamed(table.columns, column).Some?
  }

  predicate ListsIndex(indexes: seq<Index>, name: string) {
    exists idx :: idx in indexes && idx.name == name
  }
}
