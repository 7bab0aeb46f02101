/**
 * `build_insert` and `build_update` of `query/builder.rs`, and the parameters `insert_row` and
 * `update_row` of `api/routes.rs` pass with them: every column is given the text of its own value.
 */
module WriteBuilder {
  import opened Wrappers
  import opened Text
  import opened Schema
  import opened QueryFilter
  import opened SqlText
  import opened SelectBuilder
  import opened SelectReader

  // ----- the texts --------------------------------------------------------------------------

  function InsertText(table: string, columns: seq<string>): string {
    "INSERT INTO " + Quoted(table) + " (" + Join(Rendered(Quoted, columns), ", ") + ") VALUES ("
    + Join(Rendered(Placeholder, PlacesFrom(1, |columns|)), ", ") + ") RETURNING *"
  }

  datatype Assignment = Assignment(column: string, place: nat)

  function AssignmentText(a: Assignment): string {
    Quoted(a.column) + " = " + Placeholder(a.place)
  }

  function AssignmentsFor(columns: seq<string>): seq<Assignment> {
    seq(|columns|, i requires 0 <= i < |columns| => Assignment(columns[i], i + 1))
  }

  function UpdateText(table: string, columns: seq<string>, key: string): string {
    "UPDATE " + Quoted(table) + " SET " + Join(Rendered(AssignmentText, AssignmentsFor(columns)), ", ")
    + " WHERE " + Quoted(key) + "::text = " + Placeholder(|columns| + 1) + " RETURNING *"
  }

  predicate AllKnown(table: Table, columns: seq<string>) {
    forall i :: 0 <= i < |columns| ==> HasColumn(table, columns[i])
  }

  function FirstUnknownOf(table: Table, columns: seq<string>): (c: string)
    requires !AllKnown(table, columns)
    ensures exists i :: FirstUnknownAt(table, columns, i) && c == columns[i]
  {
    if !HasColumn(table, columns[0]) then
      assert FirstUnknownAt(table, columns, 0);
      columns[0]
    else
      assert columns == [columns[0]] + columns[1..];
      var c := FirstUnknownOf(table, columns[1..]);
      assert exists i :: FirstUnknownAt(table, columns, i) && c == columns[i] by {
        LaterUnknown(table, columns, c);
      }
      c
  }

  predicate FirstUnknownAt(table: Table, columns: seq<string>, i: int) {
    0 <= i < |columns| && !HasColumn(table, columns[i]) && forall j :: 0 <= j < i ==> HasColumn(table, columns[j])
  }

  lemma LaterUnknown(table: Table, columns: seq<string>, c: string)
    requires columns != [] && HasColumn(table, columns[0])
    requires exists i :: FirstUnknownAt(table, columns[1..], i) && c == columns[1..][i]
    ensures exists i :: FirstUnknownAt(table, columns, i) && c == columns[i]
  {
    hide HasColumn;
    var i :| FirstUnknownAt(table, columns[1..], i) && c == columns[1..][i];
    assert forall j :: 1 <= j < i + 1 ==> columns[j] == columns[1..][j - 1];
    assert FirstUnknownAt(table, columns, i + 1);
  }

  function BuildInsert(table: Table, columns: seq<string>): Result<string, QueryError> {
    if AllKnown(table, columns) then Ok(InsertText(table.name, columns))
    else Err(UnknownColumn(table.name, FirstUnknownOf(table, columns)))
  }

  /** The key is the first primary key column; the introspected key is never an empty list. */
  function BuildUpdate(table: Table, columns: seq<string>): Result<string, QueryError>
    requires table.primaryKey != Some([])
  {
    if table.primaryKey.None? then Err(UnknownColumn(table.name, "(primary key)"))
    else if AllKnown(table, columns) then Ok(UpdateText(table.name, columns, table.primaryKey.value[0]))
    else Err(UnknownColumn(table.name, FirstUnknownOf(table, columns)))
  }

  /** A write is refused for a column the table lacks, the first one, and an update of a table without a primary key. */
  lemma WriteErrors(table: Table, columns: seq<string>, c: string)
    requires table.primaryKey != Some([])
    ensures BuildInsert(table, columns).Ok? <==> forall i :: 0 <= i < |columns| ==> HasColumn(table, columns[i])
    ensures BuildInsert(table, columns) == Err(UnknownColumn(table.name, c)) ==>
      exists i :: 0 <= i < |columns| && columns[i] == c && !HasColumn(table, c)
                  && forall j :: 0 <= j < i ==> HasColumn(table, columns[j])
    ensures BuildInsert(table, columns).Err? ==> BuildInsert(table, columns).error.UnknownColumn?
    ensures BuildUpdate(table, columns) == if table.primaryKey.None? then Err(UnknownColumn(table.name, "(primary key)"))
      else if BuildInsert(table, columns).Err? then Err(BuildInsert(table, columns).error)
      else Ok(UpdateText(table.name, columns, table.primaryKey.value[0]))
  {
    hide HasColumn, InsertText, UpdateText;
    if !AllKnown(table, columns) {
      var name := FirstUnknownOf(table, columns);
      var i :| FirstUnknownAt(table, columns, i) && name == columns[i];
    }
  }

  // ----- readers ----------------------------------------------------------------------------

  datatype Insert = Insert(table: string, columns: seq<string>, places: seq<nat>)

  datatype Update = Update(table: string, assignments: seq<Assignment>, key: string, keyPlace: nat)

  function ReadInsert(s: string): Option<Insert> {
    match StripPrefix(s, "INSERT INTO ")
    case None => None
    case Some(target) =>
      match ReadName(target)
      case None => None
      case Some((table, afterTable)) =>
        match StripPrefix(afterTable, " (")
        case None => None
        case Some(names) =>
          match ReadList(ReadName, ", ", names)
          case None => None
          case Some((columns, afterNames)) => ReadValues(table, columns, afterNames)
  }

  function ReadValues(table: string, columns: seq<string>, s: string): Option<Insert> {
    match StripPrefix(s, ") VALUES (")
    case None => None
    case Some(list) =>
      match ReadList(ReadPlaceholder, ", ", list)
      case None => None
      case Some((places, rest)) => if rest == ") RETURNING *" then Some(Insert(table, columns, places)) else None
  }

  function ReadAssignment(s: string): Option<(Assignment, string)> {
    match ReadName(s)
    case None => None
    case Some((column, rest)) =>
      match StripPrefix(rest, " = ")
      case None => None
      case Some(value) =>
        match ReadPlaceholder(value)
        case Some((place, after)) => Some((Assignment(column, place), after))
        case None => None
  }

  function ReadUpdate(s: string): Option<Update> {
    match StripPrefix(s, "UPDATE ")
    case None => None
    case Some(target) =>
      match ReadName(target)
      case None => None
      case Some((table, afterTable)) =>
        match StripPrefix(afterTable, " SET ")
        case None => None
        case Some(list) =>
          match ReadList(ReadAssignment, ", ", list)
          case None => None
          case Some((assignments, rest)) => ReadKey(table, assignments, rest)
  }

  function ReadKey(table: string, assignments: seq<Assignment>, s: string): Option<Update> {
    match StripPrefix(s, " WHERE ")
    case None => None
    case Some(test) =>
      match ReadName(test)
      case None => None
      case Some((key, afterKey)) =>
        match StripPrefix(afterKey, "::text = ")
        case None => None
        case Some(value) =>
          match ReadPlaceholder(value)
          case Some((place, rest)) => if rest == " RETURNING *" then Some(Update(table, assignments, key, place)) else None
          case None => None
  }

  // ----- reading back -----------------------------------------------------------------------

  predicate AllPlain(names: seq<string>) {
    forall name :: name in names ==> Plain(name)
  }

  /** An insertion reads back exactly when it names a column. */
  lemma InsertReadsBack(table: string, columns: seq<string>)
    requires Plain(table) && AllPlain(columns)
    ensures ReadInsert(InsertText(table, columns))
         == if columns != [] then Some(Insert(table, columns, PlacesFrom(1, |columns|))) else None
  {
    var names, places := Join(Rendered(Quoted, columns), ", "), PlacesFrom(1, |columns|);
    var values := ") VALUES (" + (Join(Rendered(Placeholder, places), ", ") + ") RETURNING *");
    var list := names + values;
    NameReadsBack(table, " (" + list);
    StripAppended("INSERT INTO ", Quoted(table) + (" (" + list));
    StripAppended(" (", list);
    InsertPieces("INSERT INTO ", Quoted(table), " (", names, ") VALUES (",
                 Join(Rendered(Placeholder, places), ", "), ") RETURNING *");
    assert values[0] == ')';
    hide ReadName, ReadList, ReadValues, Quoted, Join, StripPrefix;
    if columns == [] {
      assert list == values by {
        NoNames(Quoted);
      }
      NameNeeded(values);
    } else {
      NamesReadBack(columns, values);
      ValuesReadBack(table, columns, places);
    }
  }

  lemma NoNames(render: string -> string)
    ensures Join(Rendered(render, []), ", ") == ""
  {}

  /** A list of names starts with a double quote. */
  lemma NameNeeded(s: string)
    requires s != "" && s[0] != '\"'
    ensures ReadList(ReadName, ", ", s).None?
  {}

  lemma ValuesReadBack(table: string, columns: seq<string>, places: seq<nat>)
    requires places != []
    ensures ReadValues(table, columns, ") VALUES (" + (Join(Rendered(Placeholder, places), ", ") + ") RETURNING *"))
         == Some(Insert(table, columns, places))
  {
    PlaceholdersReadBack(places, ") RETURNING *");
    StripAppended(") VALUES (", Join(Rendered(Placeholder, places), ", ") + ") RETURNING *");
    hide ReadList, Join, Rendered;
  }

  lemma InsertPieces(a: string, b: string, c: string, d: string, e: string, f: string, g: string)
    ensures a + b + c + d + e + f + g == a + (b + (c + (d + (e + (f + g)))))
  {}

  lemma AssignmentReadsBack(a: Assignment, rest: string)
    requires Plain(a.column) && NoDigitFirst(rest)
    ensures ReadAssignment(AssignmentText(a) + rest) == Some((a, rest))
  {
    hide ReadName, Quoted, ReadPlaceholder, Placeholder;
    var value := Placeholder(a.place) + rest;
    NameReadsBack(a.column, " = " + value);
    StripAppended(" = ", value);
    PlaceholderReadsBack(a.place, rest);
    assert AssignmentText(a) + rest == Quoted(a.column) + (" = " + value);
  }

  lemma AssignmentsReadBack(columns: seq<string>, rest: string)
    requires columns != [] && AllPlain(columns) && NoDigitFirst(rest) && !(", " <= rest)
    ensures var list := AssignmentsFor(columns);
      ReadList(ReadAssignment, ", ", Join(Rendered(AssignmentText, list), ", ") + rest) == Some((list, rest))
  {
    var list := AssignmentsFor(columns);
    forall i | 0 <= i < |list|
      ensures ReadsBack(ReadAssignment, AssignmentText, list[i], NoDigitFirst)
    {
      forall r | NoDigitFirst(r)
        ensures ReadAssignment(AssignmentText(list[i]) + r) == Some((list[i], r))
      {
        AssignmentReadsBack(list[i], r);
      }
    }
    ListReadsBack(ReadAssignment, AssignmentText, NoDigitFirst, list, ", ", rest);
  }

  lemma KeyReadsBack(table: string, assignments: seq<Assignment>, key: string, place: nat)
    requires Plain(key)
    ensures ReadKey(table, assignments, " WHERE " + (Quoted(key) + ("::text = " + (Placeholder(place) + " RETURNING *"))))
         == Some(Update(table, assignments, key, place))
  {
    hide ReadName, Quoted, ReadPlaceholder, Placeholder;
    var value := Placeholder(place) + " RETURNING *";
    StripAppended(" WHERE ", Quoted(key) + ("::text = " + value));
    NameReadsBack(key, "::text = " + value);
    StripAppended("::text = ", value);
    PlaceholderReadsBack(place, " RETURNING *");
  }

  /** An update reads back exactly when it assigns a column. */
  lemma UpdateReadsBack(table: string, columns: seq<string>, key: string)
    requires Plain(table) && AllPlain(columns) && Plain(key)
    ensures ReadUpdate(UpdateText(table, columns, key))
         == if columns != [] then Some(Update(table, AssignmentsFor(columns), key, |columns| + 1)) else None
  {
    var settings := Join(Rendered(AssignmentText, AssignmentsFor(columns)), ", ");
    var where := " WHERE " + (Quoted(key) + ("::text = " + (Placeholder(|columns| + 1) + " RETURNING *")));
    var list := settings + where;
    NameReadsBack(table, " SET " + list);
    StripAppended("UPDATE ", Quoted(table) + (" SET " + list));
    StripAppended(" SET ", list);
    UpdatePieces("UPDATE ", Quoted(table), " SET ", settings, " WHERE ", Quoted(key), "::text = ",
                 Placeholder(|columns| + 1), " RETURNING *");
    assert where[0] == ' ';
    if columns == [] {
      assert list == where;
      assert ReadName(where).None?;
    } else {
      AssignmentsReadBack(columns, where);
      KeyReadsBack(table, AssignmentsFor(columns), key, |columns| + 1);
      hide ReadName, ReadList, ReadKey, Quoted, Placeholder, Join, Rendered, StripPrefix;
    }
  }

  lemma UpdatePieces(a: string, b: string, c: string, d: string, e: string, f: string, g: string, h: string, i: string)
    ensures a + b + c + d + e + f + g + h + i == a + (b + (c + (d + (e + (f + (g + (h + i)))))))
  {}

  // ----- the values that go with them -------------------------------------------------------

  /** The columns of a JSON body, in the order its map is walked. */
  ghost predicate WalksBody(columns: seq<string>, body: map<string, JsonValue>) {
    && (forall c :: c in columns <==> c in body)
    && (forall i, j :: 0 <= i < j < |columns| ==> columns[i] != columns[j])
  }

  /** The parameter made of a value: a string as it is, anything else as its JSON text. */
  function TextOf(v: JsonValue): string {
    match v
    case JsonString(s) => s
    case JsonBool(b) => if b then "true" else "false"
    case JsonNumber(lexeme) => lexeme
    case JsonNull => "null"
    case JsonNested(text) => text
  }

  /** The texts of the values, one kind at a time. */
  lemma TextsOfValues(text: string)
    ensures TextOf(JsonString(text)) == text && TextOf(JsonNumber(text)) == text && TextOf(JsonNested(text)) == text
    ensures TextOf(JsonBool(true)) == "true" && TextOf(JsonBool(false)) == "false" && TextOf(JsonNull) == "null"
  {}

  /** What a body asks a column to be: NULL for null, otherwise a text. */
  function Asked(v: JsonValue): Option<string> {
    if v.JsonNull? then None else Some(TextOf(v))
  }

  function ValuesAlong(columns: seq<string>, body: map<string, JsonValue>): seq<string>
    requires forall c :: c in columns ==> c in body
  {
    seq(|columns|, i requires 0 <= i < |columns| => TextOf(body[columns[i]]))
  }

  /** The parameter at the placeholder of a column. */
  ghost predicate Gives(columns: seq<string>, places: seq<nat>, params: seq<string>, column: string, value: string) {
    exists i ::
      && 0 <= i < |columns| && i < |places| && columns[i] == column
      && 1 <= places[i] <= |params| && params[places[i] - 1] == value
  }

  function PlacesOf(assignments: seq<Assignment>): seq<nat> {
    seq(|assignments|, i requires 0 <= i < |assignments| => assignments[i].place)
  }

  function ColumnsOf(assignments: seq<Assignment>): seq<string> {
    seq(|assignments|, i requires 0 <= i < |assignments| => assignments[i].column)
  }

  lemma Aligned(columns: seq<string>, body: map<string, JsonValue>, params: seq<string>)
    requires WalksBody(columns, body) && ValuesAlong(columns, body) <= params
    ensures forall c, v :: Gives(columns, PlacesFrom(1, |columns|), params, c, v) <==> c in body && TextOf(body[c]) == v
  {
    var places := PlacesFrom(1, |columns|);
    forall c, v
      ensures Gives(columns, places, params, c, v) <==> c in body && TextOf(body[c]) == v
    {
      hide TextOf;
      if c in body {
        var i :| 0 <= i < |columns| && columns[i] == c;
        assert places[i] == i + 1 && params[i] == ValuesAlong(columns, body)[i];
      }
    }
  }

  /**
   * For every body and every order in which its map is walked, the insertion gives each column of the
   * body the text of its own value, and nothing else, which is what the body asks for exactly where
   * the value is not null; a body without columns makes no statement.
   */
  lemma InsertMeansBody(table: Table, columns: seq<string>, body: map<string, JsonValue>)
    requires WalksBody(columns, body) && AllKnown(table, columns) && Plain(table.name) && AllPlain(columns)
    ensures var read := ReadInsert(BuildInsert(table, columns).value);
      && (read.Some? <==> body != map[])
      && (read.Some? ==>
           && read.value.table == table.name
           && (forall c, v :: Gives(read.value.columns, read.value.places, ValuesAlong(columns, body), c, v)
                <==> c in body && TextOf(body[c]) == v)
           && (forall c, v :: Gives(read.value.columns, read.value.places, ValuesAlong(columns, body), c, v) ==>
                (Asked(body[c]) == Some(v) <==> body[c] != JsonNull)))
  {
    hide ReadInsert, InsertText, Gives;
    InsertReadsBack(table.name, columns);
    Aligned(columns, body, ValuesAlong(columns, body));
    NoColumns(columns, body);
  }

  /** Two bodies with the same columns are written alike exactly if every column has the same text in both. */
  lemma WrittenAlikeIff(columns: seq<string>, a: map<string, JsonValue>, b: map<string, JsonValue>)
    requires WalksBody(columns, a) && WalksBody(columns, b)
    ensures ValuesAlong(columns, a) == ValuesAlong(columns, b) <==> forall c :: c in a ==> TextOf(a[c]) == TextOf(b[c])
  {
    hide TextOf;
    var valuesA, valuesB := ValuesAlong(columns, a), ValuesAlong(columns, b);
    if valuesA == valuesB {
      forall c | c in a
        ensures TextOf(a[c]) == TextOf(b[c])
      {
        var i :| 0 <= i < |columns| && columns[i] == c;
        assert valuesA[i] == valuesB[i];
      }
    }
  }

  /** So no body can make a column NULL: null in any of its columns is written as the string `null` is. */
  lemma NullIsWrittenAsText(columns: seq<string>, body: map<string, JsonValue>, c: string)
    requires WalksBody(columns, body) && c in body
    ensures ValuesAlong(columns, body[c := JsonNull]) == ValuesAlong(columns, body[c := JsonString("null")])
  {
    WrittenAlikeIff(columns, body[c := JsonNull], body[c := JsonString("null")]);
  }

  lemma NoColumns(columns: seq<string>, body: map<string, JsonValue>)
    requires WalksBody(columns, body)
    ensures columns == [] <==> body == map[]
  {
    SomeElement(columns);
    if body != map[] {
      assert body.Keys != {};
      var c :| c in body;
    }
  }

  /**
   * The update assigns each column of the body the text of its own value, under the same proviso, and
   * the row it names is the one whose key is the id, which `update_row` appends behind the values.
   */
  lemma UpdateMeansBody(table: Table, columns: seq<string>, body: map<string, JsonValue>, id: string)
    requires table.primaryKey.Some? && table.primaryKey.value != [] && Plain(table.primaryKey.value[0])
    requires WalksBody(columns, body) && AllKnown(table, columns) && Plain(table.name) && AllPlain(columns)
    ensures var read, params := ReadUpdate(BuildUpdate(table, columns).value), ValuesAlong(columns, body) + [id];
      && (read.Some? <==> body != map[])
      && (read.Some? ==>
           && read.value.table == table.name && read.value.key == table.primaryKey.value[0]
           && 1 <= read.value.keyPlace <= |params| && params[read.value.keyPlace - 1] == id
           && (forall c, v :: Gives(ColumnsOf(read.value.assignments), PlacesOf(read.value.assignments), params, c, v)
                <==> c in body && TextOf(body[c]) == v)
           && (forall c, v :: Gives(ColumnsOf(read.value.assignments), PlacesOf(read.value.assignments), params, c, v) ==>
                (Asked(body[c]) == Some(v) <==> body[c] != JsonNull)))
  {
    hide ReadUpdate, UpdateText, Gives;
    var assignments := AssignmentsFor(columns);
    UpdateReadsBack(table.name, columns, table.primaryKey.value[0]);
    Aligned(columns, body, ValuesAlong(columns, body) + [id]);
    NoColumns(columns, body);
    assert ColumnsOf(assignments) == columns && PlacesOf(assignments) == PlacesFrom(1, |columns|);
  }
}
