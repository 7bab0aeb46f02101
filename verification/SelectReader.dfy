/** A reader of the SELECT statements that `build_select` writes, and when it gives them back. */
module SelectReader {
  import opened Wrappers
  import opened Text
  import opened Decimal
  import opened QueryFilter
  import opened SqlText
  import opened SelectBuilder

  // ----- conditions and sort keys -----------------------------------------------------------

  function ReadWordAs<T>(s: string, word: string, meaning: T): Option<(T, string)> {
    match StripPrefix(s, word)
    case Some(rest) => Some((meaning, rest))
    case None => None
  }

  function ReadTest(s: string): Option<(Test, string)> {
    if s == "" then None
    else if s[0] == 'N' then ReadWordAs(s, "NULL", Null)
    else if s[0] == 'T' then ReadWordAs(s, "TRUE", True)
    else ReadWordAs(s, "FALSE", False)
  }

  /** A comparison operator and the space behind it. */
  function ReadOperator(s: string): Option<(Operator, string)> {
    if s == "" then None
    else if s[0] == '=' then ReadWordAs(s, "= ", Eq)
    else if s[0] == '!' then ReadWordAs(s, "!= ", Neq)
    else if s[0] == 'L' then ReadWordAs(s, "LIKE ", Like)
    else if s[0] == 'I' then ReadWordAs(s, "ILIKE ", Ilike)
    else if s[0] == '>' then
      if |s| > 1 && s[1] == '=' then ReadWordAs(s, ">= ", Gte) else ReadWordAs(s, "> ", Gt)
    else
      if |s| > 1 && s[1] == '=' then ReadWordAs(s, "<= ", Lte) else ReadWordAs(s, "< ", Lt)
  }

  function ReadCondition(s: string): Option<(Condition, string)> {
    match ReadName(s)
    case None => None
    case Some((column, rest)) => ReadPredicate(column, rest)
  }

  /** What a condition says of its column. */
  function ReadPredicate(column: string, s: string): Option<(Condition, string)> {
    match StripPrefix(s, " IS ")
    case Some(tested) =>
      (match ReadTest(tested)
       case Some((t, after)) => Some((Tests(column, t), after))
       case None => None)
    case None =>
      match StripPrefix(s, "::text IN (")
      case Some(list) => ReadMembers(column, list)
      case None =>
        match StripPrefix(s, "::text ")
        case Some(compared) => ReadComparison(column, compared)
        case None => None
  }

  function ReadMembers(column: string, s: string): Option<(Condition, string)> {
    match ReadList(ReadPlaceholder, ", ", s)
    case Some((places, rest)) => if ")" <= rest then Some((OneOf(column, places), rest[1..])) else None
    case None => None
  }

  function ReadComparison(column: string, s: string): Option<(Condition, string)> {
    match ReadOperator(s)
    case None => None
    case Some((op, rest)) =>
      match ReadPlaceholder(rest)
      case Some((place, after)) => Some((Compares(column, op, place), after))
      case None => None
  }

  function ReadSort(s: string): Option<(Sort, string)> {
    match ReadName(s)
    case None => None
    case Some((column, rest)) =>
      match StripPrefix(rest, " ASC")
      case Some(after) => Some((Sort(column, Asc), after))
      case None => ReadWordAs(rest, " DESC", Sort(column, Desc))
  }

  // ----- the clauses ------------------------------------------------------------------------

  function ReadColumns(s: string): Option<(Option<seq<string>>, string)> {
    match StripPrefix(s, "*")
    case Some(rest) => Some((None, rest))
    case None =>
      if " " <= s then Some((Some([]), s))
      else
        match ReadList(ReadName, ", ", s)
        case Some((names, rest)) => Some((Some(names), rest))
        case None => None
  }

  /** A clause of one keyword and a list; no keyword, no items. */
  function ReadClause<T>(keyword: string, read: Reader<T>, sep: string, s: string): Option<(seq<T>, string)> {
    match StripPrefix(s, keyword)
    case None => Some(([], s))
    case Some(list) => ReadList(read, sep, list)
  }

  /** A clause of one keyword and a count. PostgreSQL takes no negative count. */
  function ReadCount(keyword: string, s: string): Option<(Option<int>, string)> {
    match StripPrefix(s, keyword)
    case None => Some((None, s))
    case Some(numeral) =>
      match Scan(numeral)
      case Some((n, rest)) => Some((Some(n), rest))
      case None => None
  }

  function ReadSelect(s: string): Option<Select> {
    match StripPrefix(s, "SELECT ")
    case None => None
    case Some(body) =>
      match ReadColumns(body)
      case None => None
      case Some((columns, afterColumns)) =>
        match StripPrefix(afterColumns, " FROM ")
        case None => None
        case Some(source) =>
          match ReadName(source)
          case None => None
          case Some((table, afterTable)) => ReadRest(columns, table, afterTable)
  }

  function ReadRest(columns: Option<seq<string>>, table: string, s: string): Option<Select> {
    match ReadClause(" WHERE ", ReadCondition, " AND ", s)
    case None => None
    case Some((conditions, afterWhere)) =>
      match ReadClause(" ORDER BY ", ReadSort, ", ", afterWhere)
      case None => None
      case Some((order, afterOrder)) => ReadCounts(columns, table, conditions, order, afterOrder)
  }

  function ReadCounts(
      columns: Option<seq<string>>, table: string, conditions: seq<Condition>, order: seq<Sort>, s: string): Option<Select>
  {
    match ReadCount(" LIMIT ", s)
    case None => None
    case Some((limit, afterLimit)) =>
      match ReadCount(" OFFSET ", afterLimit)
      case Some((offset, "")) => Some(Select(columns, table, conditions, order, limit, offset))
      case _ => None
  }

  // ----- what is read back ------------------------------------------------------------------

  predicate Plain(name: string) {
    '\"' !in name
  }

  predicate PlainCondition(c: Condition) {
    match c
    case Tests(column, _) => Plain(column)
    case OneOf(column, places) => Plain(column) && places != []
    case Compares(column, op, _) => Plain(column) && !op.Is? && !op.In?
  }

  predicate PlainSelect(s: Select) {
    && (s.columns.Some? ==> forall i :: 0 <= i < |s.columns.value| ==> Plain(s.columns.value[i]))
    && Plain(s.table)
    && (forall i :: 0 <= i < |s.conditions| ==> PlainCondition(s.conditions[i]))
    && (forall i :: 0 <= i < |s.order| ==> Plain(s.order[i].column))
  }

  predicate NonNegative(n: Option<int>) {
    n.Some? ==> n.value >= 0
  }

  lemma TestReadsBack(t: Test, rest: string)
    ensures ReadTest(TestWord(t) + rest) == Some((t, rest))
  {
    StripAppended(TestWord(t), rest);
  }

  lemma OperatorReadsBack(op: Operator, rest: string)
    requires !op.Is? && !op.In?
    ensures ReadOperator(ToSql(op) + " " + rest) == Some((op, rest))
  {
    StripAppended(ToSql(op) + " ", rest);
    assert ToSql(op) + " " + rest == (ToSql(op) + " ") + rest;
  }

  lemma ConditionReadsBack(c: Condition, rest: string)
    requires PlainCondition(c) && NoDigitFirst(rest)
    ensures ReadCondition(ConditionText(c) + rest) == Some((c, rest))
  {
    hide ReadPredicate, ReadName, Quoted, TestWord, ToSql, Placeholder, Join, Rendered, NoDigitFirst;
    NameReadsBack(c.column, PredicateText(c) + rest);
    assert ConditionText(c) + rest == Quoted(c.column) + (PredicateText(c) + rest) by {
      TextSplit(c, rest);
    }
    match c
    case Tests(column, t) => TestedReadsBack(column, t, rest);
    case OneOf(column, places) => OneOfReadsBack(column, places, rest);
    case Compares(column, op, place) => ComparedReadsBack(column, op, place, rest);
  }

  function PredicateText(c: Condition): string {
    match c
    case Tests(_, t) => " IS " + TestWord(t)
    case OneOf(_, places) => "::text IN (" + (Join(Rendered(Placeholder, places), ", ") + ")")
    case Compares(_, op, place) => "::text " + (ToSql(op) + " " + Placeholder(place))
  }

  lemma TextSplit(c: Condition, rest: string)
    ensures ConditionText(c) + rest == Quoted(c.column) + (PredicateText(c) + rest)
  {
    hide Quoted, TestWord, ToSql, Placeholder, Join, Rendered;
  }

  lemma TestedReadsBack(column: string, t: Test, rest: string)
    ensures ReadPredicate(column, PredicateText(Tests(column, t)) + rest) == Some((Tests(column, t), rest))
  {
    hide ReadTest, TestWord;
    StripAppended(" IS ", TestWord(t) + rest);
    TestReadsBack(t, rest);
    assert PredicateText(Tests(column, t)) + rest == " IS " + (TestWord(t) + rest);
  }

  lemma OneOfReadsBack(column: string, places: seq<nat>, rest: string)
    requires places != []
    ensures ReadPredicate(column, PredicateText(OneOf(column, places)) + rest) == Some((OneOf(column, places), rest))
  {
    hide ReadTest, ReadMembers, ReadComparison, Join, Rendered;
    var list := Join(Rendered(Placeholder, places), ", ");
    var tail := list + ")" + rest;
    var text := PredicateText(OneOf(column, places)) + rest;
    MembersReadBack(column, places, rest);
    StripAppended("::text IN (", tail);
    assert text == "::text IN (" + tail;
    assert text[0] == ':' && " IS "[0] == ' ';
  }

  lemma ComparedReadsBack(column: string, op: Operator, place: nat, rest: string)
    requires !op.Is? && !op.In? && NoDigitFirst(rest)
    ensures ReadPredicate(column, PredicateText(Compares(column, op, place)) + rest) == Some((Compares(column, op, place), rest))
  {
    hide ReadTest, ReadMembers, ReadComparison, ToSql, Placeholder;
    var tail := ToSql(op) + " " + (Placeholder(place) + rest);
    var text := PredicateText(Compares(column, op, place)) + rest;
    ComparisonReadsBack(column, op, place, rest);
    StripAppended("::text ", tail);
    NotMembership(op, Placeholder(place) + rest);
    ComparedPieces("::text ", ToSql(op), " ", Placeholder(place), rest);
    hide StripPrefix;
  }

  lemma ComparedPieces(a: string, b: string, c: string, d: string, e: string)
    ensures a + (b + c + d) + e == a + (b + c + (d + e))
  {}

  lemma MembersReadBack(column: string, places: seq<nat>, rest: string)
    requires places != []
    ensures ReadMembers(column, Join(Rendered(Placeholder, places), ", ") + ")" + rest) == Some((OneOf(column, places), rest))
  {
    PlaceholdersReadBack(places, ")" + rest);
    hide Join, Rendered, ReadList;
    assert Join(Rendered(Placeholder, places), ", ") + ")" + rest == Join(Rendered(Placeholder, places), ", ") + (")" + rest);
    assert (")" + rest)[1..] == rest;
  }

  lemma ComparisonReadsBack(column: string, op: Operator, place: nat, rest: string)
    requires !op.Is? && !op.In? && NoDigitFirst(rest)
    ensures ReadComparison(column, ToSql(op) + " " + (Placeholder(place) + rest)) == Some((Compares(column, op, place), rest))
  {
    hide ReadOperator, ReadPlaceholder, Placeholder, ToSql;
    OperatorReadsBack(op, Placeholder(place) + rest);
    PlaceholderReadsBack(place, rest);
  }

  /** A comparison is not taken for a membership test. */
  lemma NotMembership(op: Operator, tail: string)
    requires !op.Is? && !op.In?
    ensures !("::text IN (" <= "::text " + (ToSql(op) + " " + tail))
    ensures !(" IS " <= "::text " + (ToSql(op) + " " + tail))
  {
    var s := "::text " + (ToSql(op) + " " + tail);
    assert s[7..] == ToSql(op) + " " + tail;
    assert "::text IN ("[7] == 'I' && "::text IN ("[8] == 'N';
    assert s[7] == (ToSql(op) + " " + tail)[0];
    assert op.Ilike? ==> s[8] == 'L';
    assert s[0] == ':' && " IS "[0] == ' ';
  }

  lemma SortReadsBack(s: Sort, rest: string)
    requires Plain(s.column)
    ensures ReadSort(SortText(s) + rest) == Some((s, rest))
  {
    hide Quoted, ReadName;
    var word := match s.direction case Asc => " ASC" case Desc => " DESC";
    NameReadsBack(s.column, word + rest);
    StripAppended(word, rest);
    assert s.direction.Desc? ==> (word + rest)[1] == 'D' && " ASC"[1] == 'A';
    assert SortText(s) + rest == Quoted(s.column) + (word + rest);
  }

  // ----- whole statements -------------------------------------------------------------------

  predicate AfterLimit(rest: string) {
    rest == "" || " OFFSET " <= rest
  }

  predicate AfterOrder(rest: string) {
    " LIMIT " <= rest || AfterLimit(rest)
  }

  predicate AfterWhere(rest: string) {
    " ORDER BY " <= rest || AfterOrder(rest)
  }

  /** The first letters of the keywords tell them apart. */
  lemma KeywordsApart(rest: string)
    ensures AfterLimit(rest) ==> !(" LIMIT " <= rest)
    ensures AfterOrder(rest) ==> !(" ORDER BY " <= rest)
    ensures AfterWhere(rest) ==> !(" WHERE " <= rest) && !(" AND " <= rest) && !(", " <= rest) && NoDigitFirst(rest)
  {
    assert " OFFSET " <= rest ==> |rest| > 2 && rest[0] == ' ' && rest[1] == 'O' && rest[2] == 'F';
    assert " LIMIT " <= rest ==> |rest| > 2 && rest[0] == ' ' && rest[1] == 'L';
    assert " ORDER BY " <= rest ==> |rest| > 2 && rest[0] == ' ' && rest[1] == 'O' && rest[2] == 'R';
    assert " WHERE " <= rest ==> |rest| > 2 && rest[1] == 'W';
    assert " AND " <= rest ==> |rest| > 2 && rest[1] == 'A';
    assert ", " <= rest ==> rest[0] == ',';
  }

  lemma WhereReadsBack(conditions: seq<Condition>, rest: string)
    requires forall i :: 0 <= i < |conditions| ==> PlainCondition(conditions[i])
    requires AfterWhere(rest)
    ensures ReadClause(" WHERE ", ReadCondition, " AND ", WhereText(conditions) + rest) == Some((conditions, rest))
  {
    KeywordsApart(rest);
    hide ReadCondition, ConditionText, PlainCondition, ReadList, Join, Rendered, AfterWhere;
    if conditions == [] {
      assert WhereText(conditions) + rest == rest;
    } else {
      var list := Join(Rendered(ConditionText, conditions), " AND ");
      forall i | 0 <= i < |conditions|
        ensures ReadsBack(ReadCondition, ConditionText, conditions[i], NoDigitFirst)
      {
        forall r | NoDigitFirst(r)
          ensures ReadCondition(ConditionText(conditions[i]) + r) == Some((conditions[i], r))
        {
          ConditionReadsBack(conditions[i], r);
        }
      }
      ListReadsBack(ReadCondition, ConditionText, NoDigitFirst, conditions, " AND ", rest);
      StripAppended(" WHERE ", list + rest);
      assert WhereText(conditions) + rest == " WHERE " + (list + rest);
    }
  }

  lemma OrderReadsBack(order: seq<Sort>, rest: string)
    requires forall i :: 0 <= i < |order| ==> Plain(order[i].column)
    requires AfterOrder(rest)
    ensures ReadClause(" ORDER BY ", ReadSort, ", ", OrderText(order) + rest) == Some((order, rest))
  {
    KeywordsApart(rest);
    hide ReadSort, SortText, Plain, ReadList, Join, Rendered, AfterOrder;
    if order == [] {
      assert OrderText(order) + rest == rest;
    } else {
      var list := Join(Rendered(SortText, order), ", ");
      forall i | 0 <= i < |order|
        ensures ReadsBack(ReadSort, SortText, order[i], (r: string) => true)
      {
        forall r: string
          ensures ReadSort(SortText(order[i]) + r) == Some((order[i], r))
        {
          SortReadsBack(order[i], r);
        }
      }
      ListReadsBack(ReadSort, SortText, (r: string) => true, order, ", ", rest);
      StripAppended(" ORDER BY ", list + rest);
      assert OrderText(order) + rest == " ORDER BY " + (list + rest);
    }
  }

  /** A count is read back exactly when it is not negative. */
  lemma CountReadsBack(keyword: string, n: Option<int>, rest: string)
    requires !(keyword <= rest) && !StartsWithDigit(rest)
    ensures ReadCount(keyword, NumberText(keyword, n) + rest) == if NonNegative(n) then Some((n, rest)) else None
  {
    hide Print, Scan, StartsWithDigit;
    match n
    case None => assert NumberText(keyword, n) + rest == rest;
    case Some(k) =>
      StripAppended(keyword, PrintInt(k) + rest);
      assert NumberText(keyword, n) + rest == keyword + (PrintInt(k) + rest);
      if k >= 0 {
        ScanPrinted(k, rest);
      } else {
        MinusIsNoDigit(Print(-k) + rest);
        assert PrintInt(k) + rest == "-" + (Print(-k) + rest);
      }
  }

  lemma MinusIsNoDigit(s: string)
    ensures Scan("-" + s).None?
  {
    assert DigitRun("-" + s) == 0;
  }

  lemma CountsReadBack(s: Select)
    ensures ReadCounts(s.columns, s.table, s.conditions, s.order,
                       NumberText(" LIMIT ", s.limit) + NumberText(" OFFSET ", s.offset))
         == if NonNegative(s.limit) && NonNegative(s.offset) then Some(s) else None
  {
    var offset := NumberText(" OFFSET ", s.offset);
    assert AfterLimit(offset);
    KeywordsApart(offset);
    CountReadsBack(" LIMIT ", s.limit, offset);
    CountReadsBack(" OFFSET ", s.offset, "");
    assert offset + "" == offset;
    hide ReadCount, NumberText;
  }

  lemma RestReadsBack(s: Select)
    requires PlainSelect(s)
    ensures ReadRest(s.columns, s.table,
                     WhereText(s.conditions)
                     + (OrderText(s.order) + (NumberText(" LIMIT ", s.limit) + NumberText(" OFFSET ", s.offset))))
         == if NonNegative(s.limit) && NonNegative(s.offset) then Some(s) else None
  {
    var counts := NumberText(" LIMIT ", s.limit) + NumberText(" OFFSET ", s.offset);
    CountsReadBack(s);
    CountsAfterOrder(s);
    OrderAfterWhere(s.order, counts);
    WhereReadsBack(s.conditions, OrderText(s.order) + counts);
    OrderReadsBack(s.order, counts);
    hide ReadClause, ReadCounts, WhereText, OrderText, NumberText;
  }

  lemma CountsAfterOrder(s: Select)
    ensures AfterOrder(NumberText(" LIMIT ", s.limit) + NumberText(" OFFSET ", s.offset))
  {
    if s.limit.None? {
      assert NumberText(" LIMIT ", s.limit) + NumberText(" OFFSET ", s.offset) == NumberText(" OFFSET ", s.offset);
    }
  }

  lemma OrderAfterWhere(order: seq<Sort>, counts: string)
    requires AfterOrder(counts)
    ensures AfterWhere(OrderText(order) + counts)
  {
    hide AfterOrder;
    if order == [] {
      assert OrderText(order) + counts == counts;
    }
  }

  lemma ColumnsReadBack(columns: Option<seq<string>>, rest: string)
    requires columns.Some? ==> forall i :: 0 <= i < |columns.value| ==> Plain(columns.value[i])
    requires " FROM " <= rest
    ensures ReadColumns(ColumnsText(columns) + rest) == Some((columns, rest))
  {
    assert rest[0] == ' ';
    match columns
    case None => StripAppended("*", rest);
    case Some(names) =>
      if names == [] {
        assert ColumnsText(columns) + rest == rest;
      } else {
        NamesReadBack(names, rest);
        NamesStartQuoted(names);
        hide ReadList, Join, Rendered;
      }
  }

  lemma NamesStartQuoted(names: seq<string>)
    requires names != []
    ensures var text := Join(Rendered(Quoted, names), ", ");
      text != "" && text[0] == '\"'
  {
    assert Rendered(Quoted, names)[0] == Quoted(names[0]);
  }

  lemma PlainReadsBack(s: Select)
    requires PlainSelect(s)
    ensures ReadSelect(SelectText(s)) == if NonNegative(s.limit) && NonNegative(s.offset) then Some(s) else None
  {
    var counts := NumberText(" LIMIT ", s.limit) + NumberText(" OFFSET ", s.offset);
    var rest := WhereText(s.conditions) + (OrderText(s.order) + counts);
    var from := " FROM " + (Quoted(s.table) + rest);
    RestReadsBack(s);
    ColumnsReadBack(s.columns, from);
    NameReadsBack(s.table, rest);
    StripAppended("SELECT ", ColumnsText(s.columns) + from);
    StripAppended(" FROM ", Quoted(s.table) + rest);
    SelectPieces("SELECT ", ColumnsText(s.columns), " FROM ", Quoted(s.table), WhereText(s.conditions), OrderText(s.order),
                 NumberText(" LIMIT ", s.limit), NumberText(" OFFSET ", s.offset));
    hide ReadColumns, ReadName, ReadRest, ColumnsText, Quoted, WhereText, OrderText, NumberText, StripPrefix;
  }

  lemma SelectPieces(a: string, b: string, c: string, d: string, e: string, f: string, g: string, h: string)
    ensures a + b + c + d + e + f + g + h == a + (b + (c + (d + (e + (f + (g + h))))))
  {}

  // What is read is always plain and its counts are not negative.

  lemma NameIsPlain(s: string)
    ensures ReadName(s).Some? ==> Plain(ReadName(s).value.0)
  {}

  lemma ConditionIsPlain(s: string)
    ensures ReadCondition(s).Some? ==> PlainCondition(ReadCondition(s).value.0)
  {
    NameIsPlain(s);
    if ReadName(s).Some? {
      var (column, rest) := ReadName(s).value;
      PredicateIsPlain(column, rest);
    }
    hide ReadName, ReadPredicate, Plain;
  }

  lemma PredicateIsPlain(column: string, s: string)
    requires Plain(column)
    ensures ReadPredicate(column, s).Some? ==>
      PlainCondition(ReadPredicate(column, s).value.0) && ReadPredicate(column, s).value.0.column == column
  {
    hide ReadTest, ReadList, ReadPlaceholder, Plain, StripPrefix;
    forall t {
      OperatorCompares(t);
    }
    hide ReadOperator;
  }

  lemma OperatorCompares(s: string)
    ensures ReadOperator(s).Some? ==> !ReadOperator(s).value.0.Is? && !ReadOperator(s).value.0.In?
  {
    hide StripPrefix;
  }

  lemma SortIsPlain(s: string)
    ensures ReadSort(s).Some? ==> Plain(ReadSort(s).value.0.column)
  {
    NameIsPlain(s);
    hide ReadName, Plain, StripPrefix;
  }

  lemma ColumnsArePlain(s: string)
    ensures ReadColumns(s).Some? && ReadColumns(s).value.0.Some? ==>
      forall i :: 0 <= i < |ReadColumns(s).value.0.value| ==> Plain(ReadColumns(s).value.0.value[i])
  {
    forall t {
      NameIsPlain(t);
    }
    hide ReadName, Plain, ReadList;
    if ReadList(ReadName, ", ", s).Some? {
      ListItems(ReadName, ", ", s, Plain);
    }
  }

  lemma ConditionsArePlain(s: string)
    ensures var r := ReadClause(" WHERE ", ReadCondition, " AND ", s);
      r.Some? ==> forall i :: 0 <= i < |r.value.0| ==> PlainCondition(r.value.0[i])
  {
    forall t {
      ConditionIsPlain(t);
    }
    hide ReadCondition, PlainCondition, ReadList;
    var list := StripPrefix(s, " WHERE ");
    if list.Some? && ReadList(ReadCondition, " AND ", list.value).Some? {
      ListItems(ReadCondition, " AND ", list.value, PlainCondition);
    }
  }

  predicate PlainSort(s: Sort) {
    Plain(s.column)
  }

  lemma SortsArePlain(s: string)
    ensures var r := ReadClause(" ORDER BY ", ReadSort, ", ", s);
      r.Some? ==> forall i :: 0 <= i < |r.value.0| ==> Plain(r.value.0[i].column)
  {
    forall t {
      SortIsPlain(t);
    }
    hide ReadSort, Plain, ReadList;
    var list := StripPrefix(s, " ORDER BY ");
    if list.Some? && ReadList(ReadSort, ", ", list.value).Some? {
      ListItems(ReadSort, ", ", list.value, PlainSort);
    }
  }

  lemma SelectIsPlain(s: string)
    requires ReadSelect(s).Some?
    ensures PlainSelect(ReadSelect(s).value)
    ensures NonNegative(ReadSelect(s).value.limit) && NonNegative(ReadSelect(s).value.offset)
  {
    var body := StripPrefix(s, "SELECT ").value;
    ColumnsArePlain(body);
    var (columns, afterColumns) := ReadColumns(body).value;
    var source := StripPrefix(afterColumns, " FROM ").value;
    NameIsPlain(source);
    var (table, afterTable) := ReadName(source).value;
    RestIsPlain(columns, table, afterTable);
    hide ReadColumns, ReadName, ReadRest, Plain, PlainCondition, StripPrefix;
  }

  lemma RestIsPlain(columns: Option<seq<string>>, table: string, s: string)
    requires ReadRest(columns, table, s).Some?
    ensures var r := ReadRest(columns, table, s).value;
      && r.columns == columns && r.table == table
      && (forall i :: 0 <= i < |r.conditions| ==> PlainCondition(r.conditions[i]))
      && (forall i :: 0 <= i < |r.order| ==> Plain(r.order[i].column))
      && NonNegative(r.limit) && NonNegative(r.offset)
  {
    ConditionsArePlain(s);
    var (conditions, afterWhere) := ReadClause(" WHERE ", ReadCondition, " AND ", s).value;
    SortsArePlain(afterWhere);
    hide ReadClause, Plain, PlainCondition, Scan, StripPrefix;
  }

  /**
   * A statement reads back as it was if and only if it is plain, which is to say that its names
   * hold no double quote and its conditions are of the builder's making, and its counts are not
   * negative.
   */
  lemma SelectReadsBack(s: Select)
    ensures ReadSelect(SelectText(s)) == Some(s) <==> PlainSelect(s) && NonNegative(s.limit) && NonNegative(s.offset)
  {
    hide ReadSelect, SelectText, PlainSelect, NonNegative;
    if PlainSelect(s) {
      PlainReadsBack(s);
    } else if ReadSelect(SelectText(s)) == Some(s) {
      SelectIsPlain(SelectText(s));
      assert false;
    }
  }
}
