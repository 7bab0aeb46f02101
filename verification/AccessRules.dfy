/**
 * Access rules: how the builder of `packages/schema/src/table.ts` collects conditions, and how
 * `schema/rls.rs` turns them into the SQL clauses of row level security policies.
 */
module AccessRules {
  import opened Wrappers
  import opened Text
  import opened Schema
  import opened Catalogue
  import opened Plan

  // ----- translation to SQL -----------------------------------------------------------------

  function CurrentUser(): string {
    "current_setting('request.user_id', true)"
  }

  function UserIsSetSql(): (s: string)
    ensures s != "" && s[0] == 'c'
  {
    CurrentUser() + " IS NOT NULL"
  }

  function OwnerTestSql(): (s: string)
    ensures s != "" && s[0] == ':'
  {
    "::text = " + CurrentUser()
  }

  /** `s.replace('\'', "''")`. */
  function Doubled(s: string): string {
    if s == "" then "" else (if s[0] == '\'' then "''" else [s[0]]) + Doubled(s[1..])
  }

  function ValueToSqlLiteral(v: JsonValue): string {
    match v
    case JsonBool(b) => if b then "true" else "false"
    case JsonNumber(lexeme) => lexeme
    case JsonString(s) => "'" + Doubled(s) + "'"
    case JsonNull => "NULL"
    case JsonNested(_) => "NULL"
  }

  function FilterToSql(column: string, v: JsonValue): string {
    "\"" + column + "\" = " + ValueToSqlLiteral(v)
  }

  function FiltersToSql(filters: map<string, JsonValue>, order: seq<string>): seq<string>
    requires forall c :: c in order ==> c in filters
  {
    seq(|order|, i requires 0 <= i < |order| => FilterToSql(order[i], filters[order[i]]))
  }

  /** `order` is the order in which the hash map of filters is walked. */
  function ConditionToSql(cond: AccessCondition, order: seq<string>): string
    requires Walks(order, cond)
  {
    match cond
    case IsOwner(column) => "\"" + OwnerColumn(column) + "\"" + OwnerTestSql()
    case IsAuthenticated => UserIsSetSql()
    case Where(None) => "true"
    case Where(Some(filters)) => Join(FiltersToSql(filters, order), " AND ")
    case UnknownCondition(other) => "false /* unknown condition: " + other + " */"
  }

  function OwnerColumn(column: Option<string>): string {
    match column case Some(c) => c case None => "user_id"
  }

  /** Every key of the filter map exactly once. */
  ghost predicate Walks(order: seq<string>, cond: AccessCondition) {
    cond.Where? && cond.filters.Some? ==>
      && (forall c :: c in order <==> c in cond.filters.value)
      && (forall i, j :: 0 <= i < j < |order| ==> order[i] != order[j])
  }

  ghost predicate WalksAll(orders: seq<seq<string>>, conditions: seq<AccessCondition>) {
    |orders| == |conditions| && forall i :: 0 <= i < |orders| ==> Walks(orders[i], conditions[i])
  }

  function ConditionsToSql(conditions: seq<AccessCondition>, orders: seq<seq<string>>): seq<string>
    requires WalksAll(orders, conditions)
  {
    seq(|conditions|, i requires 0 <= i < |conditions| => ConditionToSql(conditions[i], orders[i]))
  }

  function Parenthesised(parts: seq<string>): seq<string> {
    seq(|parts|, i requires 0 <= i < |parts| => "(" + parts[i] + ")")
  }

  function AccessRuleToSql(rule: AccessRule, orders: seq<seq<string>>): string
    requires rule.Conditions? ==> WalksAll(orders, rule.conditions)
  {
    match rule
    case Public(name) =>
      if name == "public" then "true"
      else if name == "authenticated" then UserIsSetSql()
      else "false /* unknown rule: " + name + " */"
    case Conditions(conditions) =>
      var parts := ConditionsToSql(conditions, orders);
      if parts == [] then "false"
      else if |parts| == 1 then parts[0]
      else Join(Parenthesised(parts), " OR ")
  }

  lemma UserSettingText()
    ensures CurrentUser() == "current_setting('request.user_id', true)"
  {}

  /** The tests of the user in SQL, and the column that tells the owner if the rule names none. */
  lemma UserTests()
    ensures UserIsSetSql() == CurrentUser() + " IS NOT NULL"
    ensures ConditionToSql(IsOwner(None), []) == "\"user_id\"::text = " + CurrentUser()
  {
    hide CurrentUser;
    assert "\"" + "user_id" + "\"" + "::text = " == "\"user_id\"::text = ";
    assert "\"" + "user_id" + "\"" + ("::text = " + CurrentUser())
        == ("\"" + "user_id" + "\"" + "::text = ") + CurrentUser();
  }

  /** The literals of values that are no strings. */
  lemma PlainLiterals(lexeme: string)
    ensures ValueToSqlLiteral(JsonBool(true)) == "true" && ValueToSqlLiteral(JsonBool(false)) == "false"
    ensures ValueToSqlLiteral(JsonNumber(lexeme)) == lexeme
    ensures ValueToSqlLiteral(JsonNull) == "NULL" && ValueToSqlLiteral(JsonNested(lexeme)) == "NULL"
  {}

  // ----- a reader of the emitted SQL --------------------------------------------------------

  datatype Literal = BoolLiteral(b: bool) | NumberLiteral(lexeme: string) | StringLiteral(s: string) | NullLiteral

  datatype Expr =
    | Constant(b: bool)
    | Refused(note: string)
    | UserIsSet
    | UserOwns(column: string)
    | Equals(column: string, literal: Literal)
    | And(left: Expr, right: Expr)
    | Or(left: Expr, right: Expr)

  /** After the opening quote: the contents up to the closing one, a doubled quote standing for one. */
  function ReadQuoted(s: string): (r: Option<(string, string)>)
    ensures r.Some? ==> |r.value.1| < |s|
  {
    if s == "" then None
    else if s[0] != '\'' then
      match ReadQuoted(s[1..])
      case Some((t, rest)) => Some(([s[0]] + t, rest))
      case None => None
    else if |s| > 1 && s[1] == '\'' then
      match ReadQuoted(s[2..])
      case Some((t, rest)) => Some(("'" + t, rest))
      case None => None
    else Some(("", s[1..]))
  }

  predicate IsNumberChar(c: char) {
    '0' <= c <= '9' || c == '-' || c == '+' || c == '.' || c == 'e' || c == 'E'
  }

  function NumberRun(s: string): (k: nat)
    ensures k <= |s|
  {
    if s != "" && IsNumberChar(s[0]) then 1 + NumberRun(s[1..]) else 0
  }

  function ReadWord(s: string, word: string, l: Literal): (r: Option<(Literal, string)>)
    ensures r.Some? ==> |r.value.1| <= |s|
  {
    match StripPrefix(s, word)
    case Some(rest) => Some((l, rest))
    case None => None
  }

  function ReadLiteral(s: string): (r: Option<(Literal, string)>)
    ensures r.Some? ==> |r.value.1| <= |s|
  {
    if s == "" then None
    else if s[0] == '\'' then
      match ReadQuoted(s[1..])
      case Some((t, rest)) => Some((StringLiteral(t), rest))
      case None => None
    else if s[0] == 't' then ReadWord(s, "true", BoolLiteral(true))
    else if s[0] == 'f' then ReadWord(s, "false", BoolLiteral(false))
    else if s[0] == 'N' then ReadWord(s, "NULL", NullLiteral)
    else
      var k := NumberRun(s);
      if k == 0 then None else Some((NumberLiteral(s[..k]), s[k..]))
  }

  predicate OpensComment(s: string) {
    |s| > 1 && s[0] == '/' && s[1] == '*'
  }

  predicate ClosesComment(s: string) {
    |s| > 1 && s[0] == '*' && s[1] == '/'
  }

  /** Inside a comment, which PostgreSQL lets nest: its text up to the end of the outermost one. */
  function ReadComment(s: string, depth: nat): (r: Option<(string, string)>)
    ensures r.Some? ==> s == r.value.0 + "*/" + r.value.1
  {
    if s == "" then None
    else if OpensComment(s) then
      match ReadComment(s[2..], depth + 1)
      case Some((t, rest)) => Some(("/*" + t, rest))
      case None => None
    else if ClosesComment(s) then
      if depth <= 1 then Some(("", s[2..]))
      else
        match ReadComment(s[2..], depth - 1)
        case Some((t, rest)) => Some(("*/" + t, rest))
        case None => None
    else
      match ReadComment(s[1..], depth)
      case Some((t, rest)) => Some(([s[0]] + t, rest))
      case None => None
  }

  /** After the opening double quote of a column name; a doubled quote in the name is refused. */
  function ReadComparison(s: string): (r: Option<(Expr, string)>)
    ensures r.Some? ==> |r.value.1| < |s|
  {
    match ReadUntil(s, '\"')
    case None => None
    case Some((column, rest)) =>
      match StripPrefix(rest, OwnerTestSql())
      case Some(after) => Some((UserOwns(column), after))
      case None =>
        match StripPrefix(rest, " = ")
        case None => None
        case Some(value) =>
          match ReadLiteral(value)
          case Some((l, after)) => Some((Equals(column, l), after))
          case None => None
  }

  /** `false`, with or without a comment behind it. */
  function ReadFalse(s: string): (r: Option<(Expr, string)>)
    ensures r.Some? ==> |r.value.1| < |s|
  {
    match StripPrefix(s, "false")
    case None => None
    case Some(rest) =>
      match StripPrefix(rest, " /* ")
      case None => Some((Constant(false), rest))
      case Some(comment) =>
        match ReadComment(comment, 1)
        case None => None
        case Some((note, after)) => Some((Refused(note), after))
  }

  function ReadAtom(s: string): (r: Option<(Expr, string)>)
    ensures r.Some? ==> |r.value.1| < |s|
    decreases |s|, 0
  {
    if s == "" then None
    else if s[0] == '(' then
      match ReadOr(s[1..])
      case None => None
      case Some((e, rest)) => if rest != "" && rest[0] == ')' then Some((e, rest[1..])) else None
    else if s[0] == '\"' then ReadComparison(s[1..])
    else if s[0] == 'f' then ReadFalse(s)
    else if s[0] == 't' then
      match StripPrefix(s, "true")
      case Some(rest) => Some((Constant(true), rest))
      case None => None
    else
      match StripPrefix(s, UserIsSetSql())
      case Some(rest) => Some((UserIsSet, rest))
      case None => None
  }

  function ReadAnd(s: string): (r: Option<(Expr, string)>)
    ensures r.Some? ==> |r.value.1| < |s|
    decreases |s|, 1
  {
    match ReadAtom(s)
    case None => None
    case Some((e, rest)) =>
      match StripPrefix(rest, " AND ")
      case None => Some((e, rest))
      case Some(more) =>
        match ReadAnd(more)
        case Some((f, after)) => Some((And(e, f), after))
        case None => None
  }

  function ReadOr(s: string): (r: Option<(Expr, string)>)
    ensures r.Some? ==> |r.value.1| < |s|
    decreases |s|, 2
  {
    match ReadAnd(s)
    case None => None
    case Some((e, rest)) =>
      match StripPrefix(rest, " OR ")
      case None => Some((e, rest))
      case Some(more) =>
        match ReadOr(more)
        case Some((f, after)) => Some((Or(e, f), after))
        case None => None
  }

  /** The whole text is one boolean expression. */
  function Read(s: string): Option<Expr> {
    match ReadOr(s)
    case Some((e, rest)) => if rest == "" then Some(e) else None
    case None => None
  }

  // ----- what a clause admits ---------------------------------------------------------------

  /** SQL's three truth values. */
  datatype Truth = Yes | No | Unknown

  /** A row as the text of each column, `None` for NULL. */
  type Row = string -> Option<string>

  /** PostgreSQL's equality between a stored value and a literal. */
  type Equality = (string, Literal) -> bool

  function Kleene(b: bool): Truth {
    if b then Yes else No
  }

  function Eval(e: Expr, row: Row, user: Option<string>, same: Equality): Truth {
    match e
    case Constant(b) => Kleene(b)
    case Refused(_) => No
    case UserIsSet => Kleene(user.Some?)
    case UserOwns(c) => if row(c).None? || user.None? then Unknown else Kleene(row(c) == user)
    case Equals(c, l) => if row(c).None? || l.NullLiteral? then Unknown else Kleene(same(row(c).value, l))
    case And(f, g) =>
      var (x, y) := (Eval(f, row, user, same), Eval(g, row, user, same));
      if x == No || y == No then No else if x == Yes && y == Yes then Yes else Unknown
    case Or(f, g) =>
      var (x, y) := (Eval(f, row, user, same), Eval(g, row, user, same));
      if x == Yes || y == Yes then Yes else if x == No && y == No then No else Unknown
  }

  // ----- what a condition asks for ----------------------------------------------------------

  function LiteralOf(v: JsonValue): Literal {
    match v
    case JsonBool(b) => BoolLiteral(b)
    case JsonNumber(lexeme) => NumberLiteral(lexeme)
    case JsonString(s) => StringLiteral(s)
    case _ => NullLiteral
  }

  /** The row has a value in the column, the filter names a scalar, and the two are equal. */
  predicate Matches(row: Row, column: string, v: JsonValue, same: Equality) {
    row(column).Some? && !v.JsonNull? && !v.JsonNested? && same(row(column).value, LiteralOf(v))
  }

  predicate Satisfies(cond: AccessCondition, row: Row, user: Option<string>, same: Equality) {
    match cond
    case IsOwner(column) => user.Some? && row(OwnerColumn(column)) == user
    case IsAuthenticated => user.Some?
    case Where(None) => true
    case Where(Some(filters)) => forall c :: c in filters ==> Matches(row, c, filters[c], same)
    case UnknownCondition(_) => false
  }

  /** Rules without an owner column are about the column `user_id`, and booleans are compared as such. */
  lemma OwnersByDefault(row: Row, user: Option<string>, same: Equality, c: string, b: bool)
    ensures Satisfies(IsOwner(None), row, user, same) <==> user.Some? && row("user_id") == user
    ensures Matches(row, c, JsonBool(b), same) <==> row(c).Some? && same(row(c).value, BoolLiteral(b))
  {}

  // ----- reading back -----------------------------------------------------------------------

  predicate IsNumeral(lexeme: string) {
    lexeme != "" && forall i :: 0 <= i < |lexeme| ==> IsNumberChar(lexeme[i])
  }

  /** The numbers among the filters are JSON numerals. */
  predicate HasNumerals(cond: AccessCondition) {
    cond.Where? && cond.filters.Some? ==>
      forall c :: c in cond.filters.value && cond.filters.value[c].JsonNumber? ==> IsNumeral(cond.filters.value[c].lexeme)
  }

  /** In a comment of this depth, the text opens and closes comments so that the depth is 1 at its end. */
  predicate Contained(s: string, depth: nat) {
    if s == "" then depth == 1
    else if OpensComment(s) then Contained(s[2..], depth + 1)
    else if ClosesComment(s) then depth > 1 && Contained(s[2..], depth - 1)
    else Contained(s[1..], depth)
  }

  /** Column names hold no double quote, and the name of an unknown type stays inside its comment. */
  predicate Quotable(cond: AccessCondition) {
    match cond
    case IsOwner(column) => '\"' !in OwnerColumn(column)
    case IsAuthenticated => true
    case Where(None) => true
    case Where(Some(filters)) => forall c :: c in filters ==> '\"' !in c
    case UnknownCondition(other) => Contained(other, 1)
  }

  predicate Printable(cond: AccessCondition) {
    Quotable(cond) && HasNumerals(cond)
  }

  predicate HasNoFilter(cond: AccessCondition) {
    cond.Where? && cond.filters == Some(map[])
  }

  /** What may follow an operand. */
  predicate EndsOperand(rest: string) {
    rest == "" || ")" <= rest || " AND " <= rest || " OR " <= rest
  }

  predicate EndsConjunction(rest: string) {
    rest == "" || ")" <= rest || " OR " <= rest
  }

  lemma {:induction false} QuotedReadsBack(s: string, rest: string)
    requires rest == "" || rest[0] != '\''
    ensures ReadQuoted(Doubled(s) + "'" + rest) == Some((s, rest))
  {
    var text := Doubled(s) + "'" + rest;
    if s == "" {
      assert text == "'" + rest;
      assert text[1..] == rest;
    } else {
      QuotedReadsBack(s[1..], rest);
      var tail := Doubled(s[1..]) + "'" + rest;
      assert [s[0]] + s[1..] == s;
      if s[0] == '\'' {
        assert text == "''" + tail;
        assert text[2..] == tail;
      } else {
        assert text == [s[0]] + tail;
        assert text[1..] == tail;
      }
    }
  }

  lemma {:induction false} NumberRunAcross(lexeme: string, rest: string)
    requires forall i :: 0 <= i < |lexeme| ==> IsNumberChar(lexeme[i])
    requires rest == "" || !IsNumberChar(rest[0])
    ensures NumberRun(lexeme + rest) == |lexeme|
  {
    if lexeme == "" {
      assert lexeme + rest == rest;
    } else {
      NumberRunAcross(lexeme[1..], rest);
      assert (lexeme + rest)[1..] == lexeme[1..] + rest;
    }
  }

  /** A literal reads back as the value it was made from; a string keeps every quote. */
  lemma LiteralReadsBack(v: JsonValue, rest: string)
    requires v.JsonNumber? ==> IsNumeral(v.lexeme)
    requires EndsOperand(rest)
    ensures ReadLiteral(ValueToSqlLiteral(v) + rest) == Some((LiteralOf(v), rest))
  {
    hide EndsOperand, NumberRun, ReadQuoted, Doubled;
    OperandEnd(rest);
    match v
    case JsonString(s) => StringReadsBack(s, rest);
    case JsonNumber(lexeme) => NumberReadsBack(lexeme, rest);
    case JsonBool(b) => StripAppended(if b then "true" else "false", rest);
    case JsonNull => StripAppended("NULL", rest);
    case JsonNested(_) => StripAppended("NULL", rest);
  }

  lemma OperandEnd(rest: string)
    requires EndsOperand(rest)
    ensures rest == "" || rest[0] == ')' || rest[0] == ' '
  {}

  lemma StringReadsBack(s: string, rest: string)
    requires rest == "" || rest[0] != '\''
    ensures ReadLiteral("'" + Doubled(s) + "'" + rest) == Some((StringLiteral(s), rest))
  {
    hide Doubled, ReadQuoted;
    var text := "'" + Doubled(s) + "'" + rest;
    QuotedReadsBack(s, rest);
    assert text[1..] == Doubled(s) + "'" + rest;
  }

  lemma NumberReadsBack(lexeme: string, rest: string)
    requires IsNumeral(lexeme) && (rest == "" || !IsNumberChar(rest[0]))
    ensures ReadLiteral(lexeme + rest) == Some((NumberLiteral(lexeme), rest))
  {
    var text := lexeme + rest;
    NumberRunAcross(lexeme, rest);
    assert IsNumberChar(lexeme[0]) && text[0] == lexeme[0];
    assert text[..|lexeme|] == lexeme && text[|lexeme|..] == rest;
    hide NumberRun, ReadQuoted, ReadWord;
  }

  lemma FilterReadsBack(column: string, v: JsonValue, rest: string)
    requires '\"' !in column && (v.JsonNumber? ==> IsNumeral(v.lexeme)) && EndsOperand(rest)
    ensures ReadAtom(FilterToSql(column, v) + rest) == Some((Equals(column, LiteralOf(v)), rest))
  {
    hide ValueToSqlLiteral, ReadLiteral, CurrentUser;
    var value := ValueToSqlLiteral(v) + rest;
    var text := FilterToSql(column, v) + rest;
    assert text[1..] == column + ['\"'] + (" = " + value);
    ReadUntilAppended(column, " = " + value, '\"');
    assert StripPrefix(" = " + value, OwnerTestSql()).None?;
    StripAppended(" = ", value);
    LiteralReadsBack(v, rest);
  }

  lemma OwnerReadsBack(column: string, rest: string)
    requires '\"' !in column
    ensures ReadAtom("\"" + column + "\"" + OwnerTestSql() + rest) == Some((UserOwns(column), rest))
  {
    hide OwnerTestSql;
    var text := "\"" + column + "\"" + OwnerTestSql() + rest;
    assert text[1..] == column + ['\"'] + (OwnerTestSql() + rest);
    ReadUntilAppended(column, OwnerTestSql() + rest, '\"');
    StripAppended(OwnerTestSql(), rest);
  }

  lemma UserIsSetReadsBack(rest: string)
    ensures ReadAtom(UserIsSetSql() + rest) == Some((UserIsSet, rest))
  {
    hide UserIsSetSql;
    StripAppended(UserIsSetSql(), rest);
  }

  /** A text that leaves its comment open, and does not end in half a delimiter, is read up to the delimiter behind it. */
  lemma {:induction false} CommentReadsBack(t: string, depth: nat, rest: string)
    requires Contained(t, depth) && (t == "" || t[|t| - 1] == ' ')
    ensures ReadComment(t + "*/" + rest, depth) == Some((t, rest))
  {
    var s := t + "*/" + rest;
    if t == "" {
      assert s == "*/" + rest && s[2..] == rest;
    } else {
      CommentFront(t, rest);
      if OpensComment(t) {
        CommentReadsBack(t[2..], depth + 1, rest);
        assert t == "/*" + t[2..];
      } else if ClosesComment(t) {
        CommentReadsBack(t[2..], depth - 1, rest);
        assert t == "*/" + t[2..];
      } else {
        CommentReadsBack(t[1..], depth, rest);
        assert [t[0]] + t[1..] == t;
      }
    }
  }

  /** The delimiter behind a text that ends in a space makes no other delimiter with it. */
  lemma CommentFront(t: string, rest: string)
    requires t != "" && t[|t| - 1] == ' '
    ensures var s := t + "*/" + rest;
      && s != "" && s[0] == t[0] && OpensComment(s) == OpensComment(t) && ClosesComment(s) == ClosesComment(t)
      && s[1..] == t[1..] + "*/" + rest && (|t| > 1 ==> s[2..] == t[2..] + "*/" + rest)
      && (OpensComment(t) || ClosesComment(t) ==> |t| > 2)
  {}

  /** What was read as a comment is contained. */
  lemma {:induction false} CommentContained(s: string, depth: nat)
    requires depth >= 1 && ReadComment(s, depth).Some?
    ensures Contained(ReadComment(s, depth).value.0, depth)
  {
    var (t, rest) := ReadComment(s, depth).value;
    if OpensComment(s) || (ClosesComment(s) && depth > 1) {
      var inner := if OpensComment(s) then depth + 1 else depth - 1;
      CommentContained(s[2..], inner);
      assert t[2..] == ReadComment(s[2..], inner).value.0;
    } else if !ClosesComment(s) {
      CommentContained(s[1..], depth);
      assert t[1..] == ReadComment(s[1..], depth).value.0;
      assert forall i :: 0 <= i < |t| ==> t[i] == s[i];
    }
  }

  /** Words without delimiters in front of a name, and a space behind it, change nothing. */
  lemma {:induction false} ContainedBehind(words: string, name: string, depth: nat)
    requires forall i :: 0 <= i < |words| ==> words[i] != '*' && words[i] != '/'
    ensures Contained(words + name, depth) == Contained(name, depth)
  {
    if words == "" {
      assert words + name == name;
    } else {
      ContainedBehind(words[1..], name, depth);
      assert (words + name)[1..] == words[1..] + name;
    }
  }

  lemma {:induction false} ContainedBefore(name: string, depth: nat)
    ensures Contained(name + " ", depth) == Contained(name, depth)
  {
    var s := name + " ";
    if name == "" {
      assert s == " " && s[1..] == "";
    } else if OpensComment(name) || ClosesComment(name) {
      assert s[2..] == name[2..] + " ";
      if OpensComment(name) {
        ContainedBefore(name[2..], depth + 1);
      } else if depth > 1 {
        ContainedBefore(name[2..], depth - 1);
      }
    } else {
      ContainedBefore(name[1..], depth);
      assert s[1..] == name[1..] + " ";
    }
  }

  /** Whether the note of a comment is contained is a matter of the name in it. */
  lemma ContainedNote(name: string)
    ensures Contained("unknown rule: " + name + " ", 1) == Contained(name, 1)
    ensures Contained("unknown condition: " + name + " ", 1) == Contained(name, 1)
  {
    hide Contained;
    ContainedBefore(name, 1);
    ContainedBehind("unknown rule: ", name + " ", 1);
    ContainedBehind("unknown condition: ", name + " ", 1);
    assert "unknown rule: " + name + " " == "unknown rule: " + (name + " ");
    assert "unknown condition: " + name + " " == "unknown condition: " + (name + " ");
  }

  /** A name that holds neither delimiter is contained. */
  lemma {:induction false} PlainNamesContained(name: string)
    requires forall i :: 0 <= i < |name| - 1 ==> !(name[i] == '/' && name[i + 1] == '*') && !(name[i] == '*' && name[i + 1] == '/')
    ensures Contained(name, 1)
  {
    if name != "" {
      PlainNamesContained(name[1..]);
    }
  }

  lemma RefusedReadsBack(note: string, rest: string)
    requires Contained(note + " ", 1)
    ensures ReadAtom("false /* " + note + " */" + rest) == Some((Refused(note + " "), rest))
  {
    var comment := note + " " + "*/" + rest;
    CommentReadsBack(note + " ", 1, rest);
    hide ReadComment, Contained, ReadOr, ReadComparison, StripPrefix;
    assert "false /* " + note + " */" + rest == "false" + (" /* " + comment);
    StripAppended("false", " /* " + comment);
    StripAppended(" /* ", comment);
  }

  /** A lone operand is a conjunction, and a lone conjunction a disjunction. */
  lemma AtomAlone(text: string, e: Expr, rest: string)
    requires ReadAtom(text) == Some((e, rest)) && EndsConjunction(rest)
    ensures ReadAnd(text) == Some((e, rest))
  {
    hide ReadAtom;
    Connectives(rest);
  }

  lemma ConjunctionAlone(text: string, e: Expr, rest: string)
    requires ReadAnd(text) == Some((e, rest)) && (rest == "" || rest[0] == ')')
    ensures ReadOr(text) == Some((e, rest))
  {
    hide ReadAnd;
  }

  lemma Connectives(rest: string)
    ensures " AND " <= rest ==> |rest| > 1 && rest[0] == ' ' && rest[1] == 'A'
    ensures " OR " <= rest ==> |rest| > 1 && rest[0] == ' ' && rest[1] == 'O'
  {}

  // ----- the expression a rule stands for ---------------------------------------------------

  function AllOf(es: seq<Expr>): Expr
    requires es != []
  {
    if |es| == 1 then es[0] else And(es[0], AllOf(es[1..]))
  }

  function AnyOf(es: seq<Expr>): Expr
    requires es != []
  {
    if |es| == 1 then es[0] else Or(es[0], AnyOf(es[1..]))
  }

  function FilterExprs(filters: map<string, JsonValue>, order: seq<string>): seq<Expr>
    requires forall c :: c in order ==> c in filters
  {
    seq(|order|, i requires 0 <= i < |order| => Equals(order[i], LiteralOf(filters[order[i]])))
  }

  function ConditionExpr(cond: AccessCondition, order: seq<string>): Expr
    requires Walks(order, cond) && !HasNoFilter(cond)
  {
    match cond
    case IsOwner(column) => UserOwns(OwnerColumn(column))
    case IsAuthenticated => UserIsSet
    case Where(None) => Constant(true)
    case Where(Some(filters)) => SomeFilter(order, cond); AllOf(FilterExprs(filters, order))
    case UnknownCondition(other) => Refused("unknown condition: " + other + " ")
  }

  lemma SomeFilter(order: seq<string>, cond: AccessCondition)
    requires Walks(order, cond) && !HasNoFilter(cond) && cond.Where? && cond.filters.Some?
    ensures order != []
  {
    assert cond.filters.value.Keys != {};
    var c :| c in cond.filters.value;
    assert c in order;
  }

  lemma {:induction false} FiltersReadBack(filters: map<string, JsonValue>, order: seq<string>, rest: string)
    requires order != [] && forall c :: c in order ==> c in filters
    requires forall c :: c in order ==> '\"' !in c && (filters[c].JsonNumber? ==> IsNumeral(filters[c].lexeme))
    requires EndsConjunction(rest)
    ensures ReadAnd(Join(FiltersToSql(filters, order), " AND ") + rest) == Some((AllOf(FilterExprs(filters, order)), rest))
  {
    hide ReadAtom, FilterToSql;
    var parts := FiltersToSql(filters, order);
    if |order| == 1 {
      FilterReadsBack(order[0], filters[order[0]], rest);
      AtomAlone(parts[0] + rest, FilterExprs(filters, order)[0], rest);
    } else {
      var more := Join(parts[1..], " AND ") + rest;
      assert parts[1..] == FiltersToSql(filters, order[1..]);
      assert FilterExprs(filters, order)[1..] == FilterExprs(filters, order[1..]);
      FiltersReadBack(filters, order[1..], rest);
      FilterReadsBack(order[0], filters[order[0]], " AND " + more);
      StripAppended(" AND ", more);
      assert Join(parts, " AND ") + rest == parts[0] + (" AND " + more);
    }
  }

  lemma ConditionReadsBack(cond: AccessCondition, order: seq<string>, rest: string)
    requires Walks(order, cond) && Printable(cond) && !HasNoFilter(cond) && EndsConjunction(rest)
    ensures ReadAnd(ConditionToSql(cond, order) + rest) == Some((ConditionExpr(cond, order), rest))
  {
    hide ReadAtom, ReadAnd, OwnerTestSql, UserIsSetSql, FiltersToSql, FilterExprs;
    match cond
    case IsOwner(column) =>
      OwnerReadsBack(OwnerColumn(column), rest);
      AtomAlone(ConditionToSql(cond, order) + rest, UserOwns(OwnerColumn(column)), rest);
    case IsAuthenticated =>
      UserIsSetReadsBack(rest);
      AtomAlone(ConditionToSql(cond, order) + rest, UserIsSet, rest);
    case Where(None) =>
      TrueReadsBack(rest);
      AtomAlone("true" + rest, Constant(true), rest);
    case Where(Some(filters)) =>
      SomeFilter(order, cond);
      FiltersReadBack(filters, order, rest);
    case UnknownCondition(other) =>
      var note := "unknown condition: " + other;
      ContainedNote(other);
      RefusedReadsBack(note, rest);
      UnknownText(other, rest);
      AtomAlone(ConditionToSql(cond, order) + rest, Refused(note + " "), rest);
  }

  lemma UnknownText(other: string, rest: string)
    ensures "false /* unknown condition: " + other + " */" + rest
         == "false /* " + ("unknown condition: " + other) + " */" + rest
  {
    assert "false /* unknown condition: " == "false /* " + "unknown condition: ";
  }

  lemma TrueReadsBack(rest: string)
    ensures ReadAtom("true" + rest) == Some((Constant(true), rest))
  {
    StripAppended("true", rest);
  }

  // ----- whole rules ------------------------------------------------------------------------

  predicate PrintableAll(conditions: seq<AccessCondition>) {
    forall i :: 0 <= i < |conditions| ==> Printable(conditions[i])
  }

  predicate QuotableAll(conditions: seq<AccessCondition>) {
    forall i :: 0 <= i < |conditions| ==> Quotable(conditions[i])
  }

  predicate NumeralsAll(conditions: seq<AccessCondition>) {
    forall i :: 0 <= i < |conditions| ==> HasNumerals(conditions[i])
  }

  predicate NoneEmpty(conditions: seq<AccessCondition>) {
    forall i :: 0 <= i < |conditions| ==> !HasNoFilter(conditions[i])
  }

  function ConditionExprs(conditions: seq<AccessCondition>, orders: seq<seq<string>>): seq<Expr>
    requires WalksAll(orders, conditions) && NoneEmpty(conditions)
  {
    seq(|conditions|, i requires 0 <= i < |conditions| => ConditionExpr(conditions[i], orders[i]))
  }

  lemma ParenthesisedReadsBack(cond: AccessCondition, order: seq<string>, rest: string)
    requires Walks(order, cond) && Printable(cond) && !HasNoFilter(cond) && EndsConjunction(rest)
    ensures ReadAnd("(" + ConditionToSql(cond, order) + ")" + rest) == Some((ConditionExpr(cond, order), rest))
  {
    ConditionReadsBack(cond, order, ")" + rest);
    hide *;
    Parens(ConditionToSql(cond, order), ConditionExpr(cond, order), rest);
    AtomAlone("(" + ConditionToSql(cond, order) + ")" + rest, ConditionExpr(cond, order), rest);
  }

  lemma Parens(inner: string, e: Expr, rest: string)
    requires ReadAnd(inner + (")" + rest)) == Some((e, ")" + rest))
    ensures ReadAtom("(" + inner + ")" + rest) == Some((e, rest))
  {
    hide ReadAnd, ReadOr, ReadComparison, ReadFalse, StripPrefix;
    var text := "(" + inner + ")" + rest;
    assert text[1..] == inner + (")" + rest) && (")" + rest)[1..] == rest;
    ConjunctionAlone(inner + (")" + rest), e, ")" + rest);
  }

  /** An empty pair of parentheses is no operand. */
  lemma EmptyUnreadable(rest: string)
    ensures ReadAnd("(" + "" + ")" + rest).None?
  {
    var text := "(" + "" + ")" + rest;
    assert text[1..] == ")" + rest;
    assert ReadAtom(")" + rest).None?;
    assert ReadOr(")" + rest).None?;
  }

  lemma {:induction false} DisjunctionReadsBack(conditions: seq<AccessCondition>, orders: seq<seq<string>>)
    requires conditions != [] && WalksAll(orders, conditions) && PrintableAll(conditions)
    ensures var text := Join(Parenthesised(ConditionsToSql(conditions, orders)), " OR ");
      ReadOr(text)
      == if NoneEmpty(conditions) then Some((AnyOf(ConditionExprs(conditions, orders)), "")) else None
  {
    hide ReadAnd, ConditionToSql, ConditionExpr, HasNoFilter, Walks, Printable;
    var parts := Parenthesised(ConditionsToSql(conditions, orders));
    var text := Join(parts, " OR ");
    var more := if |conditions| == 1 then "" else " OR " + Join(parts[1..], " OR ");
    assert parts[0] == "(" + ConditionToSql(conditions[0], orders[0]) + ")";
    assert text == parts[0] + more;
    if HasNoFilter(conditions[0]) {
      EmptyText(conditions[0], orders[0]);
      EmptyUnreadable(more);
    } else {
      ParenthesisedReadsBack(conditions[0], orders[0], more);
      if |conditions| > 1 {
        assert parts[1..] == Parenthesised(ConditionsToSql(conditions[1..], orders[1..]));
        DisjunctionReadsBack(conditions[1..], orders[1..]);
        StripAppended(" OR ", Join(parts[1..], " OR "));
        NoneEmptySplit(conditions);
        if NoneEmpty(conditions) {
          assert ConditionExprs(conditions, orders)[1..] == ConditionExprs(conditions[1..], orders[1..]);
        }
      }
    }
  }

  lemma NoneEmptySplit(conditions: seq<AccessCondition>)
    requires conditions != []
    ensures NoneEmpty(conditions) <==> !HasNoFilter(conditions[0]) && NoneEmpty(conditions[1..])
  {
    hide HasNoFilter;
    assert conditions == [conditions[0]] + conditions[1..];
  }

  lemma EmptyText(cond: AccessCondition, order: seq<string>)
    requires Walks(order, cond) && HasNoFilter(cond)
    ensures ConditionToSql(cond, order) == ""
  {
    SomeElement(order);
  }

  /** The expression of a rule's conditions, whatever the order of the filter maps. */
  function RuleExpr(conditions: seq<AccessCondition>, orders: seq<seq<string>>): Expr
    requires conditions != [] && WalksAll(orders, conditions) && NoneEmpty(conditions)
  {
    AnyOf(ConditionExprs(conditions, orders))
  }

  /**
   * The clause of a rule whose names can be quoted is one boolean expression exactly when no
   * condition has an empty filter set, and then it is the disjunction of its conditions; and it is
   * that disjunction exactly when every name can be quoted.
   */
  lemma RuleReadsBack(conditions: seq<AccessCondition>, orders: seq<seq<string>>)
    requires conditions != [] && WalksAll(orders, conditions) && NumeralsAll(conditions)
    ensures QuotableAll(conditions) ==>
      Read(AccessRuleToSql(Conditions(conditions), orders))
      == if NoneEmpty(conditions) then Some(RuleExpr(conditions, orders)) else None
    ensures NoneEmpty(conditions) ==>
      (Read(AccessRuleToSql(Conditions(conditions), orders)) == Some(RuleExpr(conditions, orders))
       <==> QuotableAll(conditions))
  {
    hide Read, AccessRuleToSql, RuleExpr, Quotable, HasNumerals, HasNoFilter, Walks;
    if QuotableAll(conditions) {
      PrintableReadsBack(conditions, orders);
    } else if NoneEmpty(conditions) {
      CleanRule(conditions, orders);
      if Read(AccessRuleToSql(Conditions(conditions), orders)) == Some(RuleExpr(conditions, orders)) {
        ReadIsClean(AccessRuleToSql(Conditions(conditions), orders));
        assert false;
      }
    }
  }

  lemma PrintableReadsBack(conditions: seq<AccessCondition>, orders: seq<seq<string>>)
    requires conditions != [] && WalksAll(orders, conditions) && PrintableAll(conditions)
    ensures Read(AccessRuleToSql(Conditions(conditions), orders))
         == if NoneEmpty(conditions) then Some(RuleExpr(conditions, orders)) else None
  {
    hide ConditionToSql, ConditionExpr, ReadAnd;
    if |conditions| > 1 {
      DisjunctionReadsBack(conditions, orders);
    } else {
      var text := ConditionToSql(conditions[0], orders[0]);
      if HasNoFilter(conditions[0]) {
        EmptyText(conditions[0], orders[0]);
        NothingUnreadable();
      } else {
        ConditionReadsBack(conditions[0], orders[0], "");
        assert text + "" == text;
        assert ConditionExprs(conditions, orders) == [ConditionExpr(conditions[0], orders[0])];
      }
    }
  }

  // What is read back never holds a name that cannot be quoted.

  predicate Clean(e: Expr) {
    match e
    case Refused(note) => Contained(note, 1)
    case UserOwns(column) => '\"' !in column
    case Equals(column, _) => '\"' !in column
    case And(f, g) => Clean(f) && Clean(g)
    case Or(f, g) => Clean(f) && Clean(g)
    case _ => true
  }

  lemma {:induction false} AtomIsClean(s: string)
    requires ReadAtom(s).Some?
    ensures Clean(ReadAtom(s).value.0)
    decreases |s|, 0
  {
    if s[0] == '(' {
      OrIsClean(s[1..]);
    } else if s[0] == '\"' {
      hide ReadLiteral, OwnerTestSql;
    } else if s[0] == 'f' {
      FalseIsClean(s);
    }
  }

  lemma FalseIsClean(s: string)
    requires ReadFalse(s).Some?
    ensures Clean(ReadFalse(s).value.0)
  {
    hide ReadComment, Contained;
    var rest := StripPrefix(s, "false").value;
    var comment := StripPrefix(rest, " /* ");
    if comment.Some? {
      CommentContained(comment.value, 1);
    }
  }

  lemma {:induction false} AndIsClean(s: string)
    requires ReadAnd(s).Some?
    ensures Clean(ReadAnd(s).value.0)
    decreases |s|, 1
  {
    hide ReadAtom;
    AtomIsClean(s);
    var (e, rest) := ReadAtom(s).value;
    var more := StripPrefix(rest, " AND ");
    if more.Some? {
      AndIsClean(more.value);
    }
  }

  lemma {:induction false} OrIsClean(s: string)
    requires ReadOr(s).Some?
    ensures Clean(ReadOr(s).value.0)
    decreases |s|, 2
  {
    hide ReadAnd;
    AndIsClean(s);
    var (e, rest) := ReadAnd(s).value;
    var more := StripPrefix(rest, " OR ");
    if more.Some? {
      OrIsClean(more.value);
    }
  }

  lemma ReadIsClean(s: string)
    requires Read(s).Some?
    ensures Clean(Read(s).value)
  {
    hide ReadOr, Clean;
    OrIsClean(s);
  }

  lemma {:induction false} AllOfClean(es: seq<Expr>)
    requires es != []
    ensures Clean(AllOf(es)) <==> forall i :: 0 <= i < |es| ==> Clean(es[i])
  {
    if |es| > 1 {
      AllOfClean(es[1..]);
      assert forall i :: 1 <= i < |es| ==> es[i] == es[1..][i - 1];
    }
  }

  lemma {:induction false} AnyOfClean(es: seq<Expr>)
    requires es != []
    ensures Clean(AnyOf(es)) <==> forall i :: 0 <= i < |es| ==> Clean(es[i])
  {
    if |es| > 1 {
      AnyOfClean(es[1..]);
      assert forall i :: 1 <= i < |es| ==> es[i] == es[1..][i - 1];
    }
  }

  lemma CleanCondition(cond: AccessCondition, order: seq<string>)
    requires Walks(order, cond) && !HasNoFilter(cond)
    ensures Clean(ConditionExpr(cond, order)) <==> Quotable(cond)
  {
    match cond
    case Where(Some(filters)) =>
      SomeFilter(order, cond);
      var es := FilterExprs(filters, order);
      AllOfClean(es);
      hide AllOf;
      assert forall i :: 0 <= i < |order| ==> (Clean(es[i]) <==> '\"' !in order[i]);
    case UnknownCondition(other) =>
      ContainedNote(other);
      hide Contained;
    case _ =>
  }

  lemma CleanRule(conditions: seq<AccessCondition>, orders: seq<seq<string>>)
    requires conditions != [] && WalksAll(orders, conditions) && NoneEmpty(conditions)
    ensures Clean(RuleExpr(conditions, orders)) <==> QuotableAll(conditions)
  {
    hide Clean, ConditionExpr, Quotable, AnyOf;
    var es := ConditionExprs(conditions, orders);
    AnyOfClean(es);
    forall i | 0 <= i < |conditions|
      ensures Clean(es[i]) <==> Quotable(conditions[i])
    {
      CleanCondition(conditions[i], orders[i]);
    }
  }

  lemma NothingUnreadable()
    ensures Read("").None?
  {
    assert ReadAtom("").None?;
  }

  // ----- whom a rule admits -----------------------------------------------------------------

  lemma {:induction false} AllOfMeaning(es: seq<Expr>, row: Row, user: Option<string>, same: Equality)
    requires es != []
    ensures Eval(AllOf(es), row, user, same) == Yes
       <==> forall i :: 0 <= i < |es| ==> Eval(es[i], row, user, same) == Yes
  {
    if |es| > 1 {
      AllOfMeaning(es[1..], row, user, same);
      assert forall i :: 1 <= i < |es| ==> es[i] == es[1..][i - 1];
    }
  }

  lemma {:induction false} AnyOfMeaning(es: seq<Expr>, row: Row, user: Option<string>, same: Equality)
    requires es != []
    ensures Eval(AnyOf(es), row, user, same) == Yes
       <==> exists i :: 0 <= i < |es| && Eval(es[i], row, user, same) == Yes
  {
    if |es| > 1 {
      AnyOfMeaning(es[1..], row, user, same);
      assert forall i :: 1 <= i < |es| ==> es[i] == es[1..][i - 1];
    }
  }

  lemma ConditionMeaning(cond: AccessCondition, order: seq<string>, row: Row, user: Option<string>, same: Equality)
    requires Walks(order, cond) && !HasNoFilter(cond)
    ensures Eval(ConditionExpr(cond, order), row, user, same) == Yes <==> Satisfies(cond, row, user, same)
  {
    if cond.Where? && cond.filters.Some? {
      var filters := cond.filters.value;
      var es := FilterExprs(filters, order);
      SomeFilter(order, cond);
      AllOfMeaning(es, row, user, same);
      hide AllOf;
      assert forall i :: 0 <= i < |order| ==>
        (Eval(es[i], row, user, same) == Yes <==> Matches(row, order[i], filters[order[i]], same));
    }
  }

  /** In three-valued logic the clause is true exactly on the rows that satisfy some condition. */
  lemma RuleMeaning(conditions: seq<AccessCondition>, orders: seq<seq<string>>, row: Row, user: Option<string>, same: Equality)
    requires conditions != [] && WalksAll(orders, conditions) && NoneEmpty(conditions)
    ensures Eval(RuleExpr(conditions, orders), row, user, same) == Yes
       <==> exists i :: 0 <= i < |conditions| && Satisfies(conditions[i], row, user, same)
  {
    hide ConditionExpr, AnyOf, Satisfies, Eval;
    var es := ConditionExprs(conditions, orders);
    AnyOfMeaning(es, row, user, same);
    forall i | 0 <= i < |conditions|
      ensures Eval(es[i], row, user, same) == Yes <==> Satisfies(conditions[i], row, user, same)
    {
      ConditionMeaning(conditions[i], orders[i], row, user, same);
    }
  }

  /** Who passes a rule, read off the rule itself. */
  predicate Admits(rule: AccessRule, row: Row, user: Option<string>, same: Equality) {
    match rule
    case Public(name) => name == "public" || (name == "authenticated" && user.Some?)
    case Conditions(conditions) => exists i :: 0 <= i < |conditions| && Satisfies(conditions[i], row, user, same)
  }

  predicate QuotableRule(rule: AccessRule) {
    match rule
    case Public(name) => Contained(name, 1)
    case Conditions(conditions) => QuotableAll(conditions)
  }

  predicate FilteredRule(rule: AccessRule) {
    rule.Conditions? ==> NoneEmpty(rule.conditions)
  }

  ghost predicate WalksRule(orders: seq<seq<string>>, rule: AccessRule) {
    rule.Conditions? ==> WalksAll(orders, rule.conditions) && NumeralsAll(rule.conditions)
  }

  /** The expression a rule means: the disjunction of its conditions, or what its name says. */
  function IntendedExpr(rule: AccessRule, orders: seq<seq<string>>): Expr
    requires WalksRule(orders, rule) && FilteredRule(rule)
  {
    match rule
    case Public(name) =>
      if name == "public" then Constant(true)
      else if name == "authenticated" then UserIsSet
      else Refused("unknown rule: " + name + " ")
    case Conditions(conditions) => if conditions == [] then Constant(false) else RuleExpr(conditions, orders)
  }

  /**
   * For every rule and every order in which its filter maps are walked: the clause reads back as
   * what the rule means if and only if every name can be quoted, that is, columns hold no double
   * quote and unknown names stay inside their comment.
   */
  lemma ClauseReadsBackIff(rule: AccessRule, orders: seq<seq<string>>)
    requires WalksRule(orders, rule)
    ensures QuotableRule(rule) ==> (Read(AccessRuleToSql(rule, orders)).Some? <==> FilteredRule(rule))
    ensures FilteredRule(rule) ==>
      (Read(AccessRuleToSql(rule, orders)) == Some(IntendedExpr(rule, orders)) <==> QuotableRule(rule))
  {
    hide Read, HasNoFilter, ConditionToSql, RuleExpr, QuotableAll, NumeralsAll, Contained;
    match rule
    case Public(name) => NamedRule(name, orders);
    case Conditions(conditions) =>
      if conditions == [] {
        NoConditions();
        assert QuotableAll([]) by {
          NothingToQuote();
        }
      } else {
        RuleReadsBack(conditions, orders);
      }
  }

  lemma NothingToQuote()
    ensures QuotableAll([])
  {}

  /** What a rule means admits exactly those the rule admits. */
  lemma IntendedMeaning(rule: AccessRule, orders: seq<seq<string>>, row: Row, user: Option<string>, same: Equality)
    requires WalksRule(orders, rule) && FilteredRule(rule)
    ensures Eval(IntendedExpr(rule, orders), row, user, same) == Yes <==> Admits(rule, row, user, same)
  {
    hide Satisfies, RuleExpr;
    if rule.Conditions? && rule.conditions != [] {
      hide Eval;
      RuleMeaning(rule.conditions, orders, row, user, same);
    }
  }

  /**
   * For every rule whose names can be quoted, every order in which the filter maps are walked, every
   * row and every user: the clause is readable exactly when no condition has an empty filter set, and
   * then it is true exactly for those the rule admits. A rule without conditions, or of an unknown
   * name that stays inside its comment, admits nobody.
   */
  lemma ClauseAdmitsExactly(rule: AccessRule, orders: seq<seq<string>>, row: Row, user: Option<string>, same: Equality)
    requires WalksRule(orders, rule) && QuotableRule(rule)
    ensures var clause := Read(AccessRuleToSql(rule, orders));
      && (clause.Some? <==> FilteredRule(rule))
      && (clause.Some? ==> (Eval(clause.value, row, user, same) == Yes <==> Admits(rule, row, user, same)))
  {
    hide Read, AccessRuleToSql, IntendedExpr, Eval, Admits, QuotableRule, FilteredRule, WalksRule;
    ClauseReadsBackIff(rule, orders);
    if FilteredRule(rule) {
      IntendedMeaning(rule, orders, row, user, same);
    }
  }

  const OPEN_NAME := "*/" + " OR " + "true" + " OR " + "false /* "

  /** The proviso is needed: an unknown name that closes its comment turns into part of the clause. */
  lemma UnknownNameCanAdmit(row: Row, user: Option<string>, same: Equality)
    ensures !QuotableRule(Public(OPEN_NAME)) && !Admits(Public(OPEN_NAME), row, user, same)
    ensures var clause := Read(AccessRuleToSql(Public(OPEN_NAME), []));
      clause.Some? && Eval(clause.value, row, user, same) == Yes
  {
    assert OpensComment(OPEN_NAME) || ClosesComment(OPEN_NAME);
    var last := "false /* " + "" + " */" + "";
    var middle := "true" + (" OR " + last);
    var text := "false /* " + "unknown rule:" + " */" + (" OR " + middle);
    assert Contained("unknown rule:" + " ", 1) by {
      ContainedNote("");
      ContainedBehind("unknown rule: ", "", 1);
      assert "unknown rule:" + " " == "unknown rule: " + "";
    }
    assert Contained("" + " ", 1) by {
      ContainedBefore("", 1);
    }
    RefusedReadsBack("unknown rule:", " OR " + middle);
    RefusedReadsBack("", "");
    TrueReadsBack(" OR " + last);
    assert AccessRuleToSql(Public(OPEN_NAME), []) == text by {
      OpenText();
    }
    hide *;
    AtomAlone(last, Refused("" + " "), "");
    ConjunctionAlone(last, Refused("" + " "), "");
    ThenOr(middle, Constant(true), last, Refused("" + " "));
    ThenOr(text, Refused("unknown rule:" + " "), middle, Or(Constant(true), Refused("" + " ")));
    WholeText(text, Or(Refused("unknown rule:" + " "), Or(Constant(true), Refused("" + " "))));
    AnywayTrue(Refused("unknown rule:" + " "), Refused("" + " "), row, user, same);
  }

  lemma OpenText()
    ensures AccessRuleToSql(Public(OPEN_NAME), [])
         == "false /* " + "unknown rule:" + " */" + (" OR " + ("true" + (" OR " + ("false /* " + "" + " */" + ""))))
  {
    assert "false /* unknown rule: " == "false /* " + "unknown rule:" + " ";
    assert " */" == " " + "*/";
    assert OPEN_NAME != "public" && OPEN_NAME != "authenticated";
    Regrouped("false /* ", "unknown rule:", " ", "*/", " OR ", "true", " */");
  }

  lemma Regrouped(a: string, b: string, c: string, d: string, e: string, t: string, f: string)
    ensures a + b + c + (d + e + t + e + a) + f == a + b + (c + d) + (e + (t + (e + (a + "" + f + ""))))
  {}

  lemma ThenOr(text: string, e: Expr, more: string, f: Expr)
    requires ReadAtom(text) == Some((e, " OR " + more)) && ReadOr(more) == Some((f, ""))
    ensures ReadOr(text) == Some((Or(e, f), ""))
  {
    hide ReadAtom;
    AtomAlone(text, e, " OR " + more);
    hide ReadAnd;
    StripAppended(" OR ", more);
  }

  lemma AnywayTrue(e: Expr, f: Expr, row: Row, user: Option<string>, same: Equality)
    ensures Eval(Or(e, Or(Constant(true), f)), row, user, same) == Yes
  {
    assert Eval(Constant(true), row, user, same) == Yes;
    assert Eval(Or(Constant(true), f), row, user, same) == Yes;
  }

  lemma NoConditions()
    ensures Read("false") == Some(Constant(false))
  {
    StripAppended("false", "");
    assert "false" + "" == "false" && ReadFalse("false") == Some((Constant(false), ""));
    AtomAlone("false", Constant(false), "");
    ConjunctionAlone("false", Constant(false), "");
  }

  lemma NamedRule(name: string, orders: seq<seq<string>>)
    ensures Read(AccessRuleToSql(Public(name), orders)) == Some(IntendedExpr(Public(name), orders)) <==> Contained(name, 1)
    ensures Contained(name, 1) ==> Read(AccessRuleToSql(Public(name), orders)).Some?
  {
    var text := AccessRuleToSql(Public(name), orders);
    var e := IntendedExpr(Public(name), orders);
    ContainedNote(name);
    KnownNames();
    if Contained(name, 1) {
      assert text + "" == text;
      if name == "public" {
        TrueReadsBack("");
      } else if name == "authenticated" {
        UserIsSetReadsBack("");
      } else {
        RefusedReadsBack("unknown rule: " + name, "");
        UnknownRuleText(name);
      }
      hide *;
      AtomAlone(text, e, "");
      ConjunctionAlone(text, e, "");
      WholeText(text, e);
    } else if Read(text) == Some(e) {
      hide Contained, Read;
      ReadIsClean(text);
      assert false;
    }
  }

  lemma KnownNames()
    ensures Contained("public", 1) && Contained("authenticated", 1)
  {
    PlainNamesContained("public");
    PlainNamesContained("authenticated");
  }

  lemma WholeText(text: string, e: Expr)
    requires ReadOr(text) == Some((e, ""))
    ensures Read(text) == Some(e)
  {
    hide ReadOr;
  }

  lemma UnknownRuleText(name: string)
    ensures "false /* unknown rule: " + name + " */" == "false /* " + ("unknown rule: " + name) + " */" + ""
  {
    assert "false /* unknown rule: " == "false /* " + "unknown rule: ";
  }

  /** The clause of a `where` with a null or nested value in its filters is true of no row at all. */
  lemma NullFilterAdmitsNobody(filters: map<string, JsonValue>, order: seq<string>, c: string,
                               row: Row, user: Option<string>, same: Equality)
    requires c in filters && (filters[c].JsonNull? || filters[c].JsonNested?)
    requires var cond := Where(Some(filters)); Walks(order, cond) && Printable(cond)
    ensures var clause := Read(AccessRuleToSql(Conditions([Where(Some(filters))]), [order]));
      clause.Some? && Eval(clause.value, row, user, same) != Yes
  {
    var rule := Conditions([Where(Some(filters))]);
    assert !Matches(row, c, filters[c], same);
    assert !Satisfies(Where(Some(filters)), row, user, same);
    assert filters != map[];
    hide Satisfies, Read, AccessRuleToSql, Eval, Walks;
    ClauseAdmitsExactly(rule, [order], row, user, same);
  }

  // ----- anonymous requests -----------------------------------------------------------------

  /** `set_rls_context`: without a user id in the request, `request.user_id` is set to the empty string. */
  function UserSetting(header: Option<string>): Option<string> {
    match header case Some(uid) => Some(uid) case None => Some("")
  }

  /** A rule that an empty user id passes: asking for any user, or for an owner where the column is empty. */
  predicate PassesEmptyUser(rule: AccessRule, row: Row) {
    match rule
    case Public(name) => name == "authenticated"
    case Conditions(conditions) =>
      exists i :: 0 <= i < |conditions| &&
        (conditions[i].IsAuthenticated? || (conditions[i].IsOwner? && row(OwnerColumn(conditions[i].column)) == Some("")))
  }

  /**
   * The clause and the setting together: a request of a user passes exactly if the rule admits that
   * user; an anonymous request passes exactly if the rule admits everybody, or if it is one that an
   * empty user id passes. In particular `authenticated` lets every anonymous request through.
   */
  lemma RequestPassesIff(rule: AccessRule, orders: seq<seq<string>>, row: Row, header: Option<string>, same: Equality)
    requires WalksRule(orders, rule) && QuotableRule(rule) && FilteredRule(rule)
    ensures Holds(AccessRuleToSql(rule, orders), row, UserSetting(header), same) <==>
      Admits(rule, row, header, same) || (header.None? && PassesEmptyUser(rule, row))
  {
    hide Read, AccessRuleToSql, Eval, QuotableRule, FilteredRule, WalksRule;
    ClauseAdmitsExactly(rule, orders, row, UserSetting(header), same);
    EmptyUser(rule, row, same);
    hide Admits, PassesEmptyUser;
  }

  lemma EmptyUser(rule: AccessRule, row: Row, same: Equality)
    ensures Admits(rule, row, Some(""), same) <==> Admits(rule, row, None, same) || PassesEmptyUser(rule, row)
  {
    if rule.Conditions? {
      var conditions := rule.conditions;
      assert forall i :: 0 <= i < |conditions| ==>
        (Satisfies(conditions[i], row, Some(""), same) <==>
           Satisfies(conditions[i], row, None, same) || conditions[i].IsAuthenticated?
           || (conditions[i].IsOwner? && row(OwnerColumn(conditions[i].column)) == Some("")));
    }
  }

  // ----- the rule builder -------------------------------------------------------------------

  class AccessConditionBuilder {
    var conditions: seq<AccessCondition>

    /** `where(filters)`: the only way a chain starts. */
    constructor (filters: map<string, JsonValue>)
      ensures conditions == [Where(Some(filters))]
    {
      conditions := [Where(Some(filters))];
    }

    method OrCondition(other: AccessCondition) returns (chain: AccessConditionBuilder)
      modifies this
      ensures chain == this && conditions == old(conditions) + [other]
    {
      conditions := conditions + [other];
      chain := this;
    }

    /** `other` may be the builder itself. */
    method OrBuilder(other: AccessConditionBuilder) returns (chain: AccessConditionBuilder)
      modifies this
      ensures chain == this && conditions == old(conditions) + old(other.conditions)
      ensures other != this ==> other.conditions == old(other.conditions)
    {
      conditions := conditions + other.conditions;
      chain := this;
    }

    method Build() returns (built: seq<AccessCondition>)
      ensures built == conditions
    {
      built := conditions;
    }
  }

  /** What the function of a rule returns: a lone condition, or a chain. */
  datatype RuleResult = Lone(condition: AccessCondition) | Chain(builder: AccessConditionBuilder)

  method BuildAccessRule(result: RuleResult) returns (rule: AccessRule)
    ensures result.Lone? ==> rule == Conditions([result.condition])
    ensures result.Chain? ==> rule == Conditions(result.builder.conditions)
  {
    match result
    case Lone(condition) => rule := Conditions([condition]);
    case Chain(builder) =>
      var built := builder.Build();
      rule := Conditions(built);
  }

  /** Chaining adds exactly what the other side admits. */
  lemma OrWidens(a: seq<AccessCondition>, b: seq<AccessCondition>, row: Row, user: Option<string>, same: Equality)
    ensures Admits(Conditions(a + b), row, user, same)
       <==> Admits(Conditions(a), row, user, same) || Admits(Conditions(b), row, user, same)
  {
    hide Satisfies;
    var ab := a + b;
    if i :| 0 <= i < |a| && Satisfies(a[i], row, user, same) {
      assert ab[i] == a[i];
    }
    if i :| 0 <= i < |b| && Satisfies(b[i], row, user, same) {
      assert ab[|a| + i] == b[i];
    }
  }

  // ----- policies ---------------------------------------------------------------------------

  /** A policy's clauses: USING judges the row as it is, WITH CHECK the row as it would become. */
  datatype Policy = Policy(name: string, table: string, command: Command, using: Option<string>, check: Option<string>)

  /** The rule a command is subject to; deleting is not subject to the rule for writing. */
  function RuleFor(access: Access, command: Command): (r: Option<AccessRule>)
    ensures r.Some? <==> HasRule(access, command)
  {
    match command
    case ForSelect => access.read
    case ForInsert => access.write
    case ForUpdate => access.write
    case ForDelete => access.delete
  }

  /** The walks of the filter maps of the three rules. */
  datatype Walked = Walked(read: seq<seq<string>>, write: seq<seq<string>>, delete: seq<seq<string>>) {
    function For(command: Command): seq<seq<string>> {
      match command
      case ForSelect => read
      case ForInsert => write
      case ForUpdate => write
      case ForDelete => delete
    }
  }

  ghost predicate WalksAccess(walked: Walked, access: Access) {
    forall command :: RuleFor(access, command).Some? && RuleFor(access, command).value.Conditions? ==>
      WalksAll(walked.For(command), RuleFor(access, command).value.conditions)
  }

  function PolicyOf(t: string, access: Access, command: Command, walked: Walked): Policy
    requires WalksAccess(walked, access) && HasRule(access, command)
  {
    var clause := AccessRuleToSql(RuleFor(access, command).value, walked.For(command));
    Policy(PolicyName(command, t), t, command,
           if command.ForInsert? then None else Some(clause),
           if command.ForInsert? || command.ForUpdate? then Some(clause) else None)
  }

  function CommandWord(command: Command): string {
    match command case ForSelect => "SELECT" case ForInsert => "INSERT" case ForUpdate => "UPDATE" case ForDelete => "DELETE"
  }

  function PolicySql(p: Policy): string {
    "CREATE POLICY \"" + p.name + "\" ON \"" + p.table + "\" FOR " + CommandWord(p.command)
    + (match p.using case Some(clause) => " USING (" + clause + ")" case None => "")
    + (match p.check case Some(clause) => " WITH CHECK (" + clause + ")" case None => "")
  }

  function Listing(t: string, access: Access, command: Command, walked: Walked): (string, string)
    requires WalksAccess(walked, access) && HasRule(access, command)
  {
    (PolicyName(command, t), PolicySql(PolicyOf(t, access, command, walked)))
  }

  ghost predicate Lists(policies: seq<(string, string)>, t: string, access: Access, commands: set<Command>, walked: Walked)
    requires WalksAccess(walked, access)
  {
    && (forall c :: c in commands && HasRule(access, c) ==> Listing(t, access, c, walked) in policies)
    && (forall p :: p in policies ==> exists c :: c in commands && HasRule(access, c) && p == Listing(t, access, c, walked))
  }

  /** One policy for each command that has a rule, and no other. */
  method GeneratePolicies(t: string, access: Access, walked: Walked) returns (policies: seq<(string, string)>)
    requires WalksAccess(walked, access)
    ensures Lists(policies, t, access, {ForSelect, ForInsert, ForUpdate, ForDelete}, walked)
    ensures |policies| == (if access.read.Some? then 1 else 0) + (if access.write.Some? then 2 else 0)
                          + (if access.delete.Some? then 1 else 0)
  {
    hide PolicySql, AccessRuleToSql, PolicyName;
    policies := [];
    if access.read.Some? {
      policies := policies + [Listing(t, access, ForSelect, walked)];
    }
    assert Lists(policies, t, access, {ForSelect}, walked);
    if access.write.Some? {
      policies := policies + [Listing(t, access, ForInsert, walked), Listing(t, access, ForUpdate, walked)];
    }
    assert Lists(policies, t, access, {ForSelect, ForInsert, ForUpdate}, walked);
    if access.delete.Some? {
      policies := policies + [Listing(t, access, ForDelete, walked)];
    }
  }

  /** The row as it is passes USING, and the row as it would become passes WITH CHECK. */
  predicate Passes(p: Policy, before: Row, after: Row, user: Option<string>, same: Equality) {
    && (p.using.Some? ==> Holds(p.using.value, before, user, same))
    && (p.check.Some? ==> Holds(p.check.value, after, user, same))
  }

  predicate Holds(clause: string, row: Row, user: Option<string>, same: Equality) {
    Read(clause).Some? && Eval(Read(clause).value, row, user, same) == Yes
  }

  predicate Judgeable(rule: AccessRule) {
    QuotableRule(rule) && FilteredRule(rule) && (rule.Conditions? ==> NumeralsAll(rule.conditions))
  }

  /**
   * A command passes its policy exactly when its rule admits the rows it touches: the existing row
   * for SELECT and DELETE, the new row for INSERT, both for UPDATE.
   */
  lemma PolicyAdmitsExactly(t: string, access: Access, command: Command, walked: Walked,
                            before: Row, after: Row, user: Option<string>, same: Equality)
    requires WalksAccess(walked, access) && HasRule(access, command) && Judgeable(RuleFor(access, command).value)
    ensures var rule := RuleFor(access, command).value;
      Passes(PolicyOf(t, access, command, walked), before, after, user, same)
      <==> && (!command.ForInsert? ==> Admits(rule, before, user, same))
           && (command.ForInsert? || command.ForUpdate? ==> Admits(rule, after, user, same))
  {
    hide AccessRuleToSql, Read, Eval, Admits, PolicyName;
    var rule, orders := RuleFor(access, command).value, walked.For(command);
    ClauseAdmitsExactly(rule, orders, before, user, same);
    ClauseAdmitsExactly(rule, orders, after, user, same);
  }
}
