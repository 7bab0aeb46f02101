/**
 * The CREATE POLICY statements of `schema/rls.rs`: a reader for them, when it gives a policy back, and
 * whom the statements that `generate_policies` returns let through.
 */
module PolicyText {
  import opened Wrappers
  import opened Text
  import opened Schema
  import opened Catalogue
  import opened Plan
  import opened SqlText
  import opened AccessRules

  // ----- where a clause ends ----------------------------------------------------------------

  /**
   * What has been read of a clause: code at some depth of parentheses, the last character perhaps a
   * slash; the inside of a string, of a quoted name, or of nested comments; or all of it.
   */
  datatype Lexer =
    | Code(depth: nat)
    | Slash(depth: nat)
    | InString(depth: nat)
    | InName(depth: nat)
    | InComment(nesting: nat, depth: nat)
    | CommentSlash(nesting: nat, depth: nat)
    | CommentStar(nesting: nat, depth: nat)
    | Closed

  function Step(l: Lexer, c: char): Lexer {
    match l
    case Code(d) => StepCode(d, c)
    case Slash(d) => if c == '*' then InComment(1, d) else StepCode(d, c)
    case InString(d) => if c == '\'' then Code(d) else l
    case InName(d) => if c == '\"' then Code(d) else l
    case InComment(n, d) => StepComment(n, d, c)
    case CommentSlash(n, d) => if c == '*' then InComment(n + 1, d) else StepComment(n, d, c)
    case CommentStar(n, d) =>
      if c == '/' then (if n <= 1 then Code(d) else InComment(n - 1, d)) else StepComment(n, d, c)
    case Closed => Closed
  }

  function StepCode(d: nat, c: char): Lexer {
    if c == '\'' then InString(d)
    else if c == '\"' then InName(d)
    else if c == '/' then Slash(d)
    else if c == '(' then Code(d + 1)
    else if c == ')' then (if d == 0 then Closed else Code(d - 1))
    else Code(d)
  }

  function StepComment(n: nat, d: nat, c: char): Lexer {
    if c == '/' then CommentSlash(n, d) else if c == '*' then CommentStar(n, d) else InComment(n, d)
  }

  function After(l: Lexer, s: string): Lexer
    decreases |s|
  {
    if s == "" then l else After(Step(l, s[0]), s[1..])
  }

  predicate AtEnd(l: Lexer) {
    l == Code(0) || l == Slash(0)
  }

  /** Parentheses, strings, quoted names and comments of the clause are closed in it, and no more than that. */
  predicate Balanced(clause: string) {
    AtEnd(After(Code(0), clause))
  }

  /** The clause up to the parenthesis that closes it, and what follows. */
  function ReadClause(l: Lexer, s: string): Option<(string, string)>
    decreases |s|
  {
    if s == "" then None
    else if Step(l, s[0]) == Closed then Some(("", s[1..]))
    else
      match ReadClause(Step(l, s[0]), s[1..])
      case Some((clause, rest)) => Some(([s[0]] + clause, rest))
      case None => None
  }

  lemma {:induction false} ClauseEndsIff(l: Lexer, clause: string, rest: string)
    requires l != Closed
    ensures ReadClause(l, clause + ")" + rest) == Some((clause, rest)) <==> AtEnd(After(l, clause))
    decreases |clause|
  {
    var s := clause + ")" + rest;
    if clause == "" {
      assert s[0] == ')' && s[1..] == rest;
    } else {
      assert s[0] == clause[0] && s[1..] == clause[1..] + ")" + rest;
      assert [clause[0]] + clause[1..] == clause;
      if Step(l, clause[0]) == Closed {
        StaysClosed(clause[1..]);
      } else {
        ClauseEndsIff(Step(l, clause[0]), clause[1..], rest);
        var more := ReadClause(Step(l, s[0]), s[1..]);
        if more.Some? && [s[0]] + more.value.0 == clause {
          assert more.value.0 == clause[1..];
        }
      }
    }
  }

  lemma {:induction false} StaysClosed(s: string)
    ensures After(Closed, s) == Closed
  {
    if s != "" {
      StaysClosed(s[1..]);
    }
  }

  lemma {:induction false} ReadIsBalanced(l: Lexer, s: string)
    requires l != Closed && ReadClause(l, s).Some?
    ensures AtEnd(After(l, ReadClause(l, s).value.0))
    decreases |s|
  {
    if Step(l, s[0]) != Closed {
      ReadIsBalanced(Step(l, s[0]), s[1..]);
      var clause := ReadClause(Step(l, s[0]), s[1..]).value.0;
      assert ([s[0]] + clause)[1..] == clause;
    }
  }

  // ----- the statement ----------------------------------------------------------------------

  function ReadCommand(s: string): Option<(Command, string)> {
    match StripPrefix(s, "SELECT")
    case Some(rest) => Some((ForSelect, rest))
    case None =>
      match StripPrefix(s, "INSERT")
      case Some(rest) => Some((ForInsert, rest))
      case None =>
        match StripPrefix(s, "UPDATE")
        case Some(rest) => Some((ForUpdate, rest))
        case None =>
          match StripPrefix(s, "DELETE")
          case Some(rest) => Some((ForDelete, rest))
          case None => None
  }

  /** A clause behind its keyword and an opening parenthesis; no keyword, no clause. */
  function ReadOptional(s: string, keyword: string): Option<(Option<string>, string)> {
    match StripPrefix(s, keyword)
    case None => Some((None, s))
    case Some(inside) =>
      match ReadClause(Code(0), inside)
      case Some((clause, rest)) => Some((Some(clause), rest))
      case None => None
  }

  function ReadClauses(s: string): Option<(Option<string>, Option<string>)> {
    match ReadOptional(s, " USING (")
    case None => None
    case Some((using, afterUsing)) =>
      match ReadOptional(afterUsing, " WITH CHECK (")
      case Some((check, rest)) => if rest == "" then Some((using, check)) else None
      case None => None
  }

  function ReadTarget(s: string): Option<(string, string, string)> {
    match StripPrefix(s, "CREATE POLICY ")
    case None => None
    case Some(named) =>
      match ReadName(named)
      case None => None
      case Some((name, afterName)) =>
        match StripPrefix(afterName, " ON ")
        case None => None
        case Some(target) =>
          match ReadName(target)
          case None => None
          case Some((table, afterTable)) =>
            match StripPrefix(afterTable, " FOR ")
            case Some(rest) => Some((name, table, rest))
            case None => None
  }

  function ReadPolicy(s: string): Option<Policy> {
    match ReadTarget(s)
    case None => None
    case Some((name, table, afterTarget)) =>
      match ReadCommand(afterTarget)
      case None => None
      case Some((command, clauses)) =>
        match ReadClauses(clauses)
        case Some((using, check)) => Some(Policy(name, table, command, using, check))
        case None => None
  }

  // ----- reading back -----------------------------------------------------------------------

  function OptionalText(keyword: string, clause: Option<string>): string {
    match clause case Some(c) => keyword + c + ")" case None => ""
  }

  predicate ClauseBalanced(clause: Option<string>) {
    clause.Some? ==> Balanced(clause.value)
  }

  lemma PolicyPieces(p: Policy)
    ensures PolicySql(p)
         == "CREATE POLICY " + (Quoted(p.name) + (" ON " + (Quoted(p.table) + (" FOR " + (CommandWord(p.command)
            + (OptionalText(" USING (", p.using) + OptionalText(" WITH CHECK (", p.check)))))))
  {
    var using := match p.using case Some(clause) => " USING (" + clause + ")" case None => "";
    var check := match p.check case Some(clause) => " WITH CHECK (" + clause + ")" case None => "";
    assert "CREATE POLICY " + "\"" == "CREATE POLICY \"" && "\"" + " ON " + "\"" == "\" ON \"" && "\"" + " FOR " == "\" FOR ";
    Regroup("CREATE POLICY ", "\"", p.name, " ON ", p.table, " FOR ", CommandWord(p.command), using, check);
    hide CommandWord;
  }

  lemma Regroup(a: string, q: string, n: string, o: string, t: string, f: string, w: string, u: string, c: string)
    ensures (a + q) + n + (q + o + q) + t + (q + f) + w + u + c
         == a + ((q + n + q) + (o + ((q + t + q) + (f + (w + (u + c))))))
  {}

  lemma CommandReadsBack(command: Command, rest: string)
    ensures ReadCommand(CommandWord(command) + rest) == Some((command, rest))
  {
    var s := CommandWord(command) + rest;
    StripAppended(CommandWord(command), rest);
    match command
    case ForSelect => assert s[0] == 'S';
    case ForInsert => assert s[0] == 'I' && !("SELECT" <= s);
    case ForUpdate => assert s[0] == 'U' && !("SELECT" <= s) && !("INSERT" <= s);
    case ForDelete => assert s[0] == 'D' && !("SELECT" <= s) && !("INSERT" <= s) && !("UPDATE" <= s);
  }

  lemma OptionalReadsBackIff(keyword: string, clause: Option<string>, rest: string)
    requires clause.None? ==> !(keyword <= rest)
    ensures ReadOptional(OptionalText(keyword, clause) + rest, keyword) == Some((clause, rest)) <==> ClauseBalanced(clause)
  {
    var text := OptionalText(keyword, clause) + rest;
    match clause
    case None =>
      assert text == rest;
    case Some(c) =>
      assert text == keyword + (c + ")" + rest);
      StripAppended(keyword, c + ")" + rest);
      ClauseEndsIff(Code(0), c, rest);
  }

  lemma ClausesReadBackIff(using: Option<string>, check: Option<string>)
    ensures ReadClauses(OptionalText(" USING (", using) + OptionalText(" WITH CHECK (", check)) == Some((using, check)) <==>
      ClauseBalanced(using) && ClauseBalanced(check)
  {
    var last := OptionalText(" WITH CHECK (", check);
    assert !(" USING (" <= last) by {
      if check.Some? {
        assert last[1] == 'W';
      }
    }
    assert last + "" == last && !(" WITH CHECK (" <= "");
    OptionalReadsBackIff(" USING (", using, last);
    OptionalReadsBackIff(" WITH CHECK (", check, "");
    var text := OptionalText(" USING (", using) + last;
    if ReadClauses(text) == Some((using, check)) {
      ReadOptionalBalanced(text, " USING (");
      var (u, afterUsing) := ReadOptional(text, " USING (").value;
      ReadOptionalBalanced(afterUsing, " WITH CHECK (");
    }
    hide ReadOptional, OptionalText;
  }

  lemma ReadOptionalBalanced(s: string, keyword: string)
    requires ReadOptional(s, keyword).Some?
    ensures ClauseBalanced(ReadOptional(s, keyword).value.0)
  {
    if StripPrefix(s, keyword).Some? {
      ReadIsBalanced(Code(0), StripPrefix(s, keyword).value);
    }
  }

  lemma TargetReadsBack(name: string, table: string, rest: string)
    requires '\"' !in name && '\"' !in table
    ensures ReadTarget("CREATE POLICY " + (Quoted(name) + (" ON " + (Quoted(table) + (" FOR " + rest)))))
         == Some((name, table, rest))
  {
    hide ReadName, Quoted, StripPrefix;
    var afterTable := " FOR " + rest;
    var target := Quoted(table) + afterTable;
    StripAppended("CREATE POLICY ", Quoted(name) + (" ON " + target));
    NameReadsBack(name, " ON " + target);
    StripAppended(" ON ", target);
    NameReadsBack(table, afterTable);
    StripAppended(" FOR ", rest);
  }

  lemma TargetIsPlain(s: string)
    requires ReadTarget(s).Some?
    ensures '\"' !in ReadTarget(s).value.0 && '\"' !in ReadTarget(s).value.1
  {
    hide StripPrefix;
  }

  /**
   * For every policy: its statement reads back as that policy if and only if the names hold no double
   * quote and each clause is closed where its parenthesis is.
   */
  lemma PolicyReadsBackIff(p: Policy)
    ensures ReadPolicy(PolicySql(p)) == Some(p) <==>
      '\"' !in p.name && '\"' !in p.table && ClauseBalanced(p.using) && ClauseBalanced(p.check)
  {
    PolicyPieces(p);
    hide PolicySql, ReadTarget, ReadCommand, ReadClauses, ClauseBalanced, CommandWord, OptionalText, Quoted;
    var text := PolicySql(p);
    var clauses := OptionalText(" USING (", p.using) + OptionalText(" WITH CHECK (", p.check);
    if ReadPolicy(text) == Some(p) {
      TargetIsPlain(text);
    }
    if '\"' !in p.name && '\"' !in p.table {
      TargetReadsBack(p.name, p.table, CommandWord(p.command) + clauses);
      CommandReadsBack(p.command, clauses);
      ClausesReadBackIff(p.using, p.check);
    }
  }

  // ----- the clauses of rules are balanced --------------------------------------------------

  lemma {:induction false} AfterBoth(l: Lexer, a: string, b: string)
    ensures After(l, a + b) == After(After(l, a), b)
    decreases |a|
  {
    if a == "" {
      assert a + b == b;
    } else {
      assert (a + b)[0] == a[0] && (a + b)[1..] == a[1..] + b;
      AfterBoth(Step(l, a[0]), a[1..], b);
    }
  }

  /** The text leaves code at the depth it was at. */
  ghost predicate Neutral(s: string) {
    forall d :: After(Code(d), s) == Code(d)
  }

  lemma NeutralBalanced(s: string)
    requires Neutral(s)
    ensures Balanced(s)
  {}

  lemma NeutralBoth(a: string, b: string)
    requires Neutral(a) && Neutral(b)
    ensures Neutral(a + b)
  {
    forall d
      ensures After(Code(d), a + b) == Code(d)
    {
      AfterBoth(Code(d), a, b);
    }
  }

  predicate PlainCode(s: string) {
    forall i :: 0 <= i < |s| ==>
      s[i] != '\'' && s[i] != '\"' && s[i] != '/' && s[i] != '(' && s[i] != ')'
  }

  lemma {:induction false} PlainKeeps(d: nat, s: string)
    requires PlainCode(s)
    ensures After(Code(d), s) == Code(d)
    decreases |s|
  {
    if s != "" {
      PlainKeeps(d, s[1..]);
    }
  }

  lemma PlainNeutral(s: string)
    requires PlainCode(s)
    ensures Neutral(s)
  {
    forall d
      ensures After(Code(d), s) == Code(d)
    {
      PlainKeeps(d, s);
    }
  }

  lemma AfterChar(l: Lexer, c: char, s: string)
    ensures After(l, [c] + s) == After(Step(l, c), s)
  {
    assert ([c] + s)[1..] == s;
  }

  lemma NeutralParens(s: string)
    requires Neutral(s)
    ensures Neutral("(" + s + ")")
  {
    forall d: nat
      ensures After(Code(d), "(" + s + ")") == Code(d)
    {
      ParensKeep(d, s);
    }
  }

  lemma ParensKeep(d: nat, s: string)
    requires After(Code(d + 1), s) == Code(d + 1)
    ensures After(Code(d), "(" + s + ")") == Code(d)
  {
    AfterBoth(Code(d), "(" + s, ")");
    AfterChar(Code(d), '(', s);
    AfterChar(Code(d + 1), ')', "");
    assert ['('] + s == "(" + s && [')'] + "" == ")";
  }

  lemma {:induction false} DoubledKeeps(d: nat, s: string)
    ensures After(InString(d), Doubled(s)) == InString(d)
    decreases |s|
  {
    if s != "" {
      DoubledKeeps(d, s[1..]);
      if s[0] == '\'' {
        var rest := Doubled(s[1..]);
        assert Doubled(s) == ['\''] + (['\''] + rest);
        AfterChar(InString(d), '\'', ['\''] + rest);
        AfterChar(Code(d), '\'', rest);
      } else {
        AfterChar(InString(d), s[0], Doubled(s[1..]));
      }
    }
  }

  lemma StringNeutral(s: string)
    ensures Neutral("'" + Doubled(s) + "'")
  {
    forall d
      ensures After(Code(d), "'" + Doubled(s) + "'") == Code(d)
    {
      AfterBoth(Code(d), "'" + Doubled(s), "'");
      AfterChar(Code(d), '\'', Doubled(s));
      DoubledKeeps(d, s);
      AfterChar(InString(d), '\'', "");
      assert ['\''] == "'" && ['\''] + "" == ['\''];
    }
  }

  lemma {:induction false} NameKeeps(d: nat, s: string)
    requires '\"' !in s
    ensures After(InName(d), s) == InName(d)
    decreases |s|
  {
    if s != "" {
      NameKeeps(d, s[1..]);
      assert s[0] in s;
    }
  }

  lemma NameNeutral(s: string)
    requires '\"' !in s
    ensures Neutral(Quoted(s))
  {
    forall d
      ensures After(Code(d), Quoted(s)) == Code(d)
    {
      AfterBoth(Code(d), "\"" + s, "\"");
      AfterChar(Code(d), '\"', s);
      NameKeeps(d, s);
      AfterChar(InName(d), '\"', "");
      assert ['\"'] == "\"" && ['\"'] + "" == ['\"'];
    }
  }

  /** Inside a comment, perhaps behind a character that could begin a delimiter with the next one, but does not. */
  predicate Commenting(l: Lexer, n: nat, d: nat, next: string) {
    || l == InComment(n, d)
    || (l == CommentSlash(n, d) && !(next != "" && next[0] == '*'))
    || (l == CommentStar(n, d) && !(next != "" && next[0] == '/'))
  }

  lemma {:induction false} ContainedKeeps(l: Lexer, n: nat, d: nat, s: string)
    requires n >= 1 && Contained(s, n) && Commenting(l, n, d, s)
    ensures Commenting(After(l, s), 1, d, " */")
    decreases |s|
  {
    if s != "" {
      if OpensComment(s) {
        assert s[1..][1..] == s[2..] && s[1..][0] == '*';
        assert After(l, s) == After(Step(Step(l, s[0]), s[1]), s[2..]);
        ContainedKeeps(InComment(n + 1, d), n + 1, d, s[2..]);
      } else if ClosesComment(s) {
        assert s[1..][1..] == s[2..] && s[1..][0] == '/';
        assert After(l, s) == After(Step(Step(l, s[0]), s[1]), s[2..]);
        ContainedKeeps(InComment(n - 1, d), n - 1, d, s[2..]);
      } else {
        ContainedKeeps(Step(l, s[0]), n, d, s[1..]);
      }
    }
  }

  /** `false`, a note of plain words, a name that stays inside its comment, and the end of the comment. */
  lemma RefusalNeutral(words: string, name: string)
    requires Contained(words + name, 1)
    ensures Neutral("false /* " + (words + name) + " */")
  {
    forall d
      ensures After(Code(d), "false /* " + (words + name) + " */") == Code(d)
    {
      var note := words + name;
      assert PlainCode("false ");
      PlainKeeps(d, "false ");
      AfterBoth(Code(d), "false ", "/* ");
      assert "false " + "/* " == "false /* ";
      CommentOpens(d);
      AfterBoth(Code(d), "false /* ", note);
      ContainedKeeps(InComment(1, d), 1, d, note);
      AfterBoth(Code(d), "false /* " + note, " */");
      CommentCloses(After(InComment(1, d), note), d);
    }
  }

  lemma CommentOpens(d: nat)
    ensures After(Code(d), "/* ") == InComment(1, d)
  {
    AfterChar(Code(d), '/', "* ");
    AfterChar(Slash(d), '*', " ");
    AfterChar(InComment(1, d), ' ', "");
    assert ['/'] + "* " == "/* " && ['*'] + " " == "* " && [' '] + "" == " ";
  }

  lemma CommentCloses(l: Lexer, d: nat)
    requires Commenting(l, 1, d, " */")
    ensures After(l, " */") == Code(d)
  {
    AfterChar(l, ' ', "*/");
    AfterChar(InComment(1, d), '*', "/");
    AfterChar(CommentStar(1, d), '/', "");
    assert [' '] + "*/" == " */" && ['*'] + "/" == "*/" && ['/'] + "" == "/";
  }

  lemma CurrentUserNeutral()
    ensures Neutral(CurrentUser()) && Neutral(UserIsSetSql()) && Neutral(OwnerTestSql())
  {
    PlainPieces();
    CurrentUserPieces();
    CallNeutral("current_setting", "request.user_id", ", true");
    PlainNeutral(" IS NOT NULL");
    PlainNeutral("::text = ");
    hide Neutral, CurrentUser;
    NeutralBoth(CurrentUser(), " IS NOT NULL");
    NeutralBoth("::text = ", CurrentUser());
  }

  /** A call with a string for its first argument. */
  lemma CallNeutral(called: string, argument: string, more: string)
    requires PlainCode(called) && PlainCode(more) && '\'' !in argument
    ensures Neutral(called + ("(" + (("'" + argument + "'") + more) + ")"))
  {
    NoQuotes(argument);
    StringNeutral(argument);
    PlainNeutral(called);
    PlainNeutral(more);
    hide Neutral, PlainCode, Doubled;
    NeutralBoth("'" + argument + "'", more);
    NeutralParens(("'" + argument + "'") + more);
    NeutralBoth(called, "(" + (("'" + argument + "'") + more) + ")");
  }

  lemma PlainPieces()
    ensures PlainCode("current_setting") && PlainCode(", true") && '\'' !in "request.user_id"
  {}

  lemma CurrentUserPieces()
    ensures CurrentUser() == "current_setting" + ("(" + (("'" + "request.user_id" + "'") + ", true") + ")")
  {}

  lemma {:induction false} NoQuotes(s: string)
    requires '\'' !in s
    ensures Doubled(s) == s
  {
    if s != "" {
      NoQuotes(s[1..]);
      assert [s[0]] + s[1..] == s && s[0] in s;
    }
  }

  lemma LiteralNeutral(v: JsonValue)
    requires v.JsonNumber? ==> IsNumeral(v.lexeme)
    ensures Neutral(ValueToSqlLiteral(v))
  {
    match v
    case JsonString(s) => StringNeutral(s);
    case _ => PlainNeutral(ValueToSqlLiteral(v));
  }

  lemma FilterNeutral(column: string, v: JsonValue)
    requires '\"' !in column && (v.JsonNumber? ==> IsNumeral(v.lexeme))
    ensures Neutral(FilterToSql(column, v))
  {
    LiteralNeutral(v);
    NameNeutral(column);
    PlainNeutral(" = ");
    assert FilterToSql(column, v) == Quoted(column) + (" = " + ValueToSqlLiteral(v));
    hide Neutral, Quoted, FilterToSql, ValueToSqlLiteral;
    NeutralBoth(" = ", ValueToSqlLiteral(v));
    NeutralBoth(Quoted(column), " = " + ValueToSqlLiteral(v));
  }

  lemma {:induction false} JoinNeutral(parts: seq<string>, sep: string)
    requires Neutral(sep) && forall i :: 0 <= i < |parts| ==> Neutral(parts[i])
    ensures Neutral(Join(parts, sep))
  {
    hide Neutral;
    if parts == [] {
      PlainNeutral("");
    } else if |parts| > 1 {
      JoinNeutral(parts[1..], sep);
      NeutralBoth(parts[0], sep);
      NeutralBoth(parts[0] + sep, Join(parts[1..], sep));
    }
  }

  lemma ConditionNeutral(cond: AccessCondition, order: seq<string>)
    requires Walks(order, cond) && Printable(cond)
    ensures Neutral(ConditionToSql(cond, order))
  {
    hide Neutral;
    match cond
    case IsOwner(column) =>
      CurrentUserNeutral();
      NameNeutral(OwnerColumn(column));
      hide OwnerTestSql;
      NeutralBoth(Quoted(OwnerColumn(column)), OwnerTestSql());
    case IsAuthenticated => CurrentUserNeutral();
    case Where(None) => PlainNeutral("true");
    case Where(Some(filters)) => FiltersNeutral(filters, order);
    case UnknownCondition(other) => UnknownConditionNeutral(other);
  }

  lemma FiltersNeutral(filters: map<string, JsonValue>, order: seq<string>)
    requires var cond := Where(Some(filters)); Walks(order, cond) && Printable(cond)
    ensures Neutral(Join(FiltersToSql(filters, order), " AND "))
  {
    hide Neutral, FilterToSql;
    var parts := FiltersToSql(filters, order);
    forall i | 0 <= i < |parts|
      ensures Neutral(parts[i])
    {
      assert order[i] in order && order[i] in filters;
      FilterNeutral(order[i], filters[order[i]]);
    }
    PlainNeutral(" AND ");
    JoinNeutral(parts, " AND ");
  }

  lemma UnknownConditionNeutral(other: string)
    requires Contained(other, 1)
    ensures Neutral("false /* unknown condition: " + other + " */")
  {
    hide Neutral, Contained;
    PlainRefusalWords();
    PlainWordsContained("unknown condition: ", other);
    RefusalNeutral("unknown condition: ", other);
    assert "false /* unknown condition: " == "false /* " + "unknown condition: ";
    assert "false /* unknown condition: " + other == "false /* " + ("unknown condition: " + other);
  }

  lemma PlainWordsContained(words: string, name: string)
    requires Contained(name, 1)
    requires forall i :: 0 <= i < |words| ==> words[i] != '/' && words[i] != '*'
    ensures Contained(words + name, 1)
  {
    ContainedBehind(words, name, 1);
  }

  lemma NamedNeutral(name: string, orders: seq<seq<string>>)
    requires Contained(name, 1)
    ensures Neutral(AccessRuleToSql(Public(name), orders))
  {
    CurrentUserNeutral();
    PlainNeutral("true");
    NamedTexts(name, orders);
    hide *;
    PlainRefusalWords();
    PlainWordsContained("unknown rule: ", name);
    RefusalNeutral("unknown rule: ", name);
  }

  lemma NamedTexts(name: string, orders: seq<seq<string>>)
    ensures var text := AccessRuleToSql(Public(name), orders);
      text == "true" || text == UserIsSetSql() || text == "false /* " + ("unknown rule: " + name) + " */"
  {
    hide UserIsSetSql;
    if name != "public" && name != "authenticated" {
      UnknownRuleText(name);
      assert "false /* " + ("unknown rule: " + name) + " */" + "" == "false /* " + ("unknown rule: " + name) + " */";
    }
  }

  lemma PlainRefusalWords()
    ensures forall i :: 0 <= i < |"unknown rule: "| ==> "unknown rule: "[i] != '/' && "unknown rule: "[i] != '*'
    ensures forall i :: 0 <= i < |"unknown condition: "| ==> "unknown condition: "[i] != '/' && "unknown condition: "[i] != '*'
  {}

  lemma RuleNeutral(rule: AccessRule, orders: seq<seq<string>>)
    requires WalksRule(orders, rule) && QuotableRule(rule)
    ensures Neutral(AccessRuleToSql(rule, orders))
  {
    hide Neutral;
    match rule
    case Public(name) => NamedNeutral(name, orders);
    case Conditions(conditions) =>
      hide ConditionToSql;
      var parts := ConditionsToSql(conditions, orders);
      PlainNeutral("false");
      PlainNeutral(" OR ");
      forall i | 0 <= i < |parts|
        ensures Neutral(parts[i]) && Neutral(Parenthesised(parts)[i])
      {
        ConditionNeutral(conditions[i], orders[i]);
        NeutralParens(parts[i]);
      }
      JoinNeutral(Parenthesised(parts), " OR ");
  }

  // ----- whom the generated statements let through ------------------------------------------

  /** The statement reads back as a policy of that name on the table, with the clauses its command takes. */
  predicate ReadsAsPolicy(sql: string, name: string, t: string) {
    && ReadPolicy(sql).Some?
    && var p := ReadPolicy(sql).value;
       p.name == name && p.table == t && p.using.Some? == !p.command.ForInsert?
       && p.check.Some? == (p.command.ForInsert? || p.command.ForUpdate?)
  }

  /**
   * Whatever `generate_policies` returns for rules that can be judged: every statement reads back as a
   * policy on the table, there is one for each command with a rule, and a command passes its policy
   * exactly when the rule for it admits the rows it touches: for reading the rule for reading, for
   * inserting and updating the rule for writing, for deleting the rule for deleting.
   */
  lemma StatementsAdmitExactly(policies: seq<(string, string)>, t: string, access: Access, walked: Walked,
                               name: string, sql: string, before: Row, after: Row, user: Option<string>, same: Equality)
    requires WalksAccess(walked, access) && '\"' !in t
    requires forall command :: HasRule(access, command) ==> Judgeable(RuleFor(access, command).value)
    requires Lists(policies, t, access, {ForSelect, ForInsert, ForUpdate, ForDelete}, walked)
    requires (name, sql) in policies
    ensures ReadsAsPolicy(sql, name, t)
    ensures var p := ReadPolicy(sql).value;
      match p.command
      case ForSelect =>
        && access.read.Some? && name == "garance_select_" + t
        && (Passes(p, before, after, user, same) <==> Admits(access.read.value, before, user, same))
      case ForInsert =>
        && access.write.Some? && name == "garance_insert_" + t
        && (Passes(p, before, after, user, same) <==> Admits(access.write.value, after, user, same))
      case ForUpdate =>
        && access.write.Some? && name == "garance_update_" + t
        && (Passes(p, before, after, user, same) <==>
              Admits(access.write.value, before, user, same) && Admits(access.write.value, after, user, same))
      case ForDelete =>
        && access.delete.Some? && name == "garance_delete_" + t
        && (Passes(p, before, after, user, same) <==> Admits(access.delete.value, before, user, same))
  {
    hide Passes, Admits, PolicySql, AccessRuleToSql, ReadPolicy, Judgeable;
    var command :| HasRule(access, command) && (name, sql) == Listing(t, access, command, walked);
    ListingReadsBack(t, access, command, walked);
    PolicyAdmitsExactly(t, access, command, walked, before, after, user, same);
  }

  lemma ListingReadsBack(t: string, access: Access, command: Command, walked: Walked)
    requires WalksAccess(walked, access) && HasRule(access, command) && Judgeable(RuleFor(access, command).value)
    requires '\"' !in t
    ensures ReadPolicy(PolicySql(PolicyOf(t, access, command, walked))) == Some(PolicyOf(t, access, command, walked))
  {
    var p := PolicyOf(t, access, command, walked);
    PolicyReadsBackIff(p);
    PolicyNamePlain(command, t);
    var rule, orders := RuleFor(access, command).value, walked.For(command);
    hide PolicySql, ReadPolicy, AccessRuleToSql, PolicyName, QuotableRule, Balanced;
    RuleNeutral(rule, orders);
    NeutralBalanced(AccessRuleToSql(rule, orders));
  }

  lemma PolicyNamePlain(command: Command, t: string)
    requires '\"' !in t
    ensures '\"' !in PolicyName(command, t)
  {}

  /** For every command with a rule there is such a statement. */
  lemma EveryRuleHasItsStatement(policies: seq<(string, string)>, t: string, access: Access, walked: Walked, command: Command)
    returns (name: string, sql: string)
    requires WalksAccess(walked, access) && '\"' !in t
    requires forall c :: HasRule(access, c) ==> Judgeable(RuleFor(access, c).value)
    requires Lists(policies, t, access, {ForSelect, ForInsert, ForUpdate, ForDelete}, walked)
    requires match command case ForSelect => access.read.Some? case ForDelete => access.delete.Some? case _ => access.write.Some?
    ensures (name, sql) in policies && ReadPolicy(sql).Some? && ReadPolicy(sql).value.command == command
  {
    hide PolicySql, AccessRuleToSql, ReadPolicy, Judgeable;
    var listing := Listing(t, access, command, walked);
    name, sql := listing.0, listing.1;
    ListingReadsBack(t, access, command, walked);
  }
}
