/** Plans read statement by statement: types, names, order and counters, each in its own words. */
module PlanShape {
  import opened Wrappers
  import opened Text
  import opened Normalize
  import opened Schema
  import opened Catalogue
  import opened Plan
  import opened Planner

  // ----- types ------------------------------------------------------------------------------

  /**
   * A new table's column of type `serial` or `bigserial`: every plan creates the table with that
   * column as `int4` or `int8`.
   */
  lemma SerialColumns(desired: DesiredSchema, current: CurrentSchema, p: seq<Statement>, t: string, c: string)
    returns (s: Statement)
    requires IsPlan(desired, current, p) && t in desired && t !in current && c in desired[t].columns
    ensures s in p && s.CreateTable? && s.table == t && c in s.columns
    ensures var declared := Lower(Trim(desired[t].columns[c].colType));
      && (declared == "serial" ==> s.columns[c].sqlType == "int4")
      && (declared == "bigserial" ==> s.columns[c].sqlType == "int8")
  {
    hide NormalizeType, InBucketOrder, NoDuplicates, Lower, Trim;
    s := CreateTableFor(t, desired[t]);
    assert Planned(desired, current, s);
    TypeSpellings(desired[t].columns[c].colType);
  }

  /** Where they exist as `int4` or `int8` already, no plan changes their type. */
  lemma SerialColumnsStay(desired: DesiredSchema, current: CurrentSchema, p: seq<Statement>, t: string, c: string, sqlType: string)
    requires IsPlan(desired, current, p) && t in desired && t in current && c in desired[t].columns
    requires HasColumn(current[t], c)
    requires var declared, have := Lower(Trim(desired[t].columns[c].colType)), ColumnNamed(current[t].columns, c).value.dataType;
      (declared == "serial" && have == FromPg("int4")) || (declared == "bigserial" && have == FromPg("int8"))
    ensures AlterColumnType(t, c, sqlType) !in p
  {
    hide NormalizeType, InBucketOrder, NoDuplicates, Lower, Trim, FromPg, Canonical, DefaultDiffers;
    TypeSpellings(desired[t].columns[c].colType);
    CatalogueSpellings("int4");
    CatalogueSpellings("int8");
    CanonicalTypes(Int4);
    CanonicalTypes(Int8);
    assert !TypeDiffers(desired[t].columns[c], ColumnNamed(current[t].columns, c).value);
  }

  // ----- policies ---------------------------------------------------------------------------

  /**
   * A table with access rules gets a policy for reading exactly with a rule for reading, policies for
   * inserting and updating exactly with a rule for writing, and one for deleting exactly with a rule
   * for deleting.
   */
  lemma PolicyStatements(desired: DesiredSchema, current: CurrentSchema, t: string, n: string)
    requires t in desired && desired[t].access.Some?
    ensures var access := desired[t].access.value;
      && (Planned(desired, current, CreatePolicy(t, n, ForSelect)) <==> access.read.Some? && n == "garance_select_" + t)
      && (Planned(desired, current, CreatePolicy(t, n, ForInsert)) <==> access.write.Some? && n == "garance_insert_" + t)
      && (Planned(desired, current, CreatePolicy(t, n, ForUpdate)) <==> access.write.Some? && n == "garance_update_" + t)
      && (Planned(desired, current, CreatePolicy(t, n, ForDelete)) <==> access.delete.Some? && n == "garance_delete_" + t)
  {
    hide PolicyName;
    NamesOfPolicies(t);
  }

  lemma NamesOfPolicies(t: string)
    ensures PolicyName(ForSelect, t) == "garance_select_" + t && PolicyName(ForInsert, t) == "garance_insert_" + t
    ensures PolicyName(ForUpdate, t) == "garance_update_" + t && PolicyName(ForDelete, t) == "garance_delete_" + t
  {}

  /** And policies under all four names are dropped. */
  lemma PolicyDrops(desired: DesiredSchema, current: CurrentSchema, t: string, n: string)
    requires t in desired && desired[t].access.Some?
    ensures Planned(desired, current, DropPolicy(t, n)) <==>
      n == "garance_select_" + t || n == "garance_insert_" + t || n == "garance_update_" + t || n == "garance_delete_" + t
  {
    hide PolicyName;
    NamesOfPolicies(t);
    if n == "garance_select_" + t {
      assert n == PolicyName(ForSelect, t);
    } else if n == "garance_insert_" + t {
      assert n == PolicyName(ForInsert, t);
    } else if n == "garance_update_" + t {
      assert n == PolicyName(ForUpdate, t);
    } else if n == "garance_delete_" + t {
      assert n == PolicyName(ForDelete, t);
    }
    if Planned(desired, current, DropPolicy(t, n)) {
      var command :| n == PolicyName(command, t);
      assert command.ForSelect? || command.ForInsert? || command.ForUpdate? || command.ForDelete?;
    }
  }

  /** UNIQUE constraints and row security are for new tables: one for every UNIQUE column outside the primary key. */
  lemma NewTablesOnly(desired: DesiredSchema, current: CurrentSchema, t: string, n: string, c: string)
    ensures Planned(desired, current, AddUnique(t, n, c)) <==>
      && t in desired && t !in current && c in desired[t].columns
      && desired[t].columns[c].unique && !desired[t].columns[c].primaryKey && n == t + "_" + c + "_key"
    ensures Planned(desired, current, EnableRls(t)) <==> t in desired && t !in current
    ensures Planned(desired, current, ForceRls(t)) <==> t in desired && t !in current
  {}

  // ----- order ------------------------------------------------------------------------------

  /** The turn of each kind of statement, from creating tables to dropping them. */
  function Turn(s: Statement): nat {
    match s
    case CreateTable(_, _, _) => 1
    case EnableRls(_) => 2
    case ForceRls(_) => 2
    case AddColumn(_, _, _) => 3
    case DropNotNull(_, _) => 4
    case AlterColumnType(_, _, _) => 5
    case SetDefault(_, _, _) => 6
    case DropDefault(_, _) => 7
    case SetNotNull(_, _) => 8
    case AddForeignKey(_, _, _, _, _) => 9
    case AddUnique(_, _, _) => 10
    case CreatePolicy(_, _, _) => 11
    case DropIndex(_) => 12
    case DropPolicy(_, _) => 13
    case DropConstraint(_, _) => 14
    case DropColumn(_, _) => 15
    case DropTable(_) => 16
  }

  /** No statement of a plan stands before one whose kind has an earlier turn. */
  lemma PlansTakeTurns(desired: DesiredSchema, current: CurrentSchema, p: seq<Statement>, i: nat, j: nat)
    requires IsPlan(desired, current, p) && i < j < |p|
    ensures Turn(p[i]) <= Turn(p[j])
  {
    RankTells(p[i]);
    RankTells(p[j]);
    hide StatementRank, Turn, Planned;
    assert StatementRank(p[i]) <= StatementRank(p[j]);
  }

  /** There are two buckets without statements: for creating indexes, and for dropping UNIQUE constraints. */
  lemma RankTells(s: Statement)
    ensures var r := StatementRank(s);
      Turn(s) == if r < 11 then r + 1 else if r == 12 then 12 else r - 1
    ensures StatementRank(s) != 11 && StatementRank(s) != 13 && StatementRank(s) < 18
  {}

  // ----- names and counters -----------------------------------------------------------------

  /** The names a plan gives, on an example. */
  lemma GeneratedNames()
    ensures ForeignKeyName("posts", "author") == "fk_posts_author"
    ensures UniqueName("posts", "slug") == "posts_slug_key"
  {
    assert "fk_" + "posts" + "_" + "author" == "fk_posts_author";
    assert "posts" + "_" + "slug" + "_key" == "posts_slug_key";
  }

  /** The plan has a statement that changes the type or the nullability of the column. */
  ghost predicate Reshapes(p: seq<Statement>, cell: Cell) {
    exists s :: s in p && (s.AlterColumnType? || s.DropNotNull? || s.SetNotNull?) && s.table == cell.table && s.column == cell.name
  }

  /** The plan has a statement that sets or drops the default of the column. */
  ghost predicate Redefaults(p: seq<Statement>, cell: Cell) {
    exists s :: s in p && (s.SetDefault? || s.DropDefault?) && s.table == cell.table && s.column == cell.name
  }

  /**
   * `columns_modified` is the number of columns whose type or nullability the plan changes, whatever
   * number of statements that takes, plus the number of those whose default it changes.
   */
  lemma ModifiedColumns(desired: DesiredSchema, current: CurrentSchema, p: seq<Statement>, counters: map<Counter, nat>)
    returns (shapes: set<Cell>, defaults: set<Cell>)
    requires IsPlan(desired, current, p) && SummaryCounts(desired, current, p, counters)
    ensures counters[ColumnsModified] == |shapes| + |defaults|
    ensures forall cell :: cell in shapes <==> Reshapes(p, cell)
    ensures forall cell :: cell in defaults <==> Redefaults(p, cell)
  {
    shapes, defaults :|
      ChangedIn(desired, current, desired.Keys * current.Keys, shapes, defaults) &&
      counters[ColumnsModified] == |shapes| + |defaults|;
    forall cell
      ensures cell in shapes <==> Reshapes(p, cell)
      ensures cell in defaults <==> Redefaults(p, cell)
    {
      ShapeChangesIff(desired, current, p, cell);
      DefaultChangesIff(desired, current, p, cell);
      hide ShapeChanges, DefaultChanges, Reshapes, Redefaults, IsPlan;
    }
  }

  lemma ShapeChangesIff(desired: DesiredSchema, current: CurrentSchema, p: seq<Statement>, cell: Cell)
    requires IsPlan(desired, current, p)
    ensures ShapeChanges(desired, current, cell) <==> Reshapes(p, cell)
    ensures Reshapes(p, cell) ==> cell.table in desired && cell.table in current
  {
    hide TypeDiffers, DefaultDiffers, InBucketOrder, NoDuplicates, NormalizeType;
    var t, c := cell.table, cell.name;
    if ShapeChanges(desired, current, cell) {
      var want, have := desired[t].columns[c], ColumnNamed(current[t].columns, c).value;
      if TypeDiffers(want, have) {
        assert Planned(desired, current, AlterTypeFor(t, c, want));
      } else if want.nullable {
        assert Planned(desired, current, DropNotNull(t, c));
      } else {
        assert Planned(desired, current, SetNotNull(t, c));
      }
    }
  }

  lemma DefaultChangesIff(desired: DesiredSchema, current: CurrentSchema, p: seq<Statement>, cell: Cell)
    requires IsPlan(desired, current, p)
    ensures DefaultChanges(desired, current, cell) <==> Redefaults(p, cell)
    ensures Redefaults(p, cell) ==> cell.table in desired && cell.table in current
  {
    hide TypeDiffers, DefaultDiffers, InBucketOrder, NoDuplicates, NormalizeType;
    var t, c := cell.table, cell.name;
    if DefaultChanges(desired, current, cell) {
      match desired[t].columns[c].default
      case Some(e) => assert Planned(desired, current, SetDefault(t, c, e));
      case None => assert Planned(desired, current, DropDefault(t, c));
    }
  }

  /** What each counter of a summary counts. */
  lemma CountersCount(desired: DesiredSchema, current: CurrentSchema, p: seq<Statement>, counters: map<Counter, nat>)
    requires SummaryCounts(desired, current, p, counters)
    ensures counters[TablesCreated] == |set s | s in p && s.CreateTable?|
    ensures counters[TablesDropped] == |set s | s in p && s.DropTable?|
    ensures counters[ColumnsAdded] == |set s | s in p && s.AddColumn?|
    ensures counters[ColumnsDropped] == |set s | s in p && s.DropColumn?|
    ensures counters[ForeignKeysAdded] == |set s | s in p && s.AddForeignKey?|
    ensures counters[ForeignKeysDropped] == |set s | s in p && s.DropConstraint?|
    ensures counters[PoliciesCreated] == |set s | s in p && s.CreatePolicy?|
    ensures counters[PoliciesDropped] == |set s | s in p && s.DropPolicy?|
    ensures counters[IndexesDropped] == |set s | s in p && s.DropIndex?| && counters[IndexesCreated] == 0
    ensures 2 * counters[RlsEnabled] == |set s | s in p && (s.EnableRls? || s.ForceRls?)|
  {
    hide ChangedIn;
    Buckets(p);
    hide InBucket;
  }

  lemma Buckets(p: seq<Statement>)
    ensures InBucket(p, CreateTables) == set s | s in p && s.CreateTable?
    ensures InBucket(p, DropTables) == set s | s in p && s.DropTable?
    ensures InBucket(p, AddColumns) == set s | s in p && s.AddColumn?
    ensures InBucket(p, DropColumns) == set s | s in p && s.DropColumn?
    ensures InBucket(p, AddFks) == set s | s in p && s.AddForeignKey?
    ensures InBucket(p, DropFks) == set s | s in p && s.DropConstraint?
    ensures InBucket(p, CreatePolicies) == set s | s in p && s.CreatePolicy?
    ensures InBucket(p, DropPolicies) == set s | s in p && s.DropPolicy?
    ensures InBucket(p, DropIndexes) == set s | s in p && s.DropIndex?
    ensures InBucket(p, CreateIndexes) == {}
    ensures InBucket(p, RowSecurity) == set s | s in p && (s.EnableRls? || s.ForceRls?)
  {
  }
}
