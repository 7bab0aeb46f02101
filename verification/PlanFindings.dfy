/** Migrations that fail or do not do what they seem to: the families the exact conditions shut out. */
module PlanFindings {
  import opened Wrappers
  import opened Normalize
  import opened Schema
  import opened Catalogue
  import opened Plan
  import opened PlanRun
  import opened PlanOutcome
  import opened Convergence
  import opened WellFormedRuns

  /**
   * A relation whose foreign key column is in the other table, as `hasMany` and `hasOne` relations
   * are written, makes every plan fail: `add_fks_from_relations` does not look at the relation's type.
   */
  lemma ForeignColumnBlocks(desired: DesiredSchema, current: CurrentSchema, cat: Catalogue, p: seq<Statement>,
                            t: string, r: string)
    requires Inputs(desired, current, cat) && IsPlan(desired, current, p)
    requires t in desired && r in desired[t].relations
    requires desired[t].relations[r].foreignKey !in desired[t].columns
    requires Cell(t, desired[t].relations[r].foreignKey) !in cat.columns
    ensures Run(cat, p).None?
  {
    hide *;
    InputsResolve(desired, current, cat);
    PlanRunsIffUnblocked(desired, current, cat, p);
    NotRealised(cat, t, desired[t].relations[r]);
    NoColumnToAdd(desired, cat, t, r);
    UnaddableBlocks(desired, cat, t, r);
  }

  /** Foreign keys of the catalogue are on columns that exist. */
  lemma NotRealised(cat: Catalogue, t: string, rel: Relation)
    requires WellFormed(cat) && Cell(t, rel.foreignKey) !in cat.columns
    ensures !AlreadyRealised(cat, t, rel)
  {
    assert forall cell :: cell in cat.constraints && cat.constraints[cell].References? ==>
      SingleColumn(cat, cell.table, cat.constraints[cell]);
  }

  lemma NoColumnToAdd(desired: DesiredSchema, cat: Catalogue, t: string, r: string)
    requires RelationsResolve(desired) && t in desired && r in desired[t].relations
    requires desired[t].relations[r].foreignKey !in desired[t].columns
    requires Cell(t, desired[t].relations[r].foreignKey) !in cat.columns
    ensures !Addable(desired, cat, t, r)
  {
    hide HasKey, ForeignKeyName;
  }

  lemma UnaddableBlocks(desired: DesiredSchema, cat: Catalogue, t: string, r: string)
    requires RelationsResolve(desired) && t in desired && r in desired[t].relations
    requires !AlreadyRealised(cat, t, desired[t].relations[r]) && !Addable(desired, cat, t, r)
    ensures !Unblocked(desired, cat)
  {
    hide RelationsResolve, AlreadyRealised, Addable, KeysKeepShape, UniqueNamesFree, PoliciesFree, DroppedTablesLackUnique;
  }

  const KEY_COLUMN := DesiredColumn("uuid", true, false, false, None)
  const PLAIN_COLUMN := DesiredColumn("uuid", false, false, false, None)

  /** Two tables with a one-to-many relation written on the side of the one. */
  function HasManySchema(): DesiredSchema {
    map["users" := DesiredTable(map["id" := KEY_COLUMN], map["posts" := Relation("hasMany", "posts", "author_id")], None),
        "posts" := DesiredTable(map["id" := KEY_COLUMN, "author_id" := PLAIN_COLUMN], map[], None)]
  }

  function EmptyCatalogue(shown: Rendering): Catalogue {
    Catalogue({}, map[], map[], map[], map[], {}, {}, {}, shown)
  }

  /** From an empty database, no plan for this schema runs. */
  lemma HasManyExample(p: seq<Statement>, shown: Rendering)
    requires IsPlan(HasManySchema(), map[], p)
    ensures Run(EmptyCatalogue(shown), p).None?
  {
    var desired := HasManySchema();
    assert "users" in desired && "posts" in desired["users"].relations;
    assert desired["users"].relations["posts"].foreignKey == "author_id" && "author_id" !in desired["users"].columns;
    assert RelationsResolve(desired);
    hide IsPlan, Run;
    assert Inputs(desired, map[], EmptyCatalogue(shown));
    ForeignColumnBlocks(desired, map[], EmptyCatalogue(shown), p, "users", "posts");
  }

  /** Dropping a table that has a UNIQUE constraint fails: the plan drops the constraint's index first. */
  lemma DroppedUniqueBlocks(desired: DesiredSchema, current: CurrentSchema, cat: Catalogue, p: seq<Statement>, cell: Cell)
    requires Inputs(desired, current, cat) && IsPlan(desired, current, p)
    requires cell in cat.constraints && cat.constraints[cell].Unique? && cell.table !in desired
    ensures Run(cat, p).None?
  {
    PlanRunsIffUnblocked(desired, current, cat, p);
    hide IsPlan, Run, Reached, KeysKeepShape, ForeignKeysAddable, UniqueNamesFree, PoliciesFree, Inputs;
  }

  /** A relation to a new table whose `id` is not its whole primary key makes every plan fail. */
  lemma UniqueTargetBlocks(desired: DesiredSchema, current: CurrentSchema, cat: Catalogue, p: seq<Statement>,
                           t: string, r: string)
    requires Inputs(desired, current, cat) && IsPlan(desired, current, p)
    requires t in desired && r in desired[t].relations
    requires desired[t].relations[r].table !in cat.tables
    requires PrimaryKeyOf(desired[desired[t].relations[r].table]) != {"id"}
    requires !AlreadyRealised(cat, t, desired[t].relations[r])
    ensures Run(cat, p).None?
  {
    PlanRunsIffUnblocked(desired, current, cat, p);
    hide IsPlan, Run, Reached, KeysKeepShape, UniqueNamesFree, PoliciesFree, DroppedTablesLackUnique, Inputs;
    assert !Addable(desired, cat, t, r);
  }

  /** After any plan, a table with access rules is left without a single policy for them. */
  lemma GeneratedPoliciesAreGone(desired: DesiredSchema, current: CurrentSchema, cat: Catalogue, p: seq<Statement>,
                                 st: Catalogue, t: string, command: Command)
    requires Outcome(desired, current, cat, p, st) && t in desired && desired[t].access.Some?
    ensures Cell(t, PolicyName(command, t)) !in st.policies
  {
    OutcomeExecuted(desired, current, cat, p, st);
    hide Outcome, Executed, PolicyName;
    FinalPolicies(desired, current, cat, Elements(p), st, Cell(t, PolicyName(command, t)));
  }

  /**
   * A primary-key column of a new table that is declared nullable: once the first plan has run, every
   * plan made from a reading of what it left fails, on a DROP NOT NULL the key forbids.
   */
  lemma NullableKeyBlocksNextPlan(desired: DesiredSchema, current: CurrentSchema, cat: Catalogue, p: seq<Statement>,
                                  st: Catalogue, again: CurrentSchema, q: seq<Statement>, t: string, c: string)
    requires Outcome(desired, current, cat, p, st)
    requires t in desired && t !in cat.tables && c in desired[t].columns
    requires desired[t].columns[c].primaryKey && desired[t].columns[c].nullable
    requires Describes(again, st) && IsPlan(desired, again, q)
    ensures Run(st, q).None?
  {
    OutcomeIsInput(desired, current, cat, p, st, again);
    OutcomeExecuted(desired, current, cat, p, st);
    PlanRunsIffUnblocked(desired, again, st, q);
    hide Outcome, Executed, IsPlan, Run, Reached, ForeignKeysAddable, UniqueNamesFree, PoliciesFree, DroppedTablesLackUnique;
    hide Describes, RelationsResolve, NormalizeType, Canonical, FromPg;
    NewTables(desired, current, cat, Elements(p), st, t);
    assert c in PrimaryKeyOf(desired[t]);
    assert InKey(st, t, c) && t in st.tables && Cell(t, c) in st.columns;
    assert !KeyColumnKept(st, desired[t].columns[c], st.columns[Cell(t, c)]);
  }

  /**
   * A column of a created or altered type that PostgreSQL reports under another name, such as one
   * with a modifier: every further planning emits the same change of type again.
   */
  lemma ForeignNameNeverSettles(desired: DesiredSchema, current: CurrentSchema, cat: Catalogue, p: seq<Statement>,
                                st: Catalogue, again: CurrentSchema, t: string, c: string)
    requires Outcome(desired, current, cat, p, st) && Describes(again, st)
    requires t in desired && c in desired[t].columns && !TypeSettles(desired, cat, Cell(t, c))
    ensures Planned(desired, again, AlterTypeFor(t, c, desired[t].columns[c]))
  {
    hide *;
    OutcomeExecuted(desired, current, cat, p, st);
    FinalTables(desired, current, cat, Elements(p), st);
    FinalColumns(desired, current, cat, Elements(p), st, Cell(t, c));
    IsWanted(desired, t, c);
    FinalTypeUnsettled(desired, cat, Cell(t, c));
    TypePlanned(desired, again, st, t, c);
  }

  lemma IsWanted(desired: DesiredSchema, t: string, c: string)
    ensures Wanted(desired, Cell(t, c)) <==> t in desired && c in desired[t].columns
  {}

  lemma FinalTypeUnsettled(desired: DesiredSchema, cat: Catalogue, cell: Cell)
    requires Wanted(desired, cell) && !TypeSettles(desired, cat, cell)
    ensures cell.table in desired && cell.name in desired[cell.table].columns
    ensures Canonical(FromPg(cat.shown.udtOf(FinalColumn(desired, cat, cell).sqlType)))
         != NormalizeType(desired[cell.table].columns[cell.name].colType)
  {
    hide NormalizeType, Canonical, FromPg, NormalizeDefaultOption;
  }

  lemma TypePlanned(desired: DesiredSchema, again: CurrentSchema, st: Catalogue, t: string, c: string)
    requires Describes(again, st) && t in desired && t in st.tables && c in desired[t].columns && Cell(t, c) in st.columns
    requires Canonical(FromPg(st.shown.udtOf(st.columns[Cell(t, c)].sqlType))) != NormalizeType(desired[t].columns[c].colType)
    ensures Planned(desired, again, AlterTypeFor(t, c, desired[t].columns[c]))
  {
    hide NormalizeType, Canonical, FromPg, DescribesForeignKeys, DescribesIndexes;
  }

  /** `varchar(255)` is such a type: PostgreSQL reports `varchar`. */
  lemma VarcharDoesNotReadBack(udtOf: string -> string)
    requires udtOf("varchar(255)") == "varchar"
    ensures !ReadsBackAs(udtOf, "varchar(255)")
  {
    hide *;
    VarcharNames();
    NotReadBack(udtOf, "varchar(255)");
  }

  lemma NotReadBack(udtOf: string -> string, colType: string)
    requires Canonical(FromPg(udtOf(NormalizeType(colType)))) != NormalizeType(colType)
    ensures !ReadsBackAs(udtOf, colType)
  {
    hide NormalizeType, Canonical, FromPg;
  }

  function DefaultFor(t: string, c: string, want: DesiredColumn): Statement {
    match want.default case Some(e) => SetDefault(t, c, e) case None => DropDefault(t, c)
  }

  /**
   * A default that PostgreSQL reports as another expression: every further planning sets, or drops,
   * it again.
   */
  lemma DefaultNeverSettles(desired: DesiredSchema, current: CurrentSchema, cat: Catalogue, p: seq<Statement>,
                            st: Catalogue, again: CurrentSchema, t: string, c: string)
    requires Outcome(desired, current, cat, p, st) && Describes(again, st)
    requires t in desired && c in desired[t].columns && !DefaultSettles(desired, cat, Cell(t, c))
    ensures Planned(desired, again, DefaultFor(t, c, desired[t].columns[c]))
  {
    hide *;
    OutcomeExecuted(desired, current, cat, p, st);
    FinalTables(desired, current, cat, Elements(p), st);
    FinalColumns(desired, current, cat, Elements(p), st, Cell(t, c));
    IsWanted(desired, t, c);
    FinalDefaultUnsettled(desired, cat, Cell(t, c));
    DefaultPlanned(desired, again, st, t, c);
  }

  lemma FinalDefaultUnsettled(desired: DesiredSchema, cat: Catalogue, cell: Cell)
    requires Wanted(desired, cell) && !DefaultSettles(desired, cat, cell)
    ensures cell.table in desired && cell.name in desired[cell.table].columns
    ensures var last := FinalColumn(desired, cat, cell);
      !ShowsDefault(cat.shown, last.sqlType, last.default, desired[cell.table].columns[cell.name].default)
  {
    hide NormalizeType, Canonical, FromPg, ShowsDefault;
  }

  lemma DefaultPlanned(desired: DesiredSchema, again: CurrentSchema, st: Catalogue, t: string, c: string)
    requires Describes(again, st) && t in desired && t in st.tables && c in desired[t].columns && Cell(t, c) in st.columns
    requires var have := st.columns[Cell(t, c)];
      !ShowsDefault(st.shown, have.sqlType, have.default, desired[t].columns[c].default)
    ensures Planned(desired, again, DefaultFor(t, c, desired[t].columns[c]))
  {
    hide NormalizeType, Canonical, FromPg, NormalizeDefault, DescribesForeignKeys, DescribesIndexes;
  }

  /** A string default of a text column is such a default: PostgreSQL adds a cast. */
  lemma StringDefaultIsRecast(shown: Rendering)
    requires shown.defaultOf("text", Some("'draft'")) == Some("'draft'::text")
    ensures !ShowsDefault(shown, "text", Some("'draft'"), Some("'draft'"))
  {
    hide NormalizeDefault;
    KeptDefault("'draft'");
    KeptDefault("'draft'::text");
    assert |"'draft'"| != |"'draft'::text"|;
  }

  // ----- concrete inputs --------------------------------------------------------------------

  lemma EmptyIsInput(desired: DesiredSchema, shown: Rendering)
    requires RelationsResolve(desired)
    ensures Inputs(desired, map[], EmptyCatalogue(shown))
  {}

  /** From an empty database every plan for tables without relations and UNIQUE columns runs. */
  lemma PlainTablesRun(desired: DesiredSchema, p: seq<Statement>, shown: Rendering)
    requires forall t :: t in desired ==> desired[t].relations == map[]
    requires forall t, c :: t in desired && c in desired[t].columns ==> !desired[t].columns[c].unique
    requires IsPlan(desired, map[], p)
    ensures Run(EmptyCatalogue(shown), p).Some?
    ensures Outcome(desired, map[], EmptyCatalogue(shown), p, Run(EmptyCatalogue(shown), p).value)
  {
    EmptyIsInput(desired, shown);
    assert Unblocked(desired, EmptyCatalogue(shown)) by {
      hide NormalizeType, IsPlan, Run;
    }
    hide Inputs, Unblocked, IsPlan, Run, Reached;
    PlanRunsIffUnblocked(desired, map[], EmptyCatalogue(shown), p);
  }

  const READABLE: Access := Access(Some(Public("public")), None, None)

  /** One table that everybody may read. */
  function PublicSchema(): DesiredSchema {
    map["posts" := DesiredTable(map["id" := KEY_COLUMN], map[], Some(READABLE))]
  }

  /** From an empty database the plan runs, and leaves no policy that lets anybody read. */
  lemma PublicExample(p: seq<Statement>, shown: Rendering)
    requires IsPlan(PublicSchema(), map[], p)
    ensures Run(EmptyCatalogue(shown), p).Some?
    ensures Cell("posts", PolicyName(ForSelect, "posts")) !in Run(EmptyCatalogue(shown), p).value.policies
  {
    PlainTablesRun(PublicSchema(), p, shown);
    hide IsPlan, Run, Outcome;
    GeneratedPoliciesAreGone(PublicSchema(), map[], EmptyCatalogue(shown), p, Run(EmptyCatalogue(shown), p).value,
                             "posts", ForSelect);
  }

  /** One table whose primary key is called nullable. */
  function NullableKeySchema(): DesiredSchema {
    map["posts" := DesiredTable(map["id" := KEY_COLUMN.(nullable := true)], map[], None)]
  }

  /** From an empty database the first plan runs, and the next one fails. */
  lemma NullableKeyExample(p: seq<Statement>, again: CurrentSchema, q: seq<Statement>, shown: Rendering)
    requires IsPlan(NullableKeySchema(), map[], p)
    ensures Run(EmptyCatalogue(shown), p).Some?
    ensures Describes(again, Run(EmptyCatalogue(shown), p).value) && IsPlan(NullableKeySchema(), again, q) ==>
      Run(Run(EmptyCatalogue(shown), p).value, q).None?
  {
    PlainTablesRun(NullableKeySchema(), p, shown);
    hide IsPlan, Run, Outcome, Describes;
    var st := Run(EmptyCatalogue(shown), p).value;
    if Describes(again, st) && IsPlan(NullableKeySchema(), again, q) {
      NullableKeyBlocksNextPlan(NullableKeySchema(), map[], EmptyCatalogue(shown), p, st, again, q, "posts", "id");
    }
  }

  /** One table with a string for a default. */
  function DraftSchema(): DesiredSchema {
    map["posts" := DesiredTable(map["status" := DesiredColumn("text", false, false, false, Some("'draft'"))], map[], None)]
  }

  /** From an empty database the plan runs, and planning again sets the default once more. */
  lemma DraftExample(p: seq<Statement>, again: CurrentSchema, shown: Rendering)
    requires shown.defaultOf("text", Some("'draft'")) == Some("'draft'::text")
    requires IsPlan(DraftSchema(), map[], p)
    ensures Run(EmptyCatalogue(shown), p).Some?
    ensures Describes(again, Run(EmptyCatalogue(shown), p).value) ==>
      Planned(DraftSchema(), again, SetDefault("posts", "status", "'draft'"))
  {
    var desired, cat := DraftSchema(), EmptyCatalogue(shown);
    PlainTablesRun(desired, p, shown);
    DraftUnsettled(shown);
    var st := Run(cat, p).value;
    hide IsPlan, Run, Outcome, Describes, Planned, DefaultSettles;
    if Describes(again, st) {
      DefaultNeverSettles(desired, map[], cat, p, st, again, "posts", "status");
    }
  }

  lemma DraftUnsettled(shown: Rendering)
    requires shown.defaultOf("text", Some("'draft'")) == Some("'draft'::text")
    ensures Wanted(DraftSchema(), Cell("posts", "status"))
    ensures !DefaultSettles(DraftSchema(), EmptyCatalogue(shown), Cell("posts", "status"))
  {
    StringDefaultIsRecast(shown);
    TextTypeKept();
    var cell := Cell("posts", "status");
    var want := DraftSchema()[cell.table].columns[cell.name];
    assert want.colType == "text" && want.default == Some("'draft'");
    hide NormalizeType, ShowsDefault, DraftSchema, DefaultSettles;
    NewDefaultSettles(DraftSchema(), EmptyCatalogue(shown), cell);
  }

  /** The default of a new column settles exactly if it is reported as it was written. */
  lemma NewDefaultSettles(desired: DesiredSchema, cat: Catalogue, cell: Cell)
    requires Wanted(desired, cell) && cell !in cat.columns
    ensures var want := desired[cell.table].columns[cell.name];
      DefaultSettles(desired, cat, cell) <==>
      ShowsDefault(cat.shown, NormalizeType(want.colType), want.default, want.default)
  {
    hide NormalizeType, Canonical, FromPg, ShowsDefault;
  }

  /** A database with one table, whose only column is UNIQUE. */
  function UniqueCatalogue(shown: Rendering): Catalogue {
    Catalogue({"posts"}, map[Cell("posts", "slug") := CatColumn("text", false, None)], map[],
              map[Cell("posts", "posts_slug_key") := Unique(["slug"])], map[], {}, {}, {}, shown)
  }

  /** No plan can drop that table. */
  lemma DroppedUniqueExample(current: CurrentSchema, p: seq<Statement>, shown: Rendering)
    requires Describes(current, UniqueCatalogue(shown)) && IsPlan(map[], current, p)
    ensures Run(UniqueCatalogue(shown), p).None?
  {
    var cat := UniqueCatalogue(shown);
    assert WellFormed(cat) && RelationsResolve(map[]) by {
      hide Describes, IsPlan, Run;
    }
    hide WellFormed, Describes, IsPlan, Run;
    DroppedUniqueBlocks(map[], current, cat, p, Cell("posts", "posts_slug_key"));
  }

  /** A relation to a table whose `id` is UNIQUE but not the primary key. */
  function UniqueTargetSchema(): DesiredSchema {
    map["users" := DesiredTable(map["key" := KEY_COLUMN, "id" := PLAIN_COLUMN.(unique := true)], map[], None),
        "posts" := DesiredTable(map["id" := KEY_COLUMN, "author_id" := PLAIN_COLUMN],
                                map["author" := Relation("belongsTo", "users", "author_id")], None)]
  }

  /** From an empty database no plan runs: the foreign key comes before the UNIQUE constraint it needs. */
  lemma UniqueTargetExample(p: seq<Statement>, shown: Rendering)
    requires IsPlan(UniqueTargetSchema(), map[], p)
    ensures Run(EmptyCatalogue(shown), p).None?
  {
    var desired := UniqueTargetSchema();
    assert "posts" in desired && "author" in desired["posts"].relations && "users" in desired;
    assert desired["posts"].relations["author"].table == "users";
    assert RelationsResolve(desired);
    assert "key" in PrimaryKeyOf(desired["users"]) && "key" != "id";
    EmptyIsInput(desired, shown);
    hide IsPlan, Run, Inputs, PrimaryKeyOf;
    UniqueTargetBlocks(desired, map[], EmptyCatalogue(shown), p, "posts", "author");
  }
}
