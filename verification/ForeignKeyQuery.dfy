/**
 * The rows the loop of `introspect_foreign_keys` (`schema/introspect.rs`) is given. Its query joins
 * key columns and used columns to a constraint by schema and name alone, while PostgreSQL keeps the
 * names of constraints apart within one table only.
 */
module ForeignKeyQuery {
  import opened Schema
  import opened Plan
  import opened ForeignKeyFolding

  /**
   * A constraint of the schema, of whatever table and kind: its columns in `key_column_usage`, and the
   * table and columns in `constraint_column_usage`, for a foreign key the referenced ones.
   */
  datatype Constraint = Constraint(table: string, name: string, keys: seq<string>, usedTable: string, used: set<string>)

  datatype Entry = Entry(position: nat, row: Row)

  /** All pairs of a key column and a used column of constraints of this name. */
  function Joined(constraints: set<Constraint>, name: string): set<Entry> {
    set a, b, i, u |
      a in constraints && a.name == name && b in constraints && b.name == name && 0 <= i < |a.keys| && u in b.used
      :: Entry(i, Row(name, a.keys[i], b.usedTable, u))
  }

  ghost predicate Sorted(entries: seq<Entry>) {
    forall i, j :: 0 <= i < j < |entries| ==> entries[i].position <= entries[j].position
  }

  /** A result of the query for one constraint: the joined rows by position, otherwise in any order. */
  ghost predicate Lists(entries: seq<Entry>, constraints: set<Constraint>, name: string) {
    Sorted(entries) && forall e :: e in entries <==> e in Joined(constraints, name)
  }

  function RowsIn(entries: seq<Entry>): seq<Row> {
    seq(|entries|, i requires 0 <= i < |entries| => entries[i].row)
  }

  /** The fold of the rows has the columns, the target and the referenced columns of the constraint. */
  ghost predicate ReadsAs(entries: seq<Entry>, d: Constraint) {
    entries != [] &&
    var fk := Folded(d.name, RowsIn(entries));
    && (forall c :: c in fk.columns <==> c in d.keys)
    && fk.referencedTable == d.usedTable
    && (forall c :: c in fk.referencedColumns <==> c in d.used)
  }

  /** Whatever else has the constraint's name adds nothing to its columns and uses no other table or column. */
  ghost predicate SharedAlike(d: Constraint, constraints: set<Constraint>) {
    forall b :: b in constraints && b.name == d.name ==>
      && (forall c :: c in b.keys ==> c in d.keys)
      && (b.used != {} ==> b.usedTable == d.usedTable)
      && b.used <= d.used
  }

  // ----- what a result holds ----------------------------------------------------------------

  lemma ColumnsListed(entries: seq<Entry>, constraints: set<Constraint>, d: Constraint, c: string)
    requires Lists(entries, constraints, d.name) && d in constraints && d.used != {}
    ensures c in Columns(RowsIn(entries)) <==> exists a :: a in constraints && a.name == d.name && c in a.keys
  {
    if c in Columns(RowsIn(entries)) {
      var k :| 0 <= k < |entries| && entries[k].row.column == c;
      assert entries[k] in Joined(constraints, d.name);
    }
    if a :| a in constraints && a.name == d.name && c in a.keys {
      var i :| 0 <= i < |a.keys| && a.keys[i] == c;
      var u :| u in d.used;
      Found(entries, constraints, d.name, Entry(i, Row(d.name, c, d.usedTable, u)));
    }
  }

  lemma UsedListed(entries: seq<Entry>, constraints: set<Constraint>, d: Constraint, u: string)
    requires Lists(entries, constraints, d.name) && d in constraints && d.keys != []
    ensures u in RefColumns(RowsIn(entries)) <==> exists b :: b in constraints && b.name == d.name && u in b.used
  {
    if u in RefColumns(RowsIn(entries)) {
      var k :| 0 <= k < |entries| && entries[k].row.refColumn == u;
      assert entries[k] in Joined(constraints, d.name);
    }
    if b :| b in constraints && b.name == d.name && u in b.used {
      Found(entries, constraints, d.name, Entry(0, Row(d.name, d.keys[0], b.usedTable, u)));
    }
  }

  lemma Found(entries: seq<Entry>, constraints: set<Constraint>, name: string, e: Entry)
    requires Lists(entries, constraints, name) && e in Joined(constraints, name)
    ensures e.row.column in Columns(RowsIn(entries)) && e.row.refColumn in RefColumns(RowsIn(entries))
  {
    var k :| 0 <= k < |entries| && entries[k] == e;
    assert Columns(RowsIn(entries))[k] == e.row.column && RefColumns(RowsIn(entries))[k] == e.row.refColumn;
  }

  /** What a result is folded to, in terms of the constraints of the name. */
  lemma FoldedFrom(entries: seq<Entry>, constraints: set<Constraint>, d: Constraint)
    requires Lists(entries, constraints, d.name) && d in constraints && d.keys != [] && d.used != {}
    ensures entries != []
    ensures var fk := Folded(d.name, RowsIn(entries));
      && (forall c :: c in fk.columns <==> exists a :: a in constraints && a.name == d.name && c in a.keys)
      && (forall u :: u in fk.referencedColumns <==> exists b :: b in constraints && b.name == d.name && u in b.used)
      && fk.referencedTable == entries[0].row.refTable
      && exists b :: b in constraints && b.name == d.name && b.used != {} && b.usedTable == fk.referencedTable
  {
    hide Lists, Joined;
    assert d.keys[0] in d.keys;
    ColumnsListed(entries, constraints, d, d.keys[0]);
    forall c
      ensures c in Columns(RowsIn(entries)) <==> exists a :: a in constraints && a.name == d.name && c in a.keys
    {
      ColumnsListed(entries, constraints, d, c);
    }
    forall u
      ensures u in RefColumns(RowsIn(entries)) <==> exists b :: b in constraints && b.name == d.name && u in b.used
    {
      UsedListed(entries, constraints, d, u);
    }
    FirstListed(entries, constraints, d.name);
  }

  lemma FirstListed(entries: seq<Entry>, constraints: set<Constraint>, name: string)
    requires Lists(entries, constraints, name) && entries != []
    ensures exists b :: b in constraints && b.name == name && b.used != {} && b.usedTable == entries[0].row.refTable
  {
    assert entries[0] in Joined(constraints, name);
  }

  // ----- a result with a given row first ----------------------------------------------------

  lemma {:induction false} Earliest(entries: set<Entry>) returns (e: Entry)
    requires entries != {}
    ensures e in entries && forall f :: f in entries ==> e.position <= f.position
    decreases |entries|
  {
    e :| e in entries;
    if entries != {e} {
      var rest := Earliest(entries - {e});
      e := if rest.position < e.position then rest else e;
    }
  }

  lemma {:induction false} InOrder(entries: set<Entry>) returns (listed: seq<Entry>)
    ensures Sorted(listed) && forall e :: e in listed <==> e in entries
    decreases |entries|
  {
    if entries == {} {
      listed := [];
    } else {
      var e := Earliest(entries);
      var rest := InOrder(entries - {e});
      listed := [e] + rest;
      assert forall f :: f in rest ==> f in entries;
      assert forall i :: 0 <= i < |rest| ==> rest[i] in rest && e.position <= rest[i].position;
    }
  }

  lemma StartingWith(constraints: set<Constraint>, name: string, e: Entry) returns (listed: seq<Entry>)
    requires e in Joined(constraints, name) && e.position == 0
    ensures Lists(listed, constraints, name) && listed[0] == e
  {
    hide Joined;
    var rest := InOrder(Joined(constraints, name) - {e});
    listed := [e] + rest;
  }

  // ----- faithful readings ------------------------------------------------------------------

  /**
   * A foreign key is read as it is declared, however its rows are ordered, if and only if every
   * constraint of its name in the schema has no columns and no target but its own. In particular a
   * key whose name is unique in the schema is.
   */
  lemma FaithfulIffSharedAlike(d: Constraint, constraints: set<Constraint>)
    requires d in constraints && d.keys != [] && d.used != {}
    ensures (forall entries :: Lists(entries, constraints, d.name) ==> ReadsAs(entries, d)) <==> SharedAlike(d, constraints)
  {
    if SharedAlike(d, constraints) {
      forall entries | Lists(entries, constraints, d.name)
        ensures ReadsAs(entries, d)
      {
        FaithfulReading(entries, constraints, d);
      }
    } else {
      var entries := UnfaithfulReading(d, constraints);
    }
  }

  lemma FaithfulReading(entries: seq<Entry>, constraints: set<Constraint>, d: Constraint)
    requires d in constraints && d.keys != [] && d.used != {} && SharedAlike(d, constraints)
    requires Lists(entries, constraints, d.name)
    ensures ReadsAs(entries, d)
  {
    hide Lists, Folded;
    FoldedFrom(entries, constraints, d);
  }

  lemma UnfaithfulReading(d: Constraint, constraints: set<Constraint>) returns (entries: seq<Entry>)
    requires d in constraints && d.keys != [] && d.used != {} && !SharedAlike(d, constraints)
    ensures Lists(entries, constraints, d.name) && !ReadsAs(entries, d)
  {
    var b :| b in constraints && b.name == d.name &&
      !((forall c :: c in b.keys ==> c in d.keys) && (b.used != {} ==> b.usedTable == d.usedTable) && b.used <= d.used);
    var of := if b.used != {} then b else d;
    var u :| u in of.used;
    var e := Entry(0, Row(d.name, d.keys[0], of.usedTable, u));
    assert e in Joined(constraints, d.name);
    entries := StartingWith(constraints, d.name, e);
    hide Lists, Joined, Folded;
    FoldedFrom(entries, constraints, d);
  }

  // ----- the names the planner gives --------------------------------------------------------

  /** Two relations get foreign keys of the same name exactly if an underscore can be read on either side. */
  lemma NamesMeetIff(t: string, r: string, u: string, q: string)
    requires |t| <= |u|
    ensures ForeignKeyName(t, r) == ForeignKeyName(u, q) <==>
      (t == u && r == q) || exists x :: u == t + "_" + x && r == x + "_" + q
  {
    var left, right := ForeignKeyName(t, r), ForeignKeyName(u, q);
    Pieces("fk_", t, "_", r);
    Pieces("fk_", u, "_", q);
    if left == right {
      var n := 3 + |t|;
      assert left[3..n] == t && right[3..3 + |u|] == u;
      assert left[n] == '_' && left[n + 1..] == r;
      if |t| == |u| {
        assert right[n + 1..] == q;
      } else {
        var x := u[|t| + 1..];
        assert u[..|t|] == t && u[|t|] == '_';
        assert u == t + "_" + x;
        assert r == right[n + 1..];
        assert right[n + 1..] == x + "_" + q;
      }
    }
    if x :| u == t + "_" + x && r == x + "_" + q {
      Regrouped("fk_", t, "_", x, q);
    }
  }

  lemma Pieces(a: string, b: string, c: string, d: string)
    ensures var s := a + b + c + d;
      && |s| == |a| + |b| + |c| + |d|
      && s[..|a|] == a && s[|a|..|a| + |b|] == b && s[|a| + |b|..|a| + |b| + |c|] == c && s[|a| + |b| + |c|..] == d
  {}

  lemma Regrouped(a: string, t: string, b: string, x: string, q: string)
    ensures a + t + b + (x + b + q) == a + (t + b + x) + b + q
  {}

  function ConstraintFor(t: string, r: string, rel: Relation): Constraint {
    Constraint(t, ForeignKeyName(t, r), [rel.foreignKey], rel.table, {"id"})
  }

  /**
   * The foreign keys of two relations, of whatever tables, are both read as they are if and only if
   * their names differ, or else they have the same column and the same target.
   */
  lemma RelationsReadIff(t: string, r: string, rel: Relation, u: string, q: string, other: Relation)
    ensures var a, b := ConstraintFor(t, r, rel), ConstraintFor(u, q, other);
      && (forall entries :: Lists(entries, {a, b}, a.name) ==> ReadsAs(entries, a))
      && (forall entries :: Lists(entries, {a, b}, b.name) ==> ReadsAs(entries, b))
      <==> ForeignKeyName(t, r) != ForeignKeyName(u, q) || (rel.foreignKey == other.foreignKey && rel.table == other.table)
  {
    var a, b := ConstraintFor(t, r, rel), ConstraintFor(u, q, other);
    hide ForeignKeyName, Lists, ReadsAs;
    FaithfulIffSharedAlike(a, {a, b});
    FaithfulIffSharedAlike(b, {a, b});
    assert rel.foreignKey in a.keys && other.foreignKey in b.keys;
  }

  /** Such names: relation `b_c` of table `a`, and relation `c` of table `a_b`. */
  lemma NamesMeet(rel: Relation, other: Relation)
    requires rel.table != other.table
    ensures var a, b := ConstraintFor("a", "b_c", rel), ConstraintFor("a_b", "c", other);
      a.name == b.name && exists entries :: Lists(entries, {a, b}, a.name) && !ReadsAs(entries, a)
  {
    NamesMeetIff("a", "b_c", "a_b", "c");
    assert "a_b" == "a" + "_" + "b" && "b_c" == "b" + "_" + "c";
    var a, b := ConstraintFor("a", "b_c", rel), ConstraintFor("a_b", "c", other);
    assert a.name == b.name;
    hide ForeignKeyName, Lists, ReadsAs;
    FaithfulIffSharedAlike(a, {a, b});
    assert !SharedAlike(a, {a, b});
  }
}
