/**
 * The loop of `introspect_foreign_keys` (`schema/introspect.rs`) that folds the rows of the
 * catalogue query, one for each pair of local and referenced columns, into foreign keys.
 */
module ForeignKeyFolding {
  import opened Schema

  datatype Row = Row(constraint: string, column: string, refTable: string, refColumn: string)

  // ----- what the fold means ----------------------------------------------------------------

  function RowsOf(rows: seq<Row>, name: string): (r: seq<Row>)
    ensures forall row :: row in r <==> row in rows && row.constraint == name
  {
    if rows == [] then []
    else
      var rest := RowsOf(rows[..|rows| - 1], name);
      var last := rows[|rows| - 1];
      assert rows == rows[..|rows| - 1] + [last];
      if last.constraint == name then rest + [last] else rest
  }

  function Columns(rows: seq<Row>): (r: seq<string>) {
    seq(|rows|, i requires 0 <= i < |rows| => rows[i].column)
  }

  function RefColumns(rows: seq<Row>): (r: seq<string>) {
    seq(|rows|, i requires 0 <= i < |rows| => rows[i].refColumn)
  }

  function AddOnce(s: seq<string>, x: string): seq<string> {
    if x in s then s else s + [x]
  }

  /** The distinct elements in the order of their first occurrence. */
  function Distinct(s: seq<string>): (d: seq<string>)
    ensures forall x :: x in d <==> x in s
    ensures forall i, j :: 0 <= i < j < |d| ==> d[i] != d[j]
  {
    if s == [] then []
    else
      assert s == s[..|s| - 1] + [s[|s| - 1]];
      AddOnce(Distinct(s[..|s| - 1]), s[|s| - 1])
  }

  function Folded(name: string, rows: seq<Row>): ForeignKey
    requires rows != []
  {
    ForeignKey(name, Distinct(Columns(rows)), rows[0].refTable, Distinct(RefColumns(rows)))
  }

  /** One row more: the entry is created by the first row and only extended by the later ones. */
  lemma FoldedStep(name: string, rows: seq<Row>, row: Row)
    requires rows != []
    ensures var fk := Folded(name, rows);
      Folded(name, rows + [row])
      == fk.(columns := AddOnce(fk.columns, row.column), referencedColumns := AddOnce(fk.referencedColumns, row.refColumn))
  {
    assert Columns(rows + [row])[..|rows|] == Columns(rows);
    assert RefColumns(rows + [row])[..|rows|] == RefColumns(rows);
  }

  lemma FoldedFirst(name: string, row: Row)
    ensures Folded(name, [row]) == ForeignKey(name, [row.column], row.refTable, [row.refColumn])
  {
    assert Distinct(Columns([row])) == AddOnce(Distinct([]), row.column);
    assert Distinct(RefColumns([row])) == AddOnce(Distinct([]), row.refColumn);
  }

  lemma RowsOfStep(rows: seq<Row>, i: nat, name: string)
    requires i < |rows|
    ensures RowsOf(rows[..i + 1], name)
         == if rows[i].constraint == name then RowsOf(rows[..i], name) + [rows[i]] else RowsOf(rows[..i], name)
  {
    assert rows[..i + 1][..i] == rows[..i];
  }

  lemma {:induction false} NoRowsOf(rows: seq<Row>, name: string)
    requires forall row :: row in rows ==> row.constraint != name
    ensures RowsOf(rows, name) == []
  {
    if rows != [] {
      NoRowsOf(rows[..|rows| - 1], name);
      assert rows[|rows| - 1] in rows;
    }
  }

  // ----- the loop ---------------------------------------------------------------------------

  ghost predicate FoldsPrefix(fks: map<string, ForeignKey>, rows: seq<Row>) {
    && (forall row :: row in rows ==> row.constraint in fks)
    && (forall name :: name in fks ==> RowsOf(rows, name) != [] && fks[name] == Folded(name, RowsOf(rows, name)))
  }

  /** The order in which the map yields its values is arbitrary. */
  method IntrospectForeignKeys(rows: seq<Row>) returns (fks: seq<ForeignKey>)
    ensures forall row :: row in rows ==> exists fk :: fk in fks && fk.constraintName == row.constraint
    ensures forall fk :: fk in fks ==>
      && RowsOf(rows, fk.constraintName) != []
      && fk == Folded(fk.constraintName, RowsOf(rows, fk.constraintName))
    ensures forall i, j :: 0 <= i < j < |fks| ==> fks[i].constraintName != fks[j].constraintName
  {
    hide Distinct, RowsOf;
    var byConstraint: map<string, ForeignKey> := map[];
    for i := 0 to |rows|
      invariant FoldsPrefix(byConstraint, rows[..i])
    {
      var row := rows[i];
      ghost var before := byConstraint;
      var fk;
      if row.constraint in byConstraint {
        fk := byConstraint[row.constraint];
      } else {
        fk := ForeignKey(row.constraint, [], row.refTable, []);
      }
      if row.column !in fk.columns {
        fk := fk.(columns := fk.columns + [row.column]);
      }
      if row.refColumn !in fk.referencedColumns {
        fk := fk.(referencedColumns := fk.referencedColumns + [row.refColumn]);
      }
      byConstraint := byConstraint[row.constraint := fk];
      EntryStep(before, fk, rows, i);
    }
    assert rows[..|rows|] == rows;
    fks := Values(byConstraint);
  }

  lemma EntryStep(before: map<string, ForeignKey>, fk: ForeignKey, rows: seq<Row>, i: nat)
    requires i < |rows| && FoldsPrefix(before, rows[..i])
    requires rows[i].constraint in before ==>
      var was := before[rows[i].constraint];
      fk == was.(columns := AddOnce(was.columns, rows[i].column),
                 referencedColumns := AddOnce(was.referencedColumns, rows[i].refColumn))
    requires rows[i].constraint !in before ==>
      fk == ForeignKey(rows[i].constraint, [rows[i].column], rows[i].refTable, [rows[i].refColumn])
    ensures FoldsPrefix(before[rows[i].constraint := fk], rows[..i + 1])
  {
    hide Distinct, RowsOf, Folded;
    var row := rows[i];
    var after := before[row.constraint := fk];
    assert rows[..i + 1] == rows[..i] + [row];
    forall name | name in after
      ensures RowsOf(rows[..i + 1], name) != [] && after[name] == Folded(name, RowsOf(rows[..i + 1], name))
    {
      RowsOfStep(rows, i, name);
      if name == row.constraint {
        if name in before {
          FoldedStep(name, RowsOf(rows[..i], name), row);
        } else {
          NoRowsOf(rows[..i], name);
          FoldedFirst(name, row);
          assert RowsOf(rows[..i + 1], name) == [row];
        }
      }
    }
  }

  method Values(m: map<string, ForeignKey>) returns (values: seq<ForeignKey>)
    requires forall name :: name in m ==> m[name].constraintName == name
    ensures forall fk :: fk in values <==> fk.constraintName in m && m[fk.constraintName] == fk
    ensures forall i, j :: 0 <= i < j < |values| ==> values[i].constraintName != values[j].constraintName
  {
    values := [];
    var left := m.Keys;
    while left != {}
      invariant left <= m.Keys
      invariant forall fk :: fk in values <==> fk.constraintName in m.Keys - left && m[fk.constraintName] == fk
      invariant forall i, j :: 0 <= i < j < |values| ==> values[i].constraintName != values[j].constraintName
      decreases |left|
    {
      var name :| name in left;
      left := left - {name};
      assert forall fk :: fk in values ==> fk.constraintName != name;
      values := values + [m[name]];
    }
  }

  // ----- the rows the query returns ---------------------------------------------------------

  /** A foreign key constraint as declared: local columns in order, referenced columns as a set. */
  datatype Declared = Declared(local: seq<string>, refTable: string, refs: set<string>)

  function Concat(blocks: seq<seq<Row>>): seq<Row> {
    if blocks == [] then [] else Concat(blocks[..|blocks| - 1]) + blocks[|blocks| - 1]
  }

  /** The rows for one local column: paired with every referenced column, in any order. */
  ghost predicate IsBlock(block: seq<Row>, column: string, d: Declared) {
    && (forall row :: row in block ==> row.column == column && row.refTable == d.refTable && row.refColumn in d.refs)
    && (forall c :: c in d.refs ==> exists row :: row in block && row.refColumn == c)
  }

  /** The cross product of local and referenced columns, ordered by position of the local column. */
  ghost predicate IsCrossProduct(rows: seq<Row>, d: Declared, blocks: seq<seq<Row>>) {
    && |blocks| == |d.local| && rows == Concat(blocks)
    && forall i :: 0 <= i < |blocks| ==> IsBlock(blocks[i], d.local[i], d)
  }

  lemma {:induction false} DistinctBlocks(rows: seq<Row>, d: Declared, blocks: seq<seq<Row>>)
    requires d.refs != {} && IsCrossProduct(rows, d, blocks)
    requires forall i, j :: 0 <= i < j < |d.local| ==> d.local[i] != d.local[j]
    ensures Distinct(Columns(rows)) == d.local
    ensures forall row :: row in rows ==> row.refTable == d.refTable && row.refColumn in d.refs
    ensures d.local != [] ==> forall c :: c in d.refs ==> exists row :: row in rows && row.refColumn == c
    decreases |blocks|
  {
    if blocks != [] {
      hide Distinct, Columns;
      var n := |blocks| - 1;
      var front, last := Concat(blocks[..n]), blocks[n];
      assert IsBlock(last, d.local[n], d);
      FrontIsProduct(rows, d, blocks);
      DistinctBlocks(front, d.(local := d.local[..n]), blocks[..n]);
      BlockNotEmpty(last, d.local[n], d);
      DistinctRun(front, last, d.local[n]);
      assert d.local == d.local[..n] + [d.local[n]];
    }
  }

  lemma FrontIsProduct(rows: seq<Row>, d: Declared, blocks: seq<seq<Row>>)
    requires IsCrossProduct(rows, d, blocks) && blocks != []
    ensures var n := |blocks| - 1;
      && IsCrossProduct(Concat(blocks[..n]), d.(local := d.local[..n]), blocks[..n])
      && rows == Concat(blocks[..n]) + blocks[n]
  {
    hide IsBlock;
    var n := |blocks| - 1;
    var d' := d.(local := d.local[..n]);
    forall i | 0 <= i < n
      ensures IsBlock(blocks[..n][i], d'.local[i], d')
    {
      assert IsBlock(blocks[i], d.local[i], d);
      SameBlock(blocks[i], d.local[i], d, d');
    }
  }

  lemma SameBlock(block: seq<Row>, column: string, d: Declared, e: Declared)
    requires IsBlock(block, column, d) && d.refTable == e.refTable && d.refs == e.refs
    ensures IsBlock(block, column, e)
  {}

  lemma BlockNotEmpty(block: seq<Row>, column: string, d: Declared)
    requires IsBlock(block, column, d) && d.refs != {}
    ensures block != [] && forall row :: row in block ==> row.column == column
  {
    var c :| c in d.refs;
  }

  /** A run of rows that all carry the same new column adds that column once. */
  lemma {:induction false} DistinctRun(front: seq<Row>, run: seq<Row>, column: string)
    requires run != [] && forall row :: row in run ==> row.column == column
    requires column !in Distinct(Columns(front))
    ensures Distinct(Columns(front + run)) == Distinct(Columns(front)) + [column]
  {
    var n := |run| - 1;
    var last := run[n];
    assert last in run && front + run == (front + run[..n]) + [last];
    assert Columns(front + run)[..|front| + n] == Columns(front + run[..n]);
    if n == 0 {
      assert front + run[..n] == front;
    } else {
      DistinctRun(front, run[..n], column);
    }
  }

  /**
   * For rows that form, for every constraint, the cross product of its local and referenced
   * columns, each constraint is folded to its local columns in order and without repeats, its
   * referenced table, and exactly its set of referenced columns.
   */
  lemma FoldedIsDeclared(name: string, rows: seq<Row>, d: Declared, blocks: seq<seq<Row>>)
    requires IsCrossProduct(RowsOf(rows, name), d, blocks) && d.local != [] && d.refs != {}
    requires forall i, j :: 0 <= i < j < |d.local| ==> d.local[i] != d.local[j]
    ensures RowsOf(rows, name) != []
    ensures var fk := Folded(name, RowsOf(rows, name));
      && fk.columns == d.local && fk.referencedTable == d.refTable
      && (forall c :: c in fk.referencedColumns <==> c in d.refs)
      && (forall i, j :: 0 <= i < j < |fk.referencedColumns| ==> fk.referencedColumns[i] != fk.referencedColumns[j])
  {
    var mine := RowsOf(rows, name);
    DistinctBlocks(mine, d, blocks);
    RefColumnsAre(mine, d.refs);
    hide Distinct, RefColumns, Columns, IsCrossProduct, RowsOf;
    var c :| c in d.refs;
    assert mine != [];
    assert mine[0] in mine;
  }

  lemma RefColumnsAre(rows: seq<Row>, refs: set<string>)
    requires forall row :: row in rows ==> row.refColumn in refs
    requires forall c :: c in refs ==> exists row :: row in rows && row.refColumn == c
    ensures forall c :: c in RefColumns(rows) <==> c in refs
  {
    forall c
      ensures c in RefColumns(rows) <==> c in refs
    {
      if c in RefColumns(rows) {
        var i :| 0 <= i < |rows| && RefColumns(rows)[i] == c;
        assert rows[i] in rows;
      }
      if c in refs {
        var row :| row in rows && row.refColumn == c;
        var i :| 0 <= i < |rows| && rows[i] == row;
        assert RefColumns(rows)[i] == c;
      }
    }
  }

  /** A single-column key to `id` is folded to exactly that, which is the form the planner compares. */
  lemma SingleColumnKey(name: string, rows: seq<Row>, column: string, refTable: string)
    requires RowsOf(rows, name) == [Row(name, column, refTable, "id")]
    ensures Folded(name, RowsOf(rows, name)) == ForeignKey(name, [column], refTable, ["id"])
  {
    FoldedFirst(name, Row(name, column, refTable, "id"));
  }
}
