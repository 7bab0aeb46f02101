/**
 * The query builder of the TypeScript client (`sdks/typescript/src/data.ts`), and what the engine
 * makes of the parameters it sends.
 */
module SdkQuery {
  import opened Wrappers
  import opened Text
  import opened Decimal
  import opened QueryFilter

  // ----- the fluent calls -------------------------------------------------------------------

  datatype Call =
    | Selecting(columns: string)
    | Filtering(operator: Operator, column: string, value: string)
    | Ordering(column: string, direction: SortDirection)
    | Limiting(n: int)
    | Skipping(n: int)

  /** A later call for the same slot replaces an earlier one. */
  datatype Slot = SelectSlot | FilterSlot(column: string) | OrderSlot | LimitSlot | OffsetSlot

  function SlotOf(call: Call): Slot {
    match call
    case Selecting(_) => SelectSlot
    case Filtering(_, column, _) => FilterSlot(column)
    case Ordering(_, _) => OrderSlot
    case Limiting(_) => LimitSlot
    case Skipping(_) => OffsetSlot
  }

  function LastIn(calls: seq<Call>, slot: Slot): (r: Option<Call>)
    ensures r.Some? ==> r.value in calls && SlotOf(r.value) == slot
  {
    if calls == [] then None
    else
      var n := |calls| - 1;
      if SlotOf(calls[n]) == slot then Some(calls[n]) else LastIn(calls[..n], slot)
  }

  function DirectionWord(d: SortDirection): string {
    match d case Asc => "asc" case Desc => "desc"
  }

  // ----- the parameters sent ----------------------------------------------------------------

  function KeyOf(slot: Slot): string {
    match slot
    case SelectSlot => "select"
    case FilterSlot(column) => column
    case OrderSlot => "order"
    case LimitSlot => "limit"
    case OffsetSlot => "offset"
  }

  function TextOf(call: Call): string {
    match call
    case Selecting(columns) => columns
    case Filtering(op, _, value) => Word(op) + "." + value
    case Ordering(column, direction) => column + "." + DirectionWord(direction)
    case Limiting(n) => PrintInt(n)
    case Skipping(n) => PrintInt(n)
  }

  /** The keys of the calls, and the texts of selections, orders and counts. */
  lemma CallTexts(column: string, n: nat)
    ensures KeyOf(SlotOf(Selecting(column))) == "select" && KeyOf(SlotOf(Ordering(column, Asc))) == "order"
    ensures KeyOf(SlotOf(Limiting(n))) == "limit" && KeyOf(SlotOf(Skipping(n))) == "offset"
    ensures KeyOf(SlotOf(Filtering(Eq, column, ""))) == column
    ensures KeyOf(LimitSlot) == "limit" && KeyOf(OffsetSlot) == "offset"
    ensures TextOf(Selecting(column)) == column
    ensures TextOf(Ordering(column, Asc)) == column + ".asc" && TextOf(Ordering(column, Desc)) == column + ".desc"
    ensures TextOf(Limiting(n)) == Print(n) && TextOf(Skipping(n)) == Print(n)
  {
    hide Print, Word;
    assert column + "." + "asc" == column + ".asc" && column + "." + "desc" == column + ".desc";
  }

  /** The texts of filters. */
  lemma FilterTexts(column: string, value: string)
    ensures TextOf(Filtering(Eq, column, value)) == "eq." + value && TextOf(Filtering(Neq, column, value)) == "neq." + value
    ensures TextOf(Filtering(Gt, column, value)) == "gt." + value && TextOf(Filtering(Gte, column, value)) == "gte." + value
    ensures TextOf(Filtering(Lt, column, value)) == "lt." + value && TextOf(Filtering(Lte, column, value)) == "lte." + value
  {
    hide FromStr;
    assert "eq" + "." == "eq." && "neq" + "." == "neq." && "gt" + "." == "gt.";
    assert "gte" + "." == "gte." && "lt" + "." == "lt." && "lte" + "." == "lte.";
  }

  /** The record of parameters after some calls; `select` is kept beside it. */
  function ParamsAfter(calls: seq<Call>): map<string, string> {
    if calls == [] then map[]
    else
      var n := |calls| - 1;
      var before := ParamsAfter(calls[..n]);
      if calls[n].Selecting? then before else before[KeyOf(SlotOf(calls[n])) := TextOf(calls[n])]
  }

  function SelectAfter(calls: seq<Call>): Option<string> {
    match LastIn(calls, SelectSlot)
    case Some(call) => Some(TextOf(call))
    case None => None
  }

  function Sent(calls: seq<Call>): map<string, string> {
    var columns := SelectAfter(calls);
    if columns.Some? && columns.value != "" then ParamsAfter(calls)["select" := columns.value] else ParamsAfter(calls)
  }

  class QueryBuilder {
    var params: map<string, string>
    var selectCols: Option<string>
    ghost var calls: seq<Call>

    ghost predicate Valid()
      reads this
    {
      params == ParamsAfter(calls) && selectCols == SelectAfter(calls)
    }

    constructor ()
      ensures Valid() && calls == []
    {
      params, selectCols, calls := map[], None, [];
    }

    ghost method Log(call: Call)
      modifies this`calls
      ensures calls == old(calls) + [call]
      ensures ParamsAfter(calls) == (if call.Selecting? then ParamsAfter(old(calls))
                                     else ParamsAfter(old(calls))[KeyOf(SlotOf(call)) := TextOf(call)])
      ensures SelectAfter(calls) == if call.Selecting? then Some(call.columns) else SelectAfter(old(calls))
    {
      calls := calls + [call];
      assert calls[..|calls| - 1] == old(calls);
    }

    method Select(columns: string)
      requires Valid()
      modifies this
      ensures Valid() && calls == old(calls) + [Selecting(columns)]
    {
      hide ParamsAfter, SelectAfter, PrintInt;
      selectCols := Some(columns);
      Log(Selecting(columns));
    }

    method Eq(column: string, value: string)
      requires Valid()
      modifies this
      ensures Valid() && calls == old(calls) + [Filtering(Operator.Eq, column, value)]
    {
      hide ParamsAfter, SelectAfter, PrintInt;
      params := params[column := "eq" + "." + value];
      Log(Filtering(Operator.Eq, column, value));
    }

    method Neq(column: string, value: string)
      requires Valid()
      modifies this
      ensures Valid() && calls == old(calls) + [Filtering(Operator.Neq, column, value)]
    {
      hide ParamsAfter, SelectAfter, PrintInt;
      params := params[column := "neq" + "." + value];
      Log(Filtering(Operator.Neq, column, value));
    }

    method Gt(column: string, value: string)
      requires Valid()
      modifies this
      ensures Valid() && calls == old(calls) + [Filtering(Operator.Gt, column, value)]
    {
      hide ParamsAfter, SelectAfter, PrintInt;
      params := params[column := "gt" + "." + value];
      Log(Filtering(Operator.Gt, column, value));
    }

    method Gte(column: string, value: string)
      requires Valid()
      modifies this
      ensures Valid() && calls == old(calls) + [Filtering(Operator.Gte, column, value)]
    {
      hide ParamsAfter, SelectAfter, PrintInt;
      params := params[column := "gte" + "." + value];
      Log(Filtering(Operator.Gte, column, value));
    }

    method Lt(column: string, value: string)
      requires Valid()
      modifies this
      ensures Valid() && calls == old(calls) + [Filtering(Operator.Lt, column, value)]
    {
      hide ParamsAfter, SelectAfter, PrintInt;
      params := params[column := "lt" + "." + value];
      Log(Filtering(Operator.Lt, column, value));
    }

    method Lte(column: string, value: string)
      requires Valid()
      modifies this
      ensures Valid() && calls == old(calls) + [Filtering(Operator.Lte, column, value)]
    {
      hide ParamsAfter, SelectAfter, PrintInt;
      params := params[column := "lte" + "." + value];
      Log(Filtering(Operator.Lte, column, value));
    }

    method Order(column: string, direction: SortDirection)
      requires Valid()
      modifies this
      ensures Valid() && calls == old(calls) + [Ordering(column, direction)]
    {
      hide ParamsAfter, SelectAfter, PrintInt;
      params := params["order" := column + "." + DirectionWord(direction)];
      Log(Ordering(column, direction));
    }

    method Limit(n: int)
      requires Valid()
      modifies this
      ensures Valid() && calls == old(calls) + [Limiting(n)]
    {
      hide ParamsAfter, SelectAfter, PrintInt;
      params := params["limit" := PrintInt(n)];
      Log(Limiting(n));
    }

    method Offset(n: int)
      requires Valid()
      modifies this
      ensures Valid() && calls == old(calls) + [Skipping(n)]
    {
      hide ParamsAfter, SelectAfter, PrintInt;
      params := params["offset" := PrintInt(n)];
      Log(Skipping(n));
    }

    /** The parameters of the request. */
    method Execute() returns (sent: map<string, string>)
      requires Valid()
      ensures sent == Sent(calls)
    {
      sent := params;
      if selectCols.Some? && selectCols.value != "" {
        sent := sent["select" := selectCols.value];
      }
    }
  }

  // ----- what the engine reads --------------------------------------------------------------

  predicate SelectableName(name: string) {
    ',' !in name && Trimmed(name)
  }

  /** A column list reads back as its names, whether or not a space follows the commas. */
  lemma SelectReadsBack(names: seq<string>)
    requires names != [] && forall i :: 0 <= i < |names| ==> SelectableName(names[i])
    ensures NamesIn(Join(names, ",")) == names
    ensures NamesIn(Join(names, ", ")) == names
  {
    var spaced := Spaced(names);
    hide Split, Trim, Trimmed, Join, NamesIn;
    forall i | 0 <= i < |names|
      ensures Trim(names[i]) == names[i] && Trim(spaced[i]) == names[i] && ',' !in spaced[i]
    {
      assert SelectableName(names[i]);
      TrimSpaced(names[i]);
    }
    JoinSpaced(names);
    NamesOfParts(names, names);
    NamesOfParts(spaced, names);
  }

  lemma NamesOfParts(parts: seq<string>, names: seq<string>)
    requires |parts| == |names| > 0
    requires forall i :: 0 <= i < |parts| ==> ',' !in parts[i] && Trim(parts[i]) == names[i]
    ensures NamesIn(Join(parts, ",")) == names
  {
    hide Split, Trim, Join;
    SplitJoin(parts, ',');
    assert [','] == ",";
  }

  function Spaced(names: seq<string>): (spaced: seq<string>)
    ensures |spaced| == |names|
  {
    seq(|names|, i requires 0 <= i < |names| => if i == 0 then names[i] else " " + names[i])
  }

  lemma TrimSpaced(name: string)
    requires Trimmed(name)
    ensures Trim(name) == name && Trim(" " + name) == name
  {
    TrimFixes(name);
    assert IsSpace(' ') && (" " + name)[0] == ' ';
    hide IsSpace, TrimEnd, Trimmed;
    assert (" " + name)[1..] == name;
    assert TrimStart(" " + name) == TrimStart(name);
  }

  lemma {:induction false} JoinSpaced(names: seq<string>)
    requires names != []
    ensures Join(names, ", ") == Join(Spaced(names), ",")
  {
    if |names| > 1 {
      var rest := names[1..];
      JoinSpaced(rest);
      assert Spaced(names)[1..] == [" " + rest[0]] + Spaced(rest)[1..];
      JoinFirst(" ", Spaced(rest), ",");
    }
  }

  /** Text in front of the first part is text in front of the whole. */
  lemma JoinFirst(front: string, parts: seq<string>, sep: string)
    requires parts != []
    ensures Join([front + parts[0]] + parts[1..], sep) == front + Join(parts, sep)
  {
    assert ([front + parts[0]] + parts[1..])[1..] == parts[1..];
  }

  /** `Split` and `Trim` leave the column of an order parameter as it is. */
  predicate OrderableColumn(column: string) {
    ',' !in column && '.' !in column && (column == "" || !IsSpace(column[0]))
  }

  /** Filter columns are no reserved words, order columns well-formed, counts 64-bit integers. */
  predicate Usable(call: Call) {
    match call
    case Selecting(_) => true
    case Filtering(_, column, _) => !Reserved(column)
    case Ordering(column, _) => OrderableColumn(column)
    case Limiting(n) => IsInt64(n)
    case Skipping(n) => IsInt64(n)
  }

  predicate AllUsable(calls: seq<Call>) {
    forall call :: call in calls ==> Usable(call)
  }

  /** The query is the last call of every slot; an empty column list selects everything. */
  ghost predicate Intended(calls: seq<Call>, qp: QueryParams) {
    && qp.select == (match LastIn(calls, SelectSlot)
                     case Some(call) => if call.columns == "" then None else Some(NamesIn(call.columns))
                     case None => None)
    && qp.order == (match LastIn(calls, OrderSlot)
                    case Some(call) => [Sort(call.column, call.direction)]
                    case None => [])
    && qp.limit == (match LastIn(calls, LimitSlot) case Some(call) => Some(call.n) case None => None)
    && qp.offset == (match LastIn(calls, OffsetSlot) case Some(call) => Some(call.n) case None => None)
    && (forall f :: f in qp.filters <==>
          LastIn(calls, FilterSlot(f.column)) == Some(Filtering(f.operator, f.column, f.value)))
    && DistinctColumns(qp.filters)
  }

  /** A filter text is taken apart at its first dot, so its value may hold more of them, or nothing. */
  lemma FilterReadsBack(op: Operator, column: string, value: string)
    ensures FilterIn(Param(column, Word(op) + "." + value)) == Ok(Filter(column, op, value))
  {
    hide FromStr;
    ReadUntilAppended(Word(op), value, '.');
  }

  lemma TrimOrder(column: string, d: SortDirection)
    requires OrderableColumn(column)
    ensures Trim(column + "." + DirectionWord(d)) == column + "." + DirectionWord(d)
  {
    TrimFixes(column + "." + DirectionWord(d));
  }

  lemma DirectionParts(d: SortDirection)
    ensures Split(DirectionWord(d), '.') == [DirectionWord(d)] && ',' !in DirectionWord(d)
  {
    SplitWhole(DirectionWord(d), '.');
  }

  /** An order text is read back as its column and direction exactly for well-formed columns. */
  lemma OrderReadsBack(column: string, d: SortDirection)
    ensures SortsIn(column + "." + DirectionWord(d)) == [Sort(column, d)] <==> OrderableColumn(column)
  {
    var text := column + "." + DirectionWord(d);
    DirectionParts(d);
    if OrderableColumn(column) {
      TrimOrder(column, d);
      SplitWhole(text, ',');
      SplitHead(column, DirectionWord(d), '.');
      hide Split, Trim;
      assert text == column + ['.'] + DirectionWord(d);
      assert (DirectionWord(d) == "desc") == d.Desc?;
      assert Split(text, '.') == [column, DirectionWord(d)];
    } else if SortsIn(text) == [Sort(column, d)] {
      OnePart(text);
      TrimmedParts(column, d);
    }
  }

  lemma {:induction false} SplitParts(s: string, sep: char)
    ensures |Split(s, sep)| == 1 <==> sep !in s
    ensures |Split(s, sep)[0]| > 0 ==> s != "" && Split(s, sep)[0][0] == s[0]
  {
    if s != "" {
      SplitParts(s[1..], sep);
      assert s == [s[0]] + s[1..];
    }
  }

  lemma OnePart(text: string)
    requires |SortsIn(text)| == 1
    ensures ',' !in text && SortsIn(text) == [SortIn(text)]
  {
    SplitParts(text, ',');
    SplitWhole(text, ',');
  }

  lemma TrimmedParts(column: string, d: SortDirection)
    requires ',' !in column + "." + DirectionWord(d)
    requires SortIn(column + "." + DirectionWord(d)).column == column
    ensures OrderableColumn(column)
  {
    hide Split, DirectionWord, IsSpace;
    var trimmed := Trim(column + "." + DirectionWord(d));
    SplitParts(trimmed, '.');
    assert Split(trimmed, '.')[0] in Split(trimmed, '.');
  }

  // ----- from calls to the parsed query -----------------------------------------------------

  predicate UsableSlot(slot: Slot) {
    slot.FilterSlot? ==> !Reserved(slot.column)
  }

  lemma KeysInjective(a: Slot, b: Slot)
    requires UsableSlot(a) && UsableSlot(b) && KeyOf(a) == KeyOf(b)
    ensures a == b
  {}

  /** The record holds, under each slot's key, the text of the last call for the slot. */
  lemma {:induction false} RecordKeeps(calls: seq<Call>, slot: Slot)
    requires AllUsable(calls) && UsableSlot(slot) && !slot.SelectSlot?
    ensures KeyOf(slot) in ParamsAfter(calls) <==> LastIn(calls, slot).Some?
    ensures LastIn(calls, slot).Some? ==> ParamsAfter(calls)[KeyOf(slot)] == TextOf(LastIn(calls, slot).value)
  {
    hide TextOf, KeyOf, Reserved;
    if calls != [] {
      var n := |calls| - 1;
      var own := SlotOf(calls[n]);
      RecordKeeps(calls[..n], slot);
      assert Usable(calls[n]);
      if own != slot && KeyOf(own) == KeyOf(slot) {
        KeysInjective(own, slot);
      }
    }
  }

  lemma {:induction false} SelectApart(calls: seq<Call>)
    requires AllUsable(calls)
    ensures "select" !in ParamsAfter(calls)
  {
    hide TextOf, Reserved;
    if calls != [] {
      var n := |calls| - 1;
      SelectApart(calls[..n]);
      assert Usable(calls[n]);
      if !calls[n].Selecting? && KeyOf(SlotOf(calls[n])) == "select" {
        KeysInjective(SlotOf(calls[n]), SelectSlot);
      }
    }
  }

  function SlotOfKey(key: string): (slot: Slot)
    ensures UsableSlot(slot) && KeyOf(slot) == key
  {
    if key == "select" then SelectSlot
    else if key == "order" then OrderSlot
    else if key == "limit" then LimitSlot
    else if key == "offset" then OffsetSlot
    else FilterSlot(key)
  }

  /** What is sent under the key of a slot. */
  lemma SentValue(calls: seq<Call>, slot: Slot)
    requires AllUsable(calls) && UsableSlot(slot)
    ensures KeyOf(slot) in Sent(calls) <==>
      LastIn(calls, slot).Some? && (slot.SelectSlot? ==> TextOf(LastIn(calls, slot).value) != "")
    ensures KeyOf(slot) in Sent(calls) ==> Sent(calls)[KeyOf(slot)] == TextOf(LastIn(calls, slot).value)
  {
    hide TextOf, Reserved;
    SelectApart(calls);
    if slot.SelectSlot? {
    } else {
      if KeyOf(slot) == "select" {
        KeysInjective(slot, SelectSlot);
      }
      RecordKeeps(calls, slot);
    }
  }

  /** Every text sent is well-formed, and means the call it was made from. */
  lemma CallReadsBack(call: Call)
    requires Usable(call)
    ensures ErrorIn(Param(KeyOf(SlotOf(call)), TextOf(call))).None?
    ensures call.Filtering? ==>
      FilterIn(Param(call.column, TextOf(call))) == Ok(Filter(call.column, call.operator, call.value))
    ensures call.Ordering? ==> SortsIn(TextOf(call)) == [Sort(call.column, call.direction)]
    ensures call.Limiting? || call.Skipping? ==> ParseI64(TextOf(call)) == Some(call.n)
  {
    hide FilterIn, SortsIn, ParseI64, PrintInt, FromStr, OrderableColumn, DirectionWord;
    match call
    case Selecting(_) =>
    case Filtering(op, column, value) => FilterReadsBack(op, column, value);
    case Ordering(column, d) => OrderReadsBack(column, d);
    case Limiting(n) => ParsePrinted(n);
    case Skipping(n) => ParsePrinted(n);
  }

  lemma SentReadsBack(calls: seq<Call>, slot: Slot)
    requires AllUsable(calls) && UsableSlot(slot) && KeyOf(slot) in Sent(calls)
    ensures var text, call := Sent(calls)[KeyOf(slot)], LastIn(calls, slot);
      && call.Some? && SlotOf(call.value) == slot && text == TextOf(call.value)
      && ErrorIn(Param(KeyOf(slot), text)).None?
      && (slot.FilterSlot? ==>
           FilterIn(Param(slot.column, text)) == Ok(Filter(slot.column, call.value.operator, call.value.value)))
      && (slot.OrderSlot? ==> SortsIn(text) == [Sort(call.value.column, call.value.direction)])
      && (slot.LimitSlot? || slot.OffsetSlot? ==> ParseI64(text) == Some(call.value.n))
  {
    hide Sent, TextOf, ErrorIn, FilterIn, SortsIn, ParseI64, KeyOf;
    SentValue(calls, slot);
    assert Usable(LastIn(calls, slot).value);
    CallReadsBack(LastIn(calls, slot).value);
    KeyOfFilter(slot);
  }

  lemma KeyOfFilter(slot: Slot)
    ensures slot.FilterSlot? ==> KeyOf(slot) == slot.column
  {}

  /**
   * For every sequence of fluent calls and every order in which the record is serialised, the engine
   * accepts the parameters and reads exactly the last call of every slot.
   */
  lemma SdkRoundTrip(calls: seq<Call>, params: seq<Param>)
    requires AllUsable(calls) && Enumerates(params, Sent(calls))
    ensures WellFormed(params) && Intended(calls, Meaning(params))
  {
    var m := Sent(calls);
    MapMeaning(params, m);
    hide Sent, ErrorIn, FilterIn, SortsIn, NamesIn, ParseI64, Reserved, TextOf;
    forall key | key in m
      ensures ErrorIn(Param(key, m[key])).None?
    {
      SentReadsBack(calls, SlotOfKey(key));
    }
    FixedSlots(calls, m);
    forall f
      ensures f in Meaning(params).filters <==>
        LastIn(calls, FilterSlot(f.column)) == Some(Filtering(f.operator, f.column, f.value))
    {
      FilterSlotRead(calls, f);
    }
  }

  lemma FilterSlotRead(calls: seq<Call>, f: Filter)
    requires AllUsable(calls)
    ensures var m := Sent(calls);
      (f.column in m && !Reserved(f.column) && FilterIn(Param(f.column, m[f.column])) == Ok(f))
      <==> LastIn(calls, FilterSlot(f.column)) == Some(Filtering(f.operator, f.column, f.value))
  {
    hide Sent, ErrorIn, FilterIn, SortsIn, ParseI64, Reserved, TextOf;
    var slot := FilterSlot(f.column);
    if LastIn(calls, slot).Some? {
      assert Usable(LastIn(calls, slot).value);
    }
    if !Reserved(f.column) {
      SentValue(calls, slot);
      if f.column in Sent(calls) {
        SentReadsBack(calls, slot);
      }
    }
  }

  lemma FixedSlots(calls: seq<Call>, m: map<string, string>)
    requires AllUsable(calls) && m == Sent(calls)
    ensures (if "select" in m then Some(NamesIn(m["select"])) else None)
         == (match LastIn(calls, SelectSlot)
             case Some(call) => if call.columns == "" then None else Some(NamesIn(call.columns))
             case None => None)
    ensures (if "order" in m then SortsIn(m["order"]) else [])
         == (match LastIn(calls, OrderSlot)
             case Some(call) => [Sort(call.column, call.direction)]
             case None => [])
    ensures (if "limit" in m then ParseI64(m["limit"]) else None)
         == (match LastIn(calls, LimitSlot) case Some(call) => Some(call.n) case None => None)
    ensures (if "offset" in m then ParseI64(m["offset"]) else None)
         == (match LastIn(calls, OffsetSlot) case Some(call) => Some(call.n) case None => None)
  {
    hide Sent, ErrorIn, FilterIn, SortsIn, NamesIn, ParseI64, Reserved;
    SentValue(calls, SelectSlot);
    SentValue(calls, OrderSlot);
    SentValue(calls, LimitSlot);
    SentValue(calls, OffsetSlot);
    if "order" in m { SentReadsBack(calls, OrderSlot); }
    if "limit" in m { SentReadsBack(calls, LimitSlot); }
    if "offset" in m { SentReadsBack(calls, OffsetSlot); }
  }
}
