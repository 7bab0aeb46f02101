/** Pieces of SQL text and their readers: quoted names, placeholders, separated lists. */
module SqlText {
  import opened Wrappers
  import opened Text
  import opened Decimal

  function Quoted(name: string): string {
    "\"" + name + "\""
  }

  function Placeholder(n: nat): string {
    "$" + Print(n)
  }

  /** Reads one thing off the front of a text; what follows is left over. */
  type Reader<!T> = string -> Option<(T, string)>

  function ReadName(s: string): Option<(string, string)> {
    if s != "" && s[0] == '\"' then ReadUntil(s[1..], '\"') else None
  }

  function ReadPlaceholder(s: string): Option<(nat, string)> {
    if s != "" && s[0] == '$' then Scan(s[1..]) else None
  }

  lemma NameReadsBack(name: string, rest: string)
    requires '\"' !in name
    ensures ReadName(Quoted(name) + rest) == Some((name, rest))
  {
    ReadUntilAppended(name, rest, '\"');
    assert (Quoted(name) + rest)[1..] == name + ['\"'] + rest;
  }

  lemma PlaceholderReadsBack(n: nat, rest: string)
    requires !StartsWithDigit(rest)
    ensures ReadPlaceholder(Placeholder(n) + rest) == Some((n, rest))
  {
    hide Print, Scan;
    ScanPrinted(n, rest);
    assert (Placeholder(n) + rest)[1..] == Print(n) + rest;
  }

  // ----- lists ------------------------------------------------------------------------------

  /** One or more items with `sep` between them. */
  function ReadList<T>(read: Reader<T>, sep: string, s: string): (r: Option<(seq<T>, string)>)
    ensures r.Some? ==> r.value.0 != []
    decreases |s|
  {
    match read(s)
    case None => None
    case Some((item, rest)) =>
      match StripPrefix(rest, sep)
      case None => Some(([item], rest))
      case Some(more) =>
        if |more| >= |s| then None
        else
          match ReadList(read, sep, more)
          case Some((items, after)) => Some(([item] + items, after))
          case None => None
  }

  function Rendered<T>(render: T -> string, items: seq<T>): (texts: seq<string>)
    ensures |texts| == |items|
  {
    seq(|items|, i requires 0 <= i < |items| => render(items[i]))
  }

  lemma RenderedStep<T>(render: T -> string, items: seq<T>, item: T)
    ensures Rendered(render, items + [item]) == Rendered(render, items) + [render(item)]
  {}

  /** In front of every text of `follow`, the reader undoes the renderer. */
  ghost predicate ReadsBack<T>(read: Reader<T>, render: T -> string, item: T, follow: string -> bool) {
    forall rest :: follow(rest) ==> read(render(item) + rest) == Some((item, rest))
  }

  lemma {:induction false} ListReadsBack<T>(
      read: Reader<T>, render: T -> string, follow: string -> bool, items: seq<T>, sep: string, rest: string)
    requires items != [] && sep != ""
    requires forall i :: 0 <= i < |items| ==> ReadsBack(read, render, items[i], follow)
    requires forall more :: follow(sep + more)
    requires follow(rest) && !(sep <= rest)
    ensures ReadList(read, sep, Join(Rendered(render, items), sep) + rest) == Some((items, rest))
  {
    var texts := Rendered(render, items);
    assert ReadsBack(read, render, items[0], follow);
    if |items| == 1 {
      assert Join(texts, sep) + rest == render(items[0]) + rest;
      assert [items[0]] == items;
    } else {
      var more := Join(texts[1..], sep) + rest;
      assert texts[1..] == Rendered(render, items[1..]);
      ListReadsBack(read, render, follow, items[1..], sep, rest);
      JoinHead(texts, sep, rest);
      hide Join, Rendered, ReadsBack;
      StripAppended(sep, more);
      assert [items[0]] + items[1..] == items;
    }
  }

  lemma JoinHead(texts: seq<string>, sep: string, rest: string)
    requires |texts| > 1
    ensures Join(texts, sep) + rest == texts[0] + (sep + (Join(texts[1..], sep) + rest))
  {}

  /** What holds of everything the reader reads holds of the items of a list. */
  lemma {:induction false} ListItems<T>(read: Reader<T>, sep: string, s: string, good: T -> bool)
    requires forall t :: read(t).Some? ==> good(read(t).value.0)
    requires ReadList(read, sep, s).Some?
    ensures forall i :: 0 <= i < |ReadList(read, sep, s).value.0| ==> good(ReadList(read, sep, s).value.0[i])
    decreases |s|
  {
    var (item, rest) := read(s).value;
    var more := StripPrefix(rest, sep);
    if more.Some? {
      ListItems(read, sep, more.value, good);
    }
  }

  lemma NamesReadBack(names: seq<string>, rest: string)
    requires names != [] && forall name :: name in names ==> '\"' !in name
    requires !(", " <= rest)
    ensures ReadList(ReadName, ", ", Join(Rendered(Quoted, names), ", ") + rest) == Some((names, rest))
  {
    forall i | 0 <= i < |names|
      ensures ReadsBack(ReadName, Quoted, names[i], (r: string) => true)
    {
      forall r: string
        ensures ReadName(Quoted(names[i]) + r) == Some((names[i], r))
      {
        NameReadsBack(names[i], r);
      }
    }
    ListReadsBack(ReadName, Quoted, (r: string) => true, names, ", ", rest);
  }

  predicate NoDigitFirst(rest: string) {
    !StartsWithDigit(rest)
  }

  lemma PlaceholdersReadBack(places: seq<nat>, rest: string)
    requires places != [] && !StartsWithDigit(rest) && !(", " <= rest)
    ensures ReadList(ReadPlaceholder, ", ", Join(Rendered(Placeholder, places), ", ") + rest) == Some((places, rest))
  {
    forall i | 0 <= i < |places|
      ensures ReadsBack(ReadPlaceholder, Placeholder, places[i], NoDigitFirst)
    {
      forall r | NoDigitFirst(r)
        ensures ReadPlaceholder(Placeholder(places[i]) + r) == Some((places[i], r))
      {
        PlaceholderReadsBack(places[i], r);
      }
    }
    ListReadsBack(ReadPlaceholder, Placeholder, NoDigitFirst, places, ", ", rest);
  }
}
