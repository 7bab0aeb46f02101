/**
 * The two ways a list query reaches `parse_query_params`: straight over HTTP (`api/routes.rs`), or
 * through the gateway (`proxy/engine.go`) and the engine's gRPC service (`grpc/server.rs`).
 */
module ListTransport {
  import opened Wrappers
  import opened Text
  import opened Decimal
  import opened QueryFilter
  import opened SdkQuery

  /** Go's `url.Values`: for every key the values it was given, in order. */
  type UrlQuery = q: map<string, seq<string>> | forall key :: key in q ==> q[key] != []

  function Get(query: UrlQuery, key: string): string {
    if key in query then query[key][0] else ""
  }

  datatype ListRowsRequest = ListRowsRequest(
    filters: map<string, string>, select: string, order: string, limit: int, offset: int)

  /** The variable `fmt.Sscanf` scans into keeps its zero when the scan fails. */
  function ScannedOrZero(text: string): int {
    match ScanSigned(text) case Some((n, _)) => n case None => 0
  }

  function FirstFilters(query: UrlQuery): map<string, string> {
    map key | key in query && !Reserved(key) :: query[key][0]
  }

  function RequestFor(query: UrlQuery): ListRowsRequest {
    ListRowsRequest(FirstFilters(query), Get(query, "select"), Get(query, "order"),
                    ScannedOrZero(Get(query, "limit")), ScannedOrZero(Get(query, "offset")))
  }

  method GatewayListRows(query: UrlQuery) returns (req: ListRowsRequest)
    ensures req == RequestFor(query)
  {
    hide Reserved;
    var filters: map<string, string> := map[];
    var left := query.Keys;
    while left != {}
      invariant left <= query.Keys
      invariant forall key :: key in filters <==> key in query.Keys - left && !Reserved(key)
      invariant forall key :: key in filters ==> filters[key] == query[key][0]
      decreases |left|
    {
      var key :| key in left;
      left := left - {key};
      if !Reserved(key) {
        filters := filters[key := query[key][0]];
      }
    }
    assert filters == FirstFilters(query);
    var limit, offset := 0, 0;
    EmptyScansToZero();
    if Get(query, "limit") != "" {
      limit := ScannedOrZero(Get(query, "limit"));
    }
    if Get(query, "offset") != "" {
      offset := ScannedOrZero(Get(query, "offset"));
    }
    req := ListRowsRequest(filters, Get(query, "select"), Get(query, "order"), limit, offset);
  }

  lemma EmptyScansToZero()
    ensures ScannedOrZero("") == 0
  {}

  /** A hash map collected into a vector: its entries in some order. */
  method Collect(m: map<string, string>) returns (params: seq<Param>)
    ensures Enumerates(params, m)
  {
    params := [];
    var left := m.Keys;
    while left != {}
      invariant left <= m.Keys
      invariant forall p :: p in params <==> p.key in m.Keys - left && m[p.key] == p.value
      invariant forall i, j :: 0 <= i < j < |params| ==> params[i].key != params[j].key
      decreases |left|
    {
      var key :| key in left;
      assert forall p :: p in params ==> p.key != key;
      left := left - {key};
      params := params + [Param(key, m[key])];
    }
  }

  /** What the gRPC service adds to the filters. */
  function Pushed(req: ListRowsRequest): seq<Param> {
    PushedText("select", NonEmpty(req.select)) + PushedText("order", NonEmpty(req.order))
    + PushedText("limit", Positive(req.limit)) + PushedText("offset", Positive(req.offset))
  }

  function PushedText(key: string, text: Option<string>): seq<Param> {
    match text case Some(t) => [Param(key, t)] case None => []
  }

  function NonEmpty(text: string): Option<string> {
    if text != "" then Some(text) else None
  }

  function Positive(n: int): Option<string> {
    if n > 0 then Some(PrintInt(n)) else None
  }

  method GrpcParams(req: ListRowsRequest) returns (params: seq<Param>)
    ensures |Pushed(req)| <= |params| && params[|params| - |Pushed(req)|..] == Pushed(req)
    ensures Enumerates(params[..|params| - |Pushed(req)|], req.filters)
    ensures (forall key :: key in req.filters ==> !Reserved(key)) ==> Enumerates(params, Passed(req))
  {
    hide Enumerates, PrintInt;
    params := Collect(req.filters);
    ghost var filters := params;
    if req.select != "" {
      params := params + [Param("select", req.select)];
    }
    assert params == filters + PushedText("select", NonEmpty(req.select));
    ghost var before := params;
    if req.order != "" {
      params := params + [Param("order", req.order)];
    }
    assert params == before + PushedText("order", NonEmpty(req.order));
    before := params;
    if req.limit > 0 {
      params := params + [Param("limit", PrintInt(req.limit))];
    }
    assert params == before + PushedText("limit", Positive(req.limit));
    before := params;
    if req.offset > 0 {
      params := params + [Param("offset", PrintInt(req.offset))];
    }
    assert params == before + PushedText("offset", Positive(req.offset));
    hide PushedText;
    Reassociated(filters, PushedText("select", NonEmpty(req.select)), PushedText("order", NonEmpty(req.order)),
                 PushedText("limit", Positive(req.limit)), PushedText("offset", Positive(req.offset)));
    hide Passed, Reserved;
    if forall key :: key in req.filters ==> !Reserved(key) {
      GrpcEnumerates(req, filters);
    }
  }

  lemma Reassociated(a: seq<Param>, b: seq<Param>, c: seq<Param>, d: seq<Param>, e: seq<Param>)
    ensures a + b + c + d + e == a + (b + c + d + e)
    ensures (a + (b + c + d + e))[..|a|] == a && (a + (b + c + d + e))[|a|..] == b + c + d + e
  {}

  /** What the request carries under a key. */
  function Field(req: ListRowsRequest, key: string): Option<string> {
    if key == "select" then NonEmpty(req.select)
    else if key == "order" then NonEmpty(req.order)
    else if key == "limit" then Positive(req.limit)
    else if key == "offset" then Positive(req.offset)
    else if key in req.filters then Some(req.filters[key])
    else None
  }

  /** The parameters of a request as one map. */
  function Passed(req: ListRowsRequest): (m: map<string, string>)
    ensures forall key :: key in m <==> Field(req, key).Some?
    ensures forall key :: key in m ==> Field(req, key) == Some(m[key])
  {
    map key | key in req.filters.Keys + {"select", "order", "limit", "offset"} && Field(req, key).Some?
      :: Field(req, key).value
  }

  lemma GrpcEnumerates(req: ListRowsRequest, filters: seq<Param>)
    requires Enumerates(filters, req.filters)
    requires forall key :: key in req.filters ==> !Reserved(key)
    ensures Enumerates(filters + Pushed(req), Passed(req))
  {
    PushedIsReserved(req);
    PushedApart(req);
    FieldOfFilter(req);
    hide Reserved, Pushed, Passed, Field;
    var pushed := Pushed(req);
    var params := filters + pushed;
    forall i, j | 0 <= i < j < |params|
      ensures params[i].key != params[j].key
    {
      if i < |filters| <= j {
        assert params[i] in filters && params[j] in pushed;
      }
    }
    forall p
      ensures p in params <==> p.key in Passed(req) && Passed(req)[p.key] == p.value
    {
      assert p in params <==> p in filters || p in pushed;
    }
  }

  lemma FieldOfFilter(req: ListRowsRequest)
    ensures forall key :: !Reserved(key) ==>
      Field(req, key) == if key in req.filters then Some(req.filters[key]) else None
  {}

  lemma PushedIsReserved(req: ListRowsRequest)
    ensures forall p :: p in Pushed(req) <==> Reserved(p.key) && Field(req, p.key) == Some(p.value)
  {
    hide NonEmpty, Positive;
    KeysApart();
    var (s, o, l, k) := (PushedText("select", NonEmpty(req.select)), PushedText("order", NonEmpty(req.order)),
                         PushedText("limit", Positive(req.limit)), PushedText("offset", Positive(req.offset)));
    forall p
      ensures p in Pushed(req) <==> Reserved(p.key) && Field(req, p.key) == Some(p.value)
    {
      assert p in Pushed(req) <==> p in s || p in o || p in l || p in k;
    }
  }

  lemma PushedApart(req: ListRowsRequest)
    ensures forall i, j :: 0 <= i < j < |Pushed(req)| ==> Pushed(req)[i].key != Pushed(req)[j].key
  {
    KeysApart();
    hide NonEmpty, Positive, Reserved;
  }

  /** `Query<HashMap<String, String>>`: the last value of a repeated key. */
  function DirectMap(query: UrlQuery): map<string, string> {
    map key | key in query :: query[key][|query[key]| - 1]
  }

  // ----- when the two ways agree ------------------------------------------------------------

  /** No key has two different values. */
  ghost predicate SingleValued(query: UrlQuery) {
    forall key :: key in query ==> query[key][0] == query[key][|query[key]| - 1]
  }

  function RowsSkipped(offset: Option<int>): int {
    match offset case Some(n) => n case None => 0
  }

  /** The same query, but for the order of the filters. */
  ghost predicate SameMeaning(p: QueryParams, q: QueryParams) {
    && p.select == q.select && p.order == q.order && p.limit == q.limit
    && RowsSkipped(p.offset) == RowsSkipped(q.offset)
    && (forall f :: f in p.filters <==> f in q.filters)
    && DistinctColumns(p.filters) && DistinctColumns(q.filters)
  }

  /** What survives the fields of the request message, where an empty text or a zero means absent. */
  predicate Transportable(query: UrlQuery) {
    && ("select" in query ==> Get(query, "select") != "")
    && ("order" in query ==> Get(query, "order") != "")
    && ("limit" in query ==> ScannedOrZero(Get(query, "limit")) >= 1)
    && ("offset" in query ==> ScannedOrZero(Get(query, "offset")) >= 0)
  }

  lemma ScanParsed(text: string)
    requires ParseI64(text).Some?
    ensures ScanSigned(text) == Some((ParseI64(text).value, ""))
  {
    var digits := if text[0] == '-' || text[0] == '+' then text[1..] else text;
    assert digits + "" == digits;
    RunAcross(digits, "");
    assert digits[..|digits|] == digits;
    assert !IsSpace('-') && !IsSpace('+');
    NothingToSkip(text);
  }

  /**
   * The gRPC way never rejects a query for its numbers, only for its filters; whenever the direct way
   * accepts a single-valued query, so does the gRPC way, and both mean the same exactly when the
   * query is transportable.
   */
  lemma TransportsAgree(query: UrlQuery, direct: seq<Param>, viaGrpc: seq<Param>)
    requires SingleValued(query)
    requires Enumerates(direct, DirectMap(query)) && Enumerates(viaGrpc, Passed(RequestFor(query)))
    ensures WellFormed(viaGrpc) <==>
      forall key :: key in query && !Reserved(key) ==> ErrorIn(Param(key, query[key][0])).None?
    ensures WellFormed(direct) ==> WellFormed(viaGrpc)
    ensures WellFormed(direct) ==>
      (SameMeaning(Meaning(direct), Meaning(viaGrpc)) <==> Transportable(query))
  {
    hide *;
    MapMeaning(direct, DirectMap(query));
    MapMeaning(viaGrpc, Passed(RequestFor(query)));
    PassedWellFormed(query);
    if WellFormed(direct) {
      DirectWellFormed(query);
      MeaningsAgree(query, Meaning(direct), Meaning(viaGrpc));
    }
  }

  lemma DirectWellFormed(query: UrlQuery)
    requires SingleValued(query)
    requires forall key :: key in DirectMap(query) ==> ErrorIn(Param(key, DirectMap(query)[key])).None?
    ensures forall key :: key in query && !Reserved(key) ==> ErrorIn(Param(key, query[key][0])).None?
  {
    hide ErrorIn, Reserved;
    assert forall key :: key in query ==> key in DirectMap(query) && DirectMap(query)[key] == query[key][0];
  }

  lemma MeaningsAgree(query: UrlQuery, p: QueryParams, q: QueryParams)
    requires SingleValued(query) && MeantBy(p, DirectMap(query)) && MeantBy(q, Passed(RequestFor(query)))
    requires forall key :: key in DirectMap(query) ==> ErrorIn(Param(key, DirectMap(query)[key])).None?
    ensures SameMeaning(p, q) <==> Transportable(query)
  {
    FiltersAgree(query, p, q);
    FieldsAgree(query);
    hide ErrorIn, FilterIn, Reserved, Passed, RequestFor, DirectMap, NamesIn, SortsIn, ParseI64, Transportable;
  }

  /** The map that reaches the parser over gRPC. */
  lemma PassedValues(query: UrlQuery)
    ensures var g := Passed(RequestFor(query));
      && (forall key :: !Reserved(key) ==> (key in g <==> key in query) && (key in g ==> g[key] == query[key][0]))
      && ("select" in g <==> Get(query, "select") != "") && ("select" in g ==> g["select"] == Get(query, "select"))
      && ("order" in g <==> Get(query, "order") != "") && ("order" in g ==> g["order"] == Get(query, "order"))
      && ("limit" in g <==> ScannedOrZero(Get(query, "limit")) > 0)
      && ("limit" in g ==> g["limit"] == PrintInt(ScannedOrZero(Get(query, "limit"))))
      && ("offset" in g <==> ScannedOrZero(Get(query, "offset")) > 0)
      && ("offset" in g ==> g["offset"] == PrintInt(ScannedOrZero(Get(query, "offset"))))
  {
    var req := RequestFor(query);
    FixedFields(req);
    FieldOfFilter(req);
    hide Reserved, Field, Passed, ScannedOrZero, PrintInt, Get;
  }

  lemma FixedFields(req: ListRowsRequest)
    ensures Field(req, "select") == NonEmpty(req.select) && Field(req, "order") == NonEmpty(req.order)
    ensures Field(req, "limit") == Positive(req.limit) && Field(req, "offset") == Positive(req.offset)
  {
    hide NonEmpty, Positive;
  }

  lemma PassedWellFormed(query: UrlQuery)
    ensures var g := Passed(RequestFor(query));
      (forall key :: key in g ==> ErrorIn(Param(key, g[key])).None?)
      <==> forall key :: key in query && !Reserved(key) ==> ErrorIn(Param(key, query[key][0])).None?
  {
    var g := Passed(RequestFor(query));
    PassedValues(query);
    forall key | key in g && Reserved(key)
      ensures ErrorIn(Param(key, g[key])).None?
    {
      hide Passed, RequestFor, ScannedOrZero, PrintInt, ParseI64;
      KeysApart();
      if key == "limit" || key == "offset" {
        ScannedPrints(Get(query, key));
      }
    }
    hide Passed, RequestFor, ErrorIn, Reserved, ScannedOrZero, PrintInt;
    if forall key :: key in query && !Reserved(key) ==> ErrorIn(Param(key, query[key][0])).None? {
      assert forall key :: key in g ==> ErrorIn(Param(key, g[key])).None?;
    } else {
      var key :| key in query && !Reserved(key) && ErrorIn(Param(key, query[key][0])).Some?;
      assert key in g && g[key] == query[key][0];
    }
  }

  lemma ScannedPrints(text: string)
    ensures ParseI64(PrintInt(ScannedOrZero(text))) == Some(ScannedOrZero(text))
  {
    hide PrintInt, ParseI64;
    ParsePrinted(ScannedOrZero(text));
  }

  /** The four fields of the request: they arrive as they are exactly when the query is transportable. */
  lemma FieldsAgree(query: UrlQuery)
    requires SingleValued(query)
    requires forall key :: key in query ==> ErrorIn(Param(key, DirectMap(query)[key])).None?
    ensures var d, g := DirectMap(query), Passed(RequestFor(query));
      Transportable(query) <==>
        && (("select" in d) == ("select" in g)) && ("select" in d ==> NamesIn(d["select"]) == NamesIn(g["select"]))
        && (if "order" in d then SortsIn(d["order"]) else []) == (if "order" in g then SortsIn(g["order"]) else [])
        && (if "limit" in d then ParseI64(d["limit"]) else None) == (if "limit" in g then ParseI64(g["limit"]) else None)
        && RowsSkipped(if "offset" in d then ParseI64(d["offset"]) else None)
           == RowsSkipped(if "offset" in g then ParseI64(g["offset"]) else None)
  {
    var d, g := DirectMap(query), Passed(RequestFor(query));
    PassedValues(query);
    NumberField(query, "limit");
    NumberField(query, "offset");
    hide Passed, RequestFor, NamesIn, SortsIn, ParseI64, PrintInt, ScannedOrZero, ErrorIn;
  }

  lemma NumberField(query: UrlQuery, key: string)
    requires SingleValued(query) && (key == "limit" || key == "offset")
    requires key in query ==> ErrorIn(Param(key, DirectMap(query)[key])).None?
    ensures key in query ==> ParseI64(DirectMap(query)[key]) == Some(ScannedOrZero(Get(query, key)))
    ensures key !in query ==> ScannedOrZero(Get(query, key)) == 0
    ensures ParseI64(PrintInt(ScannedOrZero(Get(query, key)))) == Some(ScannedOrZero(Get(query, key)))
  {
    ScannedPrints(Get(query, key));
    hide ParseI64, ScanSigned, PrintInt;
    if key in query {
      ScanParsed(DirectMap(query)[key]);
    } else {
      EmptyScansToZero();
    }
  }

  lemma FiltersAgree(query: UrlQuery, p: QueryParams, q: QueryParams)
    requires SingleValued(query) && MeantBy(p, DirectMap(query)) && MeantBy(q, Passed(RequestFor(query)))
    ensures forall f :: f in p.filters <==> f in q.filters
    ensures DistinctColumns(p.filters) && DistinctColumns(q.filters)
  {
    PassedValues(query);
    hide Passed, RequestFor, FilterIn, Reserved, NamesIn, SortsIn, ParseI64;
    var d, g := DirectMap(query), Passed(RequestFor(query));
    forall f
      ensures f in p.filters <==> f in q.filters
    {
      if !Reserved(f.column) {
        assert f.column in d <==> f.column in g;
        if f.column in d {
          assert d[f.column] == g[f.column];
        }
      }
    }
  }

  // ----- from the client's calls to the engine's query --------------------------------------

  /** One value for every parameter sent. */
  function UrlOf(sent: map<string, string>): UrlQuery {
    map key | key in sent :: [sent[key]]
  }

  /**
   * A client's calls, sent through the gateway and gRPC, reach the engine as intended whenever its
   * last limit is at least 1 and its last offset not negative.
   */
  lemma CallsThroughGateway(calls: seq<Call>, direct: seq<Param>, viaGrpc: seq<Param>)
    requires AllUsable(calls)
    requires LastIn(calls, LimitSlot).Some? ==> LastIn(calls, LimitSlot).value.n >= 1
    requires LastIn(calls, OffsetSlot).Some? ==> LastIn(calls, OffsetSlot).value.n >= 0
    requires Enumerates(direct, Sent(calls))
    requires Enumerates(viaGrpc, Passed(RequestFor(UrlOf(Sent(calls)))))
    ensures WellFormed(direct) && Intended(calls, Meaning(direct))
    ensures WellFormed(viaGrpc) && SameMeaning(Meaning(direct), Meaning(viaGrpc))
  {
    var query := UrlOf(Sent(calls));
    SdkRoundTrip(calls, direct);
    assert DirectMap(query) == Sent(calls);
    TransportsAgree(query, direct, viaGrpc);
    SentTransportable(calls);
  }

  lemma SentTransportable(calls: seq<Call>)
    requires AllUsable(calls)
    requires LastIn(calls, LimitSlot).Some? ==> LastIn(calls, LimitSlot).value.n >= 1
    requires LastIn(calls, OffsetSlot).Some? ==> LastIn(calls, OffsetSlot).value.n >= 0
    ensures Transportable(UrlOf(Sent(calls)))
  {
    hide Sent, Get, UrlOf, ScannedOrZero, AllUsable, LastIn, KeyOf;
    SentTexts(calls);
    UrlKeys(Sent(calls));
    SentLimits(calls);
  }

  lemma SentLimits(calls: seq<Call>)
    requires AllUsable(calls)
    ensures "limit" in Sent(calls) ==>
      && LastIn(calls, LimitSlot).Some?
      && ScannedOrZero(Get(UrlOf(Sent(calls)), "limit")) == LastIn(calls, LimitSlot).value.n
    ensures "offset" in Sent(calls) ==>
      && LastIn(calls, OffsetSlot).Some?
      && ScannedOrZero(Get(UrlOf(Sent(calls)), "offset")) == LastIn(calls, OffsetSlot).value.n
  {
    hide Sent, Get, UrlOf, ScannedOrZero, AllUsable, LastIn;
    if "limit" in Sent(calls) {
      SentNumber(calls, LimitSlot);
    }
    if "offset" in Sent(calls) {
      SentNumber(calls, OffsetSlot);
    }
  }

  lemma UrlKeys(sent: map<string, string>)
    ensures forall key :: key in UrlOf(sent) <==> key in sent
    ensures forall key :: key in sent ==> Get(UrlOf(sent), key) == sent[key]
  {}

  lemma SentTexts(calls: seq<Call>)
    requires AllUsable(calls)
    ensures "select" in Sent(calls) ==> Get(UrlOf(Sent(calls)), "select") != ""
    ensures "order" in Sent(calls) ==> Get(UrlOf(Sent(calls)), "order") != ""
  {
    SentValue(calls, SelectSlot);
    SentValue(calls, OrderSlot);
    UrlKeys(Sent(calls));
    hide Sent, Get, UrlOf, LastIn, Reserved, PrintInt;
  }

  lemma SentNumber(calls: seq<Call>, slot: Slot)
    requires AllUsable(calls) && (slot.LimitSlot? || slot.OffsetSlot?) && KeyOf(slot) in Sent(calls)
    ensures LastIn(calls, slot).Some?
    ensures ScannedOrZero(Get(UrlOf(Sent(calls)), KeyOf(slot))) == LastIn(calls, slot).value.n
  {
    hide Sent, ParseI64, ScanSigned, SortsIn, Reserved, KeyOf;
    UrlKeys(Sent(calls));
    SentReadsBack(calls, slot);
    ScanParsed(Sent(calls)[KeyOf(slot)]);
  }

  /** A limit of zero is lost on the gRPC way: the direct way returns no rows, the other all of them. */
  lemma ZeroLimitIsLost(query: UrlQuery, direct: seq<Param>, viaGrpc: seq<Param>)
    requires SingleValued(query) && "limit" in query && ParseI64(query["limit"][0]) == Some(0)
    requires Enumerates(direct, DirectMap(query)) && Enumerates(viaGrpc, Passed(RequestFor(query)))
    requires WellFormed(direct) && WellFormed(viaGrpc)
    ensures Meaning(direct).limit == Some(0) && Meaning(viaGrpc).limit == None
  {
    hide *;
    MapMeaning(direct, DirectMap(query));
    MapMeaning(viaGrpc, Passed(RequestFor(query)));
    PassedValues(query);
    ScanParsed(query["limit"][0]);
    LimitsOf(query, Meaning(direct), Meaning(viaGrpc));
  }

  lemma LimitsOf(query: UrlQuery, p: QueryParams, q: QueryParams)
    requires SingleValued(query) && "limit" in query && ParseI64(query["limit"][0]) == Some(0)
    requires ScanSigned(query["limit"][0]) == Some((0, ""))
    requires MeantBy(p, DirectMap(query)) && MeantBy(q, Passed(RequestFor(query)))
    requires "limit" in Passed(RequestFor(query)) <==> ScannedOrZero(Get(query, "limit")) > 0
    ensures p.limit == Some(0) && q.limit == None
  {
    hide Passed, RequestFor, ParseI64, ScanSigned, NamesIn, SortsIn, FilterIn, Reserved, DistinctColumns;
  }
}
