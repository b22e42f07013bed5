/**
 Checked snapshot paging against an untrusted server. Every page is verified before
 it is handed on, and the verified facts become the demands on the next page.
 */
module Paging {
  import opened Common

  /** A decoded JSON value; `Undefined` is an absent member, `Fraction` a number that is no integer. */
  datatype Json =
    | Undefined
    | Null
    | Bool(b: bool)
    | Num(n: int)
    | Fraction(r: real)
    | Str(s: string)
    | Arr(items: seq<Json>)
    | Obj(fields: map<string, Json>)

  /** `meta.pagination` exactly as received: nothing about it is trusted. */
  datatype Pagination = Pagination(
    snapshot: Json,
    cursor: Json,
    total: Json,
    returned: Json,
    collection: Json,
    nextCursor: Json)

  datatype Page = Page(data: map<string, Json>, pagination: Option<Pagination>)

  /** The two query members paging itself owns. */
  datatype Query = Query(pageSnapshot: Json, cursor: Json)

  datatype Failure = RequestFailed | RestartRequired

  /** Any server at all: the n-th answer may depend on everything, through `n`. */
  type Server = (nat, Query) -> Result<Page, Failure>

  /** `Number(value)` where it is an integer, for values whose conversion is not spelled out here. */
  type ToNumber = Json -> Option<int>

  datatype State = State(query: Query, total: Option<int>, collection: Option<string>)

  predicate IsHexDigit(c: char) {
    '0' <= c <= '9' || 'a' <= c <= 'f'
  }

  predicate IsSnapshotId(s: string) {
    |s| == 67 && s[..3] == "v1." && forall i :: 3 <= i < 67 ==> IsHexDigit(s[i])
  }

  const START: Json := Str("start")

  /** A snapshot identifier is `v1.` and 64 lower-case hexadecimal digits. */
  lemma SnapshotIdExactly(s: string)
    ensures IsSnapshotId(s) <==> exists h: string ::
              |h| == 64 && s == "v1." + h && forall i :: 0 <= i < 64 ==> h[i] in "0123456789abcdef"
  {
    if IsSnapshotId(s) {
      var h := s[3..];
      assert s == "v1." + h && forall i :: 0 <= i < 64 ==> h[i] == s[i + 3] && IsHexDigit(h[i]);
    }
    if h: string :| |h| == 64 && s == "v1." + h && forall i :: 0 <= i < 64 ==> h[i] in "0123456789abcdef" {
      assert forall i :: 3 <= i < 67 ==> s[i] == h[i - 3];
    }
  }

  function CursorOf(toNumber: ToNumber, q: Query): Option<int> {
    match q.cursor
    case Undefined => Some(0)
    case Num(n) => Some(n)
    case other => toNumber(other)
  }

  // ---- what a page claims, and when the claim is believed ----

  /** A page read as a claim: rows `[cursor, cursor + |rows|)` of `total` in one snapshot. */
  datatype View = View(snapshot: string, collection: string, cursor: int, rows: seq<Json>, total: int, last: bool)
  {
    function End(): int {
      cursor + |rows|
    }
  }

  /** The last page ends at the total; any other page has rows and ends before it. */
  predicate Fits(v: View) {
    if v.last then v.End() == v.total else v.cursor < v.End() < v.total
  }

  /** `page` spells out the claim `v`, and the claim's own arithmetic holds together. */
  ghost predicate Claims(page: Page, v: View) {
    && IsSnapshotId(v.snapshot)
    && 0 <= v.cursor && IsSafeInteger(v.total) && Fits(v)
    && v.collection in page.data && page.data[v.collection] == Arr(v.rows)
    && page.pagination == Some(Pagination(
         Str(v.snapshot), Num(v.cursor), Num(v.total), Num(|v.rows|), Str(v.collection),
         if v.last then Null else Num(v.End())))
  }

  /** The claim answers the question asked and agrees with every page before it. */
  ghost predicate Follows(toNumber: ToNumber, st: State, v: View) {
    && (st.query.pageSnapshot == START || st.query.pageSnapshot == Str(v.snapshot))
    && (st.query.pageSnapshot == START ==> v.cursor == 0)
    && CursorOf(toNumber, st.query) == Some(v.cursor)
    && (st.total.Some? ==> st.total.value == v.total)
    && (st.collection.Some? ==> st.collection.value == v.collection)
  }

  function After(v: View): State {
    State(Query(Str(v.snapshot), Num(v.End())), Some(v.total), Some(v.collection))
  }

  /** A page makes at most one claim. */
  lemma ClaimIsUnique(page: Page, v: View, w: View)
    requires Claims(page, v) && Claims(page, w)
    ensures v == w
  {
  }

  // ---- the iterator's private copy of query and state ----

  class Pager {
    const toNumber: ToNumber
    var query: Query
    var total: Option<int>
    var collection: Option<string>

    constructor (toNumber: ToNumber, query: Query)
      ensures this.toNumber == toNumber && Now() == State(query, None, None)
    {
      this.toNumber, this.query, total, collection := toNumber, query, None, None;
    }

    function Now(): State
      reads this
    {
      State(query, total, collection)
    }

    /**
     Unchecked paging passes the server's cursor through. Checked paging accepts exactly
     the pages whose claim follows from the state, and otherwise changes nothing.
     */
    method NextPageCursor(page: Page) returns (r: Result<Json, Failure>)
      modifies this
      ensures old(query).pageSnapshot == Undefined ==>
                (Now() == old(Now())
                 && r == Ok(if page.pagination.Some? then page.pagination.value.nextCursor else Undefined))
      ensures old(query).pageSnapshot != Undefined ==>
                (r.Ok? <==> exists v :: Claims(page, v) && Follows(toNumber, old(Now()), v))
      ensures old(query).pageSnapshot != Undefined && r.Ok? ==>
                forall v :: Claims(page, v) ==> r.value == (if v.last then Null else Num(v.End()))
                                                && Now() ==
                                                   After(v).(query := old(query).(pageSnapshot := Str(v.snapshot)))
      ensures r.Err? ==> r == Err(RestartRequired) && Now() == old(Now())
    {
      var found := page.pagination;
      if query.pageSnapshot == Undefined {
        return Ok(if found.Some? then found.value.nextCursor else Undefined);
      }
      var rows := if found.Some? && found.value.collection.Str? && found.value.collection.s in page.data
        then page.data[found.value.collection.s] else Undefined;
      var number := CursorOf(toNumber, query);
      if found.None? || !rows.Arr? || !found.value.snapshot.Str? || !IsSnapshotId(found.value.snapshot.s)
         || (query.pageSnapshot != START && found.value.snapshot != query.pageSnapshot)
         || number.None? || !IsSafeInteger(number.value) || number.value < 0
         || (query.pageSnapshot == START && number.value != 0) || found.value.cursor != Num(number.value)
         || found.value.returned != Num(|rows.items|) || !found.value.total.Num? || !IsSafeInteger(found.value.total.n)
         || (total.Some? && found.value.total != Num(total.value))
         || (collection.Some? && found.value.collection != Str(collection.value))
      {
        return Err(RestartRequired);
      }
      var p := found.value;
      var end := number.value + |rows.items|;
      if p.total.n < end
         || (if p.nextCursor == Null then end != p.total.n
             else |rows.items| == 0 || p.nextCursor != Num(end) || end >= p.total.n)
      {
        return Err(RestartRequired);
      }
      ghost var v := View(p.snapshot.s, p.collection.s, number.value, rows.items, p.total.n, p.nextCursor == Null);
      assert Claims(page, v) && Follows(toNumber, old(Now()), v);
      forall w | Claims(page, w) ensures w == v {
        ClaimIsUnique(page, v, w);
      }
      query := query.(pageSnapshot := p.snapshot);
      total := Some(p.total.n);
      collection := Some(p.collection.s);
      return Ok(p.nextCursor);
    }
  }

  // ---- whole runs ----

  /** The pages handed on, in order, and why the run stopped (`None`: it completed). */
  datatype Trace = Trace(views: seq<View>, outcome: Option<Failure>)

  /** One request: the verified claim of its answer, or why the run stops here. */
  ghost function Step(server: Server, toNumber: ToNumber, n: nat, st: State): (r: Result<View, Failure>)
    ensures r.Ok? ==>
            server(n, st.query).Ok? && Claims(server(n, st.query).value, r.value) && Follows(toNumber, st, r.value)
    ensures r.Err? && server(n, st.query).Ok? ==>
              r.error == RestartRequired
              && forall v :: Claims(server(n, st.query).value, v) ==> !Follows(toNumber, st, v)
  {
    match server(n, st.query)
    case Err(e) => Err(e)
    case Ok(page) =>
      if exists v :: Claims(page, v) && Follows(toNumber, st, v) then
        var v :| Claims(page, v) && Follows(toNumber, st, v);
        Ok(v)
      else Err(RestartRequired)
  }

  /** The run of checked paging from the n-th request on; it ends against every server. */
  ghost function Run(server: Server, toNumber: ToNumber, n: nat, st: State): Trace
    decreases if Resumed(st) then 0 else 1, if Resumed(st) then Left(st) else 0
  {
    match Step(server, toNumber, n, st)
    case Err(e) => Trace([], Some(e))
    case Ok(v) =>
      if v.last then Trace([v], None)
      else
        var rest := Run(server, toNumber, n + 1, After(v));
        Trace([v] + rest.views, rest.outcome)
  }

  predicate Resumed(st: State) {
    st.total.Some? && st.query.cursor.Num?
  }

  function Left(st: State): int
    requires Resumed(st)
  {
    st.total.value - st.query.cursor.n
  }

  function AllRows(views: seq<View>): seq<Json> {
    if views == [] then [] else views[0].rows + AllRows(views[1..])
  }

  /** Requests made: one for each page handed on, and the failing one if the run failed. */
  function Fetches(t: Trace): nat {
    |t.views| + if t.outcome.Some? then 1 else 0
  }

  predicate SameCatalog(v: View, w: View) {
    v.snapshot == w.snapshot && v.collection == w.collection && v.total == w.total
  }

  /** Consecutive pages of one snapshot, one collection and one total, starting at row `origin`. */
  predicate Coherent(views: seq<View>, origin: int)
    decreases |views|
  {
    views == []
    || (&& views[0].cursor == origin && Fits(views[0])
        && (|views| > 1 ==> !views[0].last && SameCatalog(views[0], views[1]))
        && Coherent(views[1..], views[0].End()))
  }

  lemma {:induction false} CoherentPages(views: seq<View>, origin: int, i: nat)
    requires Coherent(views, origin) && i < |views|
    ensures views[i].cursor == origin + |AllRows(views[..i])|
    ensures SameCatalog(views[0], views[i])
    ensures views[i].last ==> i == |views| - 1
    decreases i
  {
    if i > 0 {
      CoherentPages(views[1..], views[0].End(), i - 1);
      assert views[..i][1..] == views[1..][..i - 1];
    }
  }

  /** Against any server the pages handed on are coherent and continue the given state. */
  lemma {:induction false} RunIsCoherent(server: Server, toNumber: ToNumber, n: nat, st: State)
    ensures var views := Run(server, toNumber, n, st).views;
            views != [] ==> Follows(toNumber, st, views[0]) && Coherent(views, views[0].cursor)
    decreases if Resumed(st) then 0 else 1, if Resumed(st) then Left(st) else 0
  {
    var views := Run(server, toNumber, n, st).views;
    if views != [] && !views[0].last {
      RunIsCoherent(server, toNumber, n + 1, After(views[0]));
      var rest := Run(server, toNumber, n + 1, After(views[0])).views;
      assert views[1..] == rest;
    }
  }

  /** A run completes exactly when its last page says so. */
  lemma {:induction false} RunCompletes(server: Server, toNumber: ToNumber, n: nat, st: State)
    ensures var t := Run(server, toNumber, n, st);
            t.outcome == None <==> t.views != [] && t.views[|t.views| - 1].last
    decreases if Resumed(st) then 0 else 1, if Resumed(st) then Left(st) else 0
  {
    var t := Run(server, toNumber, n, st);
    if t.views != [] && !t.views[0].last {
      RunCompletes(server, toNumber, n + 1, After(t.views[0]));
    }
  }

  function QueryAt(st: State, views: seq<View>, i: nat): Query
    requires i <= |views|
  {
    if i == 0 then st.query else After(views[i - 1]).query
  }

  /** The `i`-th page is the verified answer to the `i`-th request. */
  ghost predicate VerifiedAt(server: Server, n: nat, st: State, views: seq<View>, i: nat)
    requires i < |views|
  {
    var answer := server(n + i, QueryAt(st, views, i));
    answer.Ok? && Claims(answer.value, views[i])
  }

  /** Page by page: each is the verified answer to its request, and the next request follows from it. */
  ghost predicate AllVerified(server: Server, n: nat, st: State, views: seq<View>)
    decreases |views|
  {
    views == []
    || (&& server(n, st.query).Ok? && Claims(server(n, st.query).value, views[0])
        && AllVerified(server, n + 1, After(views[0]), views[1..]))
  }

  lemma {:induction false} RunIsVerified(server: Server, toNumber: ToNumber, n: nat, st: State)
    ensures AllVerified(server, n, st, Run(server, toNumber, n, st).views)
    decreases if Resumed(st) then 0 else 1, if Resumed(st) then Left(st) else 0
  {
    var views := Run(server, toNumber, n, st).views;
    if views != [] && !views[0].last {
      RunIsVerified(server, toNumber, n + 1, After(views[0]));
      assert views[1..] == Run(server, toNumber, n + 1, After(views[0])).views;
    }
  }

  lemma {:induction false} EachVerified(server: Server, n: nat, st: State, views: seq<View>, i: nat)
    requires AllVerified(server, n, st, views) && i < |views|
    ensures VerifiedAt(server, n, st, views, i)
    decreases i
  {
    if i > 0 {
      EachVerified(server, n + 1, After(views[0]), views[1..], i - 1);
      assert QueryAt(st, views, i) == QueryAt(After(views[0]), views[1..], i - 1);
    }
  }

  /** Every page handed on is the verified answer to its own request. */
  lemma RunYieldsVerifiedPages(server: Server, toNumber: ToNumber, n: nat, st: State, views: seq<View>, i: nat)
    requires views == Run(server, toNumber, n, st).views && i < |views|
    ensures VerifiedAt(server, n, st, views, i)
  {
    RunIsVerified(server, toNumber, n, st);
    EachVerified(server, n, st, views, i);
  }

  /** Pages, and a failing request after them, never outnumber the rows left to read. */
  lemma {:induction false} CoherentIsShort(views: seq<View>, origin: int)
    requires Coherent(views, origin) && views != []
    ensures |views| + (if views[|views| - 1].last then 0 else 1) <= Max(1, views[0].total - origin)
    decreases |views|
  {
    if |views| > 1 {
      CoherentIsShort(views[1..], views[0].End());
    }
  }

  /** Requests never outnumber the rows left, and only completion delivers them all. */
  ghost predicate Accounted(t: Trace) {
    t.views != [] ==>
      var first := t.views[0];
      && Fetches(t) <= Max(1, first.total - first.cursor)
      && (t.outcome == None <==> |AllRows(t.views)| == first.total - first.cursor)
  }

  lemma CoherentIsAccounted(t: Trace)
    requires t.views != [] ==> Coherent(t.views, t.views[0].cursor)
    requires t.outcome == None <==> t.views != [] && t.views[|t.views| - 1].last
    ensures Accounted(t) && (t.views == [] ==> Fetches(t) == 1)
  {
    if t.views != [] {
      CoherentIsShort(t.views, t.views[0].cursor);
      CoherentRows(t.views, t.views[0].cursor);
    }
  }

  /** The pages continue the state: from the first page (`START`, nothing known) they start at row 0. */
  ghost predicate Continues(toNumber: ToNumber, st: State, views: seq<View>) {
    views != [] ==>
      && Follows(toNumber, st, views[0]) && Coherent(views, views[0].cursor)
      && (st.query.pageSnapshot == START ==> views[0].cursor == 0)
  }

  /**
   Against any server: pages handed on are contiguous rows of one snapshot and continue the
   given state, requests never outnumber the rows left, and only completion delivers them all.
   */
  lemma CheckedPaging(server: Server, toNumber: ToNumber, n: nat, st: State)
    ensures Continues(toNumber, st, Run(server, toNumber, n, st).views)
    ensures Accounted(Run(server, toNumber, n, st))
    ensures Run(server, toNumber, n, st).views == [] ==> Fetches(Run(server, toNumber, n, st)) == 1
  {
    RunIsCoherent(server, toNumber, n, st);
    RunCompletes(server, toNumber, n, st);
    CoherentIsAccounted(Run(server, toNumber, n, st));
  }

  lemma {:induction false} CoherentRows(views: seq<View>, origin: int)
    requires Coherent(views, origin) && views != []
    ensures |AllRows(views)| == views[|views| - 1].End() - origin
    ensures SameCatalog(views[0], views[|views| - 1]) && Fits(views[|views| - 1])
    decreases |views|
  {
    if |views| > 1 {
      CoherentRows(views[1..], views[0].End());
    } else {
      assert views[1..] == [];
    }
  }

  /** What collecting a run's rows gives: all of them, or the run's failure. */
  function Rows(t: Trace): Result<seq<Json>, Failure> {
    if t.outcome == None then Ok(AllRows(t.views)) else Err(t.outcome.value)
  }

  ghost function Fetched(server: Server, toNumber: ToNumber, n: nat, st: State): Result<seq<Json>, Failure> {
    Rows(Run(server, toNumber, n, st))
  }

  function Behind(items: seq<Json>, r: Result<seq<Json>, Failure>): Result<seq<Json>, Failure> {
    if r.Ok? then Ok(items + r.value) else r
  }

  lemma ConsRows(v: View, rest: Trace, items: seq<Json>)
    ensures Behind(items, Rows(Trace([v] + rest.views, rest.outcome))) == Behind(items + v.rows, Rows(rest))
  {
    assert ([v] + rest.views)[1..] == rest.views;
    assert items + (v.rows + AllRows(rest.views)) == items + v.rows + AllRows(rest.views);
  }

  lemma FetchedStep(server: Server, toNumber: ToNumber, n: nat, st: State, items: seq<Json>)
    ensures Behind(items, Fetched(server, toNumber, n, st))
            == match Step(server, toNumber, n, st)
               case Err(e) => Err(e)
               case Ok(v) => if v.last then Ok(items + v.rows)
                             else Behind(items + v.rows, Fetched(server, toNumber, n + 1, After(v)))
  {
    match Step(server, toNumber, n, st)
    case Err(e) =>
    case Ok(v) =>
      var rest := if v.last then Trace([], None) else Run(server, toNumber, n + 1, After(v));
      assert [v] + [] == [v] && items + v.rows + [] == items + v.rows;
      ConsRows(v, rest, items);
  }

  lemma BehindNothing(r: Result<seq<Json>, Failure>)
    ensures Behind([], r) == r
  {
    assert r.Ok? ==> [] + r.value == r.value;
  }

  // ---- a server that slices a list ----

  /** The row a query asks for: the first without a cursor, else the one its cursor names. */
  predicate Wants(toNumber: ToNumber, q: Query, k: nat) {
    || (q.cursor == Undefined && k == 0)
    || q.cursor == Num(k)
    || (q.cursor != Undefined && !q.cursor.Num? && toNumber(q.cursor) == Some(k))
  }

  lemma WantedRow(toNumber: ToNumber, q: Query, k: nat)
    ensures Wants(toNumber, q, k) <==> CursorOf(toNumber, q) == Some(k)
  {
  }

  /** The claim is the slice of `list` that starts at row `k`, of whatever size the server likes. */
  predicate IsSlice(v: View, list: seq<Json>, k: nat) {
    v.cursor == k && v.End() <= |list| && v.rows == list[k..v.End()] && v.total == |list|
  }

  /** The server serves one snapshot of one list to everyone who asks for it. */
  ghost predicate Serves(server: Server, toNumber: ToNumber, list: seq<Json>, snapshot: string, collection: string) {
    forall n: nat, q: Query, k: nat ::
      k <= |list| && Wants(toNumber, q, k)
      && (q.pageSnapshot == Str(snapshot) || (q.pageSnapshot == START && k == 0))
      ==> server(n, q).Ok? && exists v :: Claims(server(n, q).value, v) && IsSlice(v, list, k)
                                          && v.snapshot == snapshot && v.collection == collection
  }

  /** The state asks for row `k` of the served list. */
  predicate Asks(toNumber: ToNumber, st: State, list: seq<Json>, snapshot: string, collection: string, k: nat) {
    && k <= |list| && Wants(toNumber, st.query, k)
    && (st.query.pageSnapshot == Str(snapshot) || (st.query.pageSnapshot == START && k == 0))
    && (st.total.Some? ==> st.total.value == |list|)
    && (st.collection.Some? ==> st.collection.value == collection)
  }

  lemma StepReadsTheList(server: Server, toNumber: ToNumber, list: seq<Json>, snapshot: string,
                         collection: string, n: nat, st: State, k: nat)
    requires Serves(server, toNumber, list, snapshot, collection)
    requires Asks(toNumber, st, list, snapshot, collection, k)
    ensures var r := Step(server, toNumber, n, st);
            && r.Ok? && IsSlice(r.value, list, k) && r.value.snapshot == snapshot && r.value.collection == collection
            && k <= r.value.End() <= |list|
            && (if r.value.last then r.value.End() == |list| else k < r.value.End() < |list|)
  {
    WantedRow(toNumber, st.query, k);
    var page := server(n, st.query).value;
    var v :| Claims(page, v) && IsSlice(v, list, k) && v.snapshot == snapshot && v.collection == collection;
    assert Follows(toNumber, st, v);
    ClaimIsUnique(page, v, Step(server, toNumber, n, st).value);
  }

  /** A server that slices a list, in whatever page sizes, is read back exactly. */
  lemma {:induction false} RunReadsTheList(server: Server, toNumber: ToNumber, list: seq<Json>, snapshot: string,
                                           collection: string, n: nat, st: State, k: nat)
    requires Serves(server, toNumber, list, snapshot, collection)
    requires Asks(toNumber, st, list, snapshot, collection, k)
    ensures Fetched(server, toNumber, n, st) == Ok(list[k..])
    decreases |list| - k
  {
    StepReadsTheList(server, toNumber, list, snapshot, collection, n, st, k);
    FetchedStep(server, toNumber, n, st, []);
    BehindNothing(Fetched(server, toNumber, n, st));
    var v := Step(server, toNumber, n, st).value;
    assert [] + v.rows == v.rows;
    if v.last {
      assert v.rows == list[k..];
    } else {
      assert Asks(toNumber, After(v), list, snapshot, collection, v.End());
      RunReadsTheList(server, toNumber, list, snapshot, collection, n + 1, After(v), v.End());
      assert list[k..v.End()] + list[v.End()..] == list[k..];
    }
  }

  /** Up to `size` rows of the list from row `k` on, as a server reports them. */
  function SliceAt(list: seq<Json>, snapshot: string, collection: string, size: nat, k: nat): Page
    requires k <= |list| && size > 0
  {
    var end := Min(k + size, |list|);
    Page(map[collection := Arr(list[k..end])],
         Some(Pagination(Str(snapshot), Num(k), Num(|list|), Num(end - k), Str(collection),
                         if end == |list| then Null else Num(end))))
  }

  /** Any list of safe length can be served, in pages of any size. */
  lemma PagesCanBeServed(toNumber: ToNumber, list: seq<Json>, snapshot: string, collection: string, size: nat)
    returns (server: Server)
    requires IsSnapshotId(snapshot) && IsSafeInteger(|list|) && size > 0
    ensures Serves(server, toNumber, list, snapshot, collection)
  {
    server := (n: nat, q: Query) =>
      var k := CursorOf(toNumber, q);
      if k.Some? && 0 <= k.value <= |list| then Ok(SliceAt(list, snapshot, collection, size, k.value))
      else Err(RequestFailed);
    forall n: nat, q: Query, k: nat | k <= |list| && Wants(toNumber, q, k)
      ensures server(n, q).Ok? && exists v :: Claims(server(n, q).value, v) && IsSlice(v, list, k)
                                              && v.snapshot == snapshot && v.collection == collection
    {
      WantedRow(toNumber, q, k);
      var end := Min(k + size, |list|);
      var v := View(snapshot, collection, k, list[k..end], |list|, end == |list|);
      assert Claims(server(n, q).value, v) && IsSlice(v, list, k);
    }
  }

  /** The ordinary first call, which names no cursor, reads the whole list. */
  lemma FirstCallReadsTheList(server: Server, toNumber: ToNumber, list: seq<Json>, snapshot: string, collection: string)
    requires Serves(server, toNumber, list, snapshot, collection)
    ensures Fetched(server, toNumber, 0, State(Query(Str("start"), Undefined), None, None)) == Ok(list)
  {
    RunReadsTheList(server, toNumber, list, snapshot, collection, 0, State(Query(START, Undefined), None, None), 0);
    assert list[0..] == list;
  }

  // ---- collecting every page ----

  function Arrays(data: map<string, Json>): set<string> {
    set k | k in data && data[k].Arr?
  }

  predicate NamesRows(page: Page) {
    page.pagination.Some? && page.pagination.value.collection.Str?
    && page.pagination.value.collection.s in page.data && page.data[page.pagination.value.collection.s].Arr?
  }

  /** Rows of one page: the named collection, else the only array-valued member, else none. */
  ghost function RowsOf(page: Page): (items: seq<Json>)
    ensures NamesRows(page) ==> Arr(items) == page.data[page.pagination.value.collection.s]
    ensures !NamesRows(page) && |Arrays(page.data)| == 1 ==>
            forall k :: k in Arrays(page.data) ==> items == page.data[k].items
    ensures !NamesRows(page) && |Arrays(page.data)| != 1 ==> items == []
  {
    if NamesRows(page) then page.data[page.pagination.value.collection.s].items
    else if |Arrays(page.data)| == 1 then
      var k :| k in Arrays(page.data);
      SubsetCardinality({k}, Arrays(page.data));
      page.data[k].items
    else []
  }

  /** A verified page names its rows. */
  lemma ClaimedRows(page: Page, v: View)
    requires Claims(page, v)
    ensures RowsOf(page) == v.rows
  {
  }

  method ItemsOf(page: Page) returns (items: seq<Json>)
    ensures items == RowsOf(page)
  {
    if NamesRows(page) {
      return page.data[page.pagination.value.collection.s].items;
    }
    var arrays := Arrays(page.data);
    if |arrays| == 1 {
      var k :| k in arrays;
      SubsetCardinality({k}, arrays);
      assert arrays == {k};
      return page.data[k].items;
    }
    return [];
  }

  // ---- unchecked paging ----

  predicate Checked(q: Query) {
    q.pageSnapshot != Undefined
  }

  /** The cursor an unchecked page sends on. */
  function CursorSent(page: Page): Json {
    if page.pagination.Some? then page.pagination.value.nextCursor else Undefined
  }

  predicate Stops(cursor: Json) {
    cursor == Undefined || cursor == Null
  }

  /** Unchecked paging from the n-th request on: its rows or failure, if it ends within `steps` requests. */
  ghost function Follow(server: Server, n: nat, q: Query, steps: nat): Option<Result<seq<Json>, Failure>>
    decreases steps
  {
    if steps == 0 then None
    else
      match server(n, q)
      case Err(e) => Some(Err(e))
      case Ok(page) =>
        if Stops(CursorSent(page)) then Some(Ok(RowsOf(page)))
        else
          var rest := Follow(server, n + 1, q.(cursor := CursorSent(page)), steps - 1);
          if rest.None? then None else Some(Behind(RowsOf(page), rest.value))
  }

  /** Requests 0 to k-1 succeed with a cursor to follow; request `k` fails or sends none. */
  ghost predicate EndsAt(server: Server, n: nat, q: Query, k: nat)
    decreases k
  {
    match server(n, q)
    case Err(_) => k == 0
    case Ok(page) =>
      if Stops(CursorSent(page)) then k == 0
      else k > 0 && EndsAt(server, n + 1, q.(cursor := CursorSent(page)), k - 1)
  }

  /** Request `n + k` is the last one that paging makes. */
  ghost predicate LastAt(server: Server, n: nat, q: Query, k: nat) {
    EndsAt(server, n, q, k)
  }

  /** The run has an outcome after `steps` requests. */
  ghost predicate EndsWithin(server: Server, n: nat, q: Query, steps: nat) {
    Follow(server, n, q, steps).Some?
  }

  lemma {:induction false} EndGivesOutcome(server: Server, n: nat, q: Query, k: nat, steps: nat)
    requires EndsAt(server, n, q, k)
    ensures EndsWithin(server, n, q, steps) <==> steps > k
    decreases k
  {
    if steps > 0 && server(n, q).Ok? && !Stops(CursorSent(server(n, q).value)) {
      EndGivesOutcome(server, n + 1, q.(cursor := CursorSent(server(n, q).value)), k - 1, steps - 1);
    }
  }

  lemma {:induction false} OutcomeGivesEnd(server: Server, n: nat, q: Query, steps: nat) returns (k: nat)
    requires EndsWithin(server, n, q, steps)
    ensures k < steps && EndsAt(server, n, q, k)
    decreases steps
  {
    k := 0;
    if server(n, q).Ok? && !Stops(CursorSent(server(n, q).value)) {
      var rest := OutcomeGivesEnd(server, n + 1, q.(cursor := CursorSent(server(n, q).value)), steps - 1);
      k := rest + 1;
    }
  }

  /** An unchecked run has an outcome if and only if some request fails or sends no cursor to follow. */
  lemma EndsExactly(server: Server, n: nat, q: Query)
    ensures (exists steps: nat :: EndsWithin(server, n, q, steps)) <==> exists k: nat :: LastAt(server, n, q, k)
  {
    if steps: nat :| EndsWithin(server, n, q, steps) {
      var k := OutcomeGivesEnd(server, n, q, steps);
      assert LastAt(server, n, q, k);
    }
    if k: nat :| LastAt(server, n, q, k) {
      EndGivesOutcome(server, n, q, k, k + 1);
      assert EndsWithin(server, n, q, k + 1);
    }
  }

  /** Answers every request with an empty page and one more cursor. */
  const ENDLESS: Server := (n: nat, q: Query) =>
    Ok(Page(map[], Some(Pagination(Undefined, Undefined, Undefined, Undefined, Undefined, Num(n)))))

  /** Without `page_snapshot` such a server is followed for ever. */
  lemma {:induction false} EndlessHasNoOutcome(n: nat, q: Query, steps: nat)
    ensures Follow(ENDLESS, n, q, steps) == None
    decreases steps
  {
    if steps > 0 {
      var page := ENDLESS(n, q).value;
      assert CursorSent(page) == Num(n);
      EndlessHasNoOutcome(n + 1, q.(cursor := CursorSent(page)), steps - 1);
    }
  }

  /** How an unchecked run ends does not depend on how long one waits. */
  lemma {:induction false} FollowIsStable(server: Server, n: nat, q: Query, steps: nat, more: nat)
    requires Follow(server, n, q, steps).Some? && steps <= more
    ensures Follow(server, n, q, more) == Follow(server, n, q, steps)
    decreases steps
  {
    if server(n, q).Ok? && !Stops(CursorSent(server(n, q).value)) {
      FollowIsStable(server, n + 1, q.(cursor := CursorSent(server(n, q).value)), steps - 1, more - 1);
    }
  }

  lemma BehindTwice(a: seq<Json>, b: seq<Json>, r: Result<seq<Json>, Failure>)
    ensures Behind(a, Behind(b, r)) == Behind(a + b, r)
  {
    assert r.Ok? ==> a + (b + r.value) == a + b + r.value;
  }

  /** The n-th answer is a slice of `list` that starts at row `k`. */
  ghost predicate Answers(server: Server, list: seq<Json>, n: nat, q: Query, k: nat) {
    k <= |list| ==> server(n, q).Ok? && exists e: nat :: SlicesUnchecked(server(n, q).value, list, k, e)
  }

  /** An unchecked server that slices `list`: rows from the cursor on, and a cursor exactly while rows are left. */
  ghost predicate ServesUnchecked(server: Server, toNumber: ToNumber, list: seq<Json>) {
    forall n: nat, q: Query, k: nat :: !Checked(q) && Wants(toNumber, q, k) ==> Answers(server, list, n, q, k)
  }

  ghost predicate SlicesUnchecked(page: Page, list: seq<Json>, k: nat, e: nat) {
    k <= e <= |list| && RowsOf(page) == list[k..e]
    && if e == |list| then Stops(CursorSent(page)) else k < e && CursorSent(page) == Num(e)
  }

  lemma ServedSlice(server: Server, toNumber: ToNumber, list: seq<Json>, n: nat, q: Query, k: nat) returns (e: nat)
    requires ServesUnchecked(server, toNumber, list)
    requires k <= |list| && Wants(toNumber, q, k) && !Checked(q)
    ensures server(n, q).Ok? && SlicesUnchecked(server(n, q).value, list, k, e)
  {
    assert Answers(server, list, n, q, k);
    e :| SlicesUnchecked(server(n, q).value, list, k, e);
  }

  /** One request in front of what follows it. */
  lemma FollowOn(server: Server, n: nat, q: Query, page: Page, steps: nat)
    requires server(n, q) == Ok(page) && steps > 0
    ensures Stops(CursorSent(page)) ==> Follow(server, n, q, steps) == Some(Ok(RowsOf(page)))
    ensures !Stops(CursorSent(page)) ==>
              var rest := Follow(server, n + 1, q.(cursor := CursorSent(page)), steps - 1);
              rest.Some? ==> Follow(server, n, q, steps) == Some(Behind(RowsOf(page), rest.value))
  {
  }

  /** Without checks, too, such a server is read back exactly, within one request more than rows are left. */
  lemma {:induction false} FollowReadsTheList(
      server: Server, toNumber: ToNumber, list: seq<Json>, n: nat, q: Query, k: nat, steps: nat)
    requires ServesUnchecked(server, toNumber, list)
    requires k <= |list| && Wants(toNumber, q, k) && !Checked(q)
    requires steps > |list| - k
    ensures Follow(server, n, q, steps) == Some(Ok(list[k..]))
    decreases |list| - k
  {
    var e := ServedSlice(server, toNumber, list, n, q, k);
    FollowOn(server, n, q, server(n, q).value, steps);
    if e == |list| {
      assert list[k..e] == list[k..];
    } else {
      FollowReadsTheList(server, toNumber, list, n + 1, q.(cursor := Num(e)), e, steps - 1);
      assert list[k..e] + list[e..] == list[k..];
    }
  }

  lemma UncheckedCallReadsTheList(server: Server, toNumber: ToNumber, list: seq<Json>)
    requires ServesUnchecked(server, toNumber, list)
    ensures Follow(server, 0, Query(Undefined, Undefined), |list| + 1) == Some(Ok(list))
  {
    FollowReadsTheList(server, toNumber, list, 0, Query(Undefined, Undefined), 0, |list| + 1);
    assert list[0..] == list;
  }

  // ---- the loop, checked or not ----

  /** One turn of the generator and its consumer: request, verify, collect, move the cursor on. */
  method NextPage(pager: Pager, server: Server, n: nat, items: seq<Json>)
    returns (r: Result<(seq<Json>, bool), Failure>)
    modifies pager
    ensures Checked(old(pager.query)) ==>
              match Step(server, pager.toNumber, n, old(pager.Now()))
              case Err(e) => r == Err(e)
              case Ok(v) => r == Ok((items + v.rows, v.last)) && (!v.last ==> pager.Now() == After(v))
    ensures !Checked(old(pager.query)) ==>
              match server(n, old(pager.query))
              case Err(e) => r == Err(e)
              case Ok(page) =>
                r == Ok((items + RowsOf(page), Stops(CursorSent(page))))
                && (!Stops(CursorSent(page)) ==> pager.query == old(pager.query).(cursor := CursorSent(page)))
  {
    var answer := server(n, pager.query);
    if answer.Err? {
      return Err(answer.error);
    }
    var next := pager.NextPageCursor(answer.value);
    if next.Err? {
      return Err(next.error);
    }
    var rows := ItemsOf(answer.value);
    forall v | Claims(answer.value, v) ensures rows == v.rows {
      ClaimedRows(answer.value, v);
    }
    if next.value == Undefined || next.value == Null {
      return Ok((items + rows, true));
    }
    pager.query := pager.query.(cursor := next.value);
    return Ok((items + rows, false));
  }

  /** What is still to come of a run, checked or unchecked. */
  ghost function ToCome(server: Server, toNumber: ToNumber, n: nat, st: State, steps: nat)
    : Option<Result<seq<Json>, Failure>>
  {
    if Checked(st.query) then Some(Fetched(server, toNumber, n, st)) else Follow(server, n, st.query, steps)
  }

  /** The loop invariant: the rows collected, followed by what is to come, are the whole. */
  ghost predicate OnTrack(server: Server, toNumber: ToNumber, n: nat, st: State, steps: nat, items: seq<Json>,
                          whole: Result<seq<Json>, Failure>)
  {
    var rest := ToCome(server, toNumber, n, st, steps);
    rest.Some? && Behind(items, rest.value) == whole
  }

  lemma FollowStep(server: Server, n: nat, q: Query, steps: nat, items: seq<Json>)
    requires Follow(server, n, q, steps).Some?
    ensures steps > 0
    ensures var whole := Behind(items, Follow(server, n, q, steps).value);
            match server(n, q)
            case Err(e) => whole == Err(e)
            case Ok(page) =>
              if Stops(CursorSent(page)) then whole == Ok(items + RowsOf(page))
              else
                var rest := Follow(server, n + 1, q.(cursor := CursorSent(page)), steps - 1);
                rest.Some? && whole == Behind(items + RowsOf(page), rest.value)
  {
    if server(n, q).Ok? && !Stops(CursorSent(server(n, q).value)) {
      var page := server(n, q).value;
      var rest := Follow(server, n + 1, q.(cursor := CursorSent(page)), steps - 1);
      BehindTwice(items, RowsOf(page), rest.value);
    }
  }

  /** How many requests the loop can still make, at most. */
  ghost function Distance(st: State, steps: nat): (int, int) {
    if !Checked(st.query) then (0, steps) else if Resumed(st) then (0, Left(st)) else (1, 0)
  }

  /**
   `fetchAll`: all rows of the run, or the run's failure. A checked run ends against every
   server. Without `page_snapshot` the source returns only if some request, here number
   `last`, fails or sends no cursor to follow (`EndsExactly`, `EndlessHasNoOutcome`).
   */
  method FetchAll(server: Server, toNumber: ToNumber, query: Query, ghost last: nat)
    returns (r: Result<seq<Json>, Failure>)
    requires !Checked(query) ==> EndsAt(server, 0, query, last)
    ensures Some(r) == ToCome(server, toNumber, 0, State(query, None, None), last + 1)
  {
    ghost var steps: nat := last + 1;
    if !Checked(query) {
      EndGivesOutcome(server, 0, query, last, steps);
    }
    var pager := new Pager(toNumber, query);
    var items: seq<Json> := [];
    ghost var whole := ToCome(server, toNumber, 0, State(query, None, None), steps).value;
    BehindNothing(whole);
    var n := 0;
    ghost var left: nat := steps;
    while true
      invariant fresh(pager) && pager.toNumber == toNumber
      invariant OnTrack(server, toNumber, n, pager.Now(), left, items, whole)
      decreases Distance(pager.Now(), left).0, Distance(pager.Now(), left).1
    {
      if Checked(pager.query) {
        FetchedStep(server, toNumber, n, pager.Now(), items);
      } else {
        FollowStep(server, n, pager.query, left, items);
      }
      var turn := NextPage(pager, server, n, items);
      if turn.Err? {
        return Err(turn.error);
      }
      items, n := turn.value.0, n + 1;
      if turn.value.1 {
        return Ok(items);
      }
      left := if Checked(pager.query) then left else left - 1;
    }
  }
}
