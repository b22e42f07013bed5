/**
 One client request: the retry loop, conditional requests against the ETag store, and
 the one unconditional re-issue after a 304 nobody has a body for.
 */
module Request {
  import opened Common
  import opened EtagLru

  type Body = string

  type Headers = map<string, string>

  const IF_NONE_MATCH := "if-none-match"
  const IF_MODIFIED_SINCE := "if-modified-since"

  datatype Req = Req(url: string, headers: Headers)

  datatype RetryAfter = Absent | Seconds(s: real) | Date(msFromNow: real) | Unreadable

  /** A transport fault, or a response; `body` is `None` when it is not JSON. */
  datatype Reply =
    | Fault(aborted: bool)
    | Response(status: int, etag: string, body: Option<Body>, retryAfter: RetryAfter)

  datatype Entry = Entry(etag: string, body: Body)

  datatype Error = TransportError | BackoffAborted | StaleCatalog | NotModified | BadJson | BadStatus(status: int)

  datatype Retry = Retry(retries: int, minDelayMs: int, maxDelayMs: int, statuses: seq<int>)

  datatype RetrySetting =
    | Off
    | Default
    | Count(n: int)
    | Options(retries: Option<int>, minDelayMs: Option<int>, maxDelayMs: Option<int>, statuses: Option<seq<int>>)

  function OrElse<T>(o: Option<T>, default: T): T {
    if o.Some? then o.value else default
  }

  /** Retries are off unless a positive count results. */
  function ResolveRetry(setting: RetrySetting): (r: Option<Retry>)
    ensures r.Some? ==> r.value.retries > 0
    ensures setting.Count? ==> (r.Some? <==> setting.n > 0) && (r.Some? ==> r.value.retries == setting.n)
    ensures setting.Options? && setting.retries.Some? ==>
              (r.Some? <==> setting.retries.value > 0) && (r.Some? ==> r.value.retries == setting.retries.value)
  {
    match setting
    case Off => None
    case Default => Some(Retry(2, 200, 10000, [429, 500, 502, 503, 504]))
    case Count(n) => if n <= 0 then None else Some(Retry(n, 200, 10000, [429, 500, 502, 503, 504]))
    case Options(retries, min, max, statuses) =>
      if OrElse(retries, 2) <= 0 then None
      else Some(Retry(OrElse(retries, 2), OrElse(min, 200), OrElse(max, 10000),
                      OrElse(statuses, [429, 500, 502, 503, 504])))
  }

  /** What a setting leaves open is filled in from the defaults; a bare count is nothing else. */
  lemma DefaultsFillIn(retries: Option<int>, min: Option<int>, max: Option<int>, statuses: Option<seq<int>>, n: int)
    ensures ResolveRetry(Default) == Some(Retry(2, 200, 10000, [429, 500, 502, 503, 504]))
    ensures ResolveRetry(Count(n)) == ResolveRetry(Options(Some(n), None, None, None))
    ensures var r, d := ResolveRetry(Options(retries, min, max, statuses)), ResolveRetry(Default).value;
            r.Some? ==>
              && r.value.retries == (if retries.Some? then retries.value else d.retries)
              && r.value.minDelayMs == (if min.Some? then min.value else d.minDelayMs)
              && r.value.maxDelayMs == (if max.Some? then max.value else d.maxDelayMs)
              && r.value.statuses == if statuses.Some? then statuses.value else d.statuses
  {
  }

  // ---- backoff ----

  function RealMin(a: real, b: real): real {
    if a <= b then a else b
  }

  function RealMax(a: real, b: real): real {
    if a >= b then a else b
  }

  function Pow2(n: nat): (r: int)
    ensures r >= 1
  {
    if n == 0 then 1 else 2 * Pow2(n - 1)
  }

  /** `Math.round`: halves go up. */
  function Round(x: real): int {
    (x + 0.5).Floor
  }

  /** Half to all of the computed backoff. */
  function Jittered(expo: int, jitter: real): int {
    Round((expo as real) * (0.5 + jitter / 2.0))
  }

  /** Milliseconds to wait; `jitter` is one draw of `Math.random()`. */
  function RetryDelayMs(header: RetryAfter, attempt: nat, retry: Retry, jitter: real): real {
    match header
    case Seconds(s) => RealMin(RealMax(0.0, s) * 1000.0, retry.maxDelayMs as real)
    case Date(ms) => RealMin(RealMax(0.0, ms), retry.maxDelayMs as real)
    case _ => Jittered(Min(retry.minDelayMs * Pow2(attempt), retry.maxDelayMs), jitter) as real
  }

  predicate InRange(delay: real, retry: Retry) {
    0.0 <= delay <= retry.maxDelayMs as real
  }

  lemma RoundBelow(x: real, n: int)
    requires 0.0 <= x <= n as real
    ensures 0 <= Round(x) <= n
  {
    var r := (x + 0.5).Floor;
    assert r as real <= x + 0.5 < r as real + 1.0;
    assert (r as real) < (n + 1) as real;
  }

  lemma JitteredInRange(expo: nat, jitter: real)
    requires 0.0 <= jitter <= 1.0
    ensures 0 <= Jittered(expo, jitter) <= expo
  {
    var e, f := expo as real, 0.5 + jitter / 2.0;
    assert e * (1.0 - f) >= 0.0;
    RoundBelow(e * f, expo);
  }

  /** For every jitter draw, a non-negative base delay or a readable Retry-After keeps the wait in range. */
  lemma BackoffInRange(header: RetryAfter, attempt: nat, retry: Retry, jitter: real)
    requires retry.maxDelayMs >= 0 && 0.0 <= jitter <= 1.0
    requires retry.minDelayMs >= 0 || header.Seconds? || header.Date?
    ensures InRange(RetryDelayMs(header, attempt, retry, jitter), retry)
  {
    if !header.Seconds? && !header.Date? {
      assert retry.minDelayMs * Pow2(attempt) >= 0;
      JitteredInRange(Min(retry.minDelayMs * Pow2(attempt), retry.maxDelayMs), jitter);
    }
  }

  lemma {:induction false} PowersOfTwo(a: nat, b: nat)
    ensures Pow2(a + b) == Pow2(a) * Pow2(b) && Pow2(1) == 2
  {
    if a > 0 {
      PowersOfTwo(a - 1, b);
      assert Pow2(a + b) == 2 * Pow2(a - 1 + b);
      assert 2 * (Pow2(a - 1) * Pow2(b)) == 2 * Pow2(a - 1) * Pow2(b);
    }
  }

  /** A readable header is waited for as it says, in milliseconds, up to the cap. */
  lemma ReadableIsHonoured(s: real, attempt: nat, retry: Retry, jitter: real)
    requires retry.maxDelayMs >= 0
    ensures RetryDelayMs(Date(s), attempt, retry, jitter)
            == if s < 0.0 then 0.0 else if s > retry.maxDelayMs as real then retry.maxDelayMs as real else s
    ensures RetryDelayMs(Seconds(s), attempt, retry, jitter) == RetryDelayMs(Date(1000.0 * s), attempt, retry, jitter)
  {
  }

  /** Otherwise it is half to all of the base delay times a power of two, up to the cap; the draw decides where. */
  lemma JitterSpansHalf(header: RetryAfter, attempt: nat, retry: Retry, jitter: real)
    requires !header.Seconds? && !header.Date? && retry.minDelayMs >= 0 && retry.maxDelayMs >= 0
    requires 0.0 <= jitter <= 1.0
    ensures var whole := Min(retry.minDelayMs * Pow2(attempt), retry.maxDelayMs);
            && whole as real <= 2.0 * RetryDelayMs(header, attempt, retry, jitter) <= 2.0 * whole as real
            && RetryDelayMs(header, attempt, retry, 1.0) == whole as real
            && 2.0 * RetryDelayMs(header, attempt, retry, 0.0) <= whole as real + 1.0
  {
    var whole := Min(retry.minDelayMs * Pow2(attempt), retry.maxDelayMs);
    assert retry.minDelayMs * Pow2(attempt) >= 0;
    JitteredInRange(whole, jitter);
    HalfAtLeast(whole, jitter);
    assert whole as real * (0.5 + 1.0 / 2.0) == whole as real;
    assert whole as real * (0.5 + 0.0 / 2.0) == whole as real / 2.0;
  }

  lemma HalfAtLeast(whole: nat, jitter: real)
    requires 0.0 <= jitter <= 1.0
    ensures whole <= 2 * Jittered(whole, jitter)
  {
    var e, f := whole as real, 0.5 + jitter / 2.0;
    assert e * f >= e * 0.5;
    var r := Jittered(whole, jitter);
    assert r as real + 1.0 > e * f + 0.5;
    assert 2.0 * (r as real) > e - 1.0;
  }

  /** Does the response say when to come back? */
  predicate Readable(header: RetryAfter) {
    header.Seconds? || header.Date?
  }

  lemma NegativeBase(header: RetryAfter, attempt: nat, retry: Retry)
    requires retry.maxDelayMs >= 0 && retry.minDelayMs < 0 && !Readable(header)
    ensures RetryDelayMs(header, attempt, retry, 0.5) < 0.0
  {
    var product := retry.minDelayMs * Pow2(attempt);
    assert product <= -1;
    assert Jittered(product, 0.5) < 0;
  }

  /**
   Every draw keeps the wait in `[0, maxDelayMs]` exactly when the base delay is not negative or
   the header is readable.
   */
  lemma BackoffExactly(header: RetryAfter, attempt: nat, retry: Retry)
    requires retry.maxDelayMs >= 0
    ensures (forall jitter: real :: 0.0 <= jitter < 1.0 ==>
               InRange(RetryDelayMs(header, attempt, retry, jitter), retry))
            <==> retry.minDelayMs >= 0 || Readable(header)
  {
    if retry.minDelayMs >= 0 || Readable(header) {
      forall jitter: real | 0.0 <= jitter < 1.0 ensures InRange(RetryDelayMs(header, attempt, retry, jitter), retry) {
        BackoffInRange(header, attempt, retry, jitter);
      }
    } else {
      NegativeBase(header, attempt, retry);
    }
  }

  // ---- the world outside ----

  /** A representation of a resource, with the entity tag the origin gives it (`""`: none). */
  datatype Rep = Rep(etag: string, body: Body)

  /**
   `net(t, q)` answers the fetch made at time `t`; `current(t, url, plain)` is what the
   resource is then; `keyOf` is the store key; `backoff(t)` says whether a wait is left to finish.
   */
  datatype World = World(
    net: (nat, Req) -> Reply,
    current: (nat, string, Headers) -> Rep,
    keyOf: (string, Headers) -> Key,
    backoff: nat -> bool)

  /** Request headers without the conditional ones: what selects the representation. */
  function Plain(h: Headers): Headers {
    h - {IF_NONE_MATCH, IF_MODIFIED_SINCE}
  }

  function KeyFor(w: World, url: string, h: Headers): Key {
    w.keyOf(url, h - {IF_NONE_MATCH})
  }

  predicate IsOk(status: int) {
    200 <= status < 300
  }

  /** Successes carry the current representation; a 304 answers a matching tag only. */
  ghost predicate HonestReply(w: World, t: nat, q: Req) {
    var rep := w.current(t, q.url, Plain(q.headers));
    match w.net(t, q)
    case Fault(_) => true
    case Response(status, etag, body, _) =>
      && (IsOk(status) && body.Some? ==> rep == Rep(etag, body.value))
      && (status == 304 && IF_NONE_MATCH in q.headers ==> rep.etag == q.headers[IF_NONE_MATCH])
  }

  /** One non-empty tag names one body of one resource for all time. */
  ghost predicate TagsNameBodies(w: World) {
    forall s, t, url, plain ::
      w.current(s, url, plain).etag == w.current(t, url, plain).etag != ""
      ==> w.current(s, url, plain).body == w.current(t, url, plain).body
  }

  ghost predicate KeysAreInjective(w: World) {
    forall u, h, u', h' :: w.keyOf(u, h) == w.keyOf(u', h') ==> u == u' && h == h'
  }

  ghost predicate Honest(w: World) {
    && (forall t, q :: HonestReply(w, t, q))
    && TagsNameBodies(w)
    && KeysAreInjective(w)
  }

  /** A store entry is a representation its resource once had. */
  ghost predicate Recorded(w: World, key: Key, e: Entry) {
    e.etag != "" && exists t, url, h :: w.keyOf(url, h) == key && w.current(t, url, Plain(h)) == Rep(e.etag, e.body)
  }

  ghost predicate Sound(w: World, es: Recency<Entry>) {
    forall x :: x in es ==> Recorded(w, x.0, x.1)
  }

  /** A 304 to a stored tag means the stored body is the current one. */
  lemma StoredBodyIsCurrent(w: World, t: nat, url: string, h: Headers, e: Entry)
    requires Honest(w) && Recorded(w, KeyFor(w, url, h), e)
    requires w.current(t, url, Plain(h)).etag == e.etag
    ensures w.current(t, url, Plain(h)).body == e.body
  {
    var s, url', h' :| w.keyOf(url', h') == KeyFor(w, url, h) && w.current(s, url', Plain(h')) == Rep(e.etag, e.body);
    assert url' == url && h' == h - {IF_NONE_MATCH};
    assert Plain(h') == Plain(h);
  }

  // ---- the loop ----

  /** What the request does after one fetch. */
  datatype Turn = Resolve(body: Body) | Reject(error: Error) | Again | Reissue

  function Decide(reply: Reply, cached: Option<Entry>, checked: bool, reissued: bool,
                  statuses: seq<int>, mayRetry: bool, backoff: bool): (r: Turn)
    ensures r.Again? ==> mayRetry
    ensures r.Reissue? ==> !reissued && !checked && cached == None
    ensures r.Resolve? && reply.Response? && reply.status == 304 ==>
            !checked && cached.Some? && r.body == cached.value.body
    ensures r.Resolve? ==> reply.Response? && (reply.status != 304 ==> IsOk(reply.status) && reply.body == Some(r.body))
  {
    match reply
    case Fault(aborted) =>
      if aborted || !mayRetry then Reject(TransportError) else if backoff then Again else Reject(BackoffAborted)
    case Response(status, etag, body, _) =>
      if status == 304 then
        if checked then Reject(StaleCatalog)
        else if cached.Some? then Resolve(cached.value.body)
        else if reissued then Reject(NotModified)
        else Reissue
      else if mayRetry && status in statuses then
        if backoff then Again else Reject(BackoffAborted)
      else if body.None? then Reject(BadJson)
      else if !IsOk(status) then Reject(BadStatus(status))
      else Resolve(body.value)
  }

  function Conditions(headers: Headers, cached: Option<Entry>, bare: bool): Headers {
    if cached.Some? then headers[IF_NONE_MATCH := cached.value.etag]
    else if bare then headers - {IF_NONE_MATCH, IF_MODIFIED_SINCE}
    else headers
  }

  /** A client's settings; `capacity` is the bound of its store, if it has one. */
  datatype Config = Config(retry: Option<Retry>, capacity: Option<int>)
  {
    function Budget(): nat {
      if retry.Some? then Max(0, retry.value.retries) else 0
    }

    predicate MayRetry(checked: bool, attempt: nat) {
      !checked && retry.Some? && attempt < retry.value.retries
    }

    function Statuses(): seq<int> {
      if retry.Some? then retry.value.statuses else []
    }
  }

  /** What is asked for: the same for every turn of one request. */
  datatype Ask = Ask(url: string, headers: Headers, checked: bool)

  /** Where the loop stands before its fetch at time `now`. */
  datatype Place = Place(reissued: bool, attempt: nat, now: nat)

  datatype Attempted = Attempted(req: Req, turn: Turn, entries: Recency<Entry>)

  predicate UsesStore(cfg: Config, ask: Ask, at: Place) {
    !ask.checked && !at.reissued && cfg.capacity.Some?
  }

  /** One turn: look up and touch the store, fetch once, decide, remember a fresh tagged body. */
  function AttemptAt(w: World, cfg: Config, es: Recency<Entry>, ask: Ask, at: Place): Attempted {
    var key := KeyFor(w, ask.url, ask.headers);
    var cached := if UsesStore(cfg, ask, at) then Find(es, key) else None;
    var touched := if UsesStore(cfg, ask, at) then AfterGet(es, key) else es;
    var q := Req(ask.url, Conditions(ask.headers, cached, ask.checked || at.reissued));
    var reply := w.net(at.now, q);
    var mayRetry := cfg.MayRetry(ask.checked, at.attempt);
    var turn := Decide(reply, cached, ask.checked, at.reissued, cfg.Statuses(), mayRetry, w.backoff(at.now));
    Attempted(q, turn,
              if turn.Resolve? && reply.status != 304 && !ask.checked && cfg.capacity.Some? && reply.etag != ""
              then AfterSet(cfg.capacity.value, touched, key, Entry(reply.etag, turn.body)) else touched)
  }

  /** The outcome of a whole request, its fetches in order, and what the store holds afterwards. */
  datatype Outcome = Outcome(result: Result<Body, Error>, sent: seq<Req>, entries: Recency<Entry>)

  function Behind(sent: seq<Req>, o: Outcome): Outcome {
    o.(sent := sent + o.sent)
  }

  function RequestFrom(w: World, cfg: Config, es: Recency<Entry>, ask: Ask, at: Place): Outcome
    decreases Max(0, cfg.Budget() - at.attempt) + if at.reissued then 0 else 1
  {
    var a := AttemptAt(w, cfg, es, ask, at);
    match a.turn
    case Resolve(body) => Outcome(Ok(body), [a.req], a.entries)
    case Reject(e) => Outcome(Err(e), [a.req], a.entries)
    case _ => Behind([a.req], RequestFrom(w, cfg, a.entries, ask, Next(at, a.turn)))
  }

  /** Where the loop goes on after a turn that does not end it. */
  function Next(at: Place, turn: Turn): Place {
    if turn.Again? then at.(attempt := at.attempt + 1, now := at.now + 1) else at.(reissued := true, now := at.now + 1)
  }

  lemma BehindTurn(w: World, cfg: Config, es: Recency<Entry>, ask: Ask, at: Place, sent: seq<Req>, a: Attempted)
    requires a == AttemptAt(w, cfg, es, ask, at)
    ensures Behind(sent, RequestFrom(w, cfg, es, ask, at))
            == match a.turn
               case Resolve(body) => Outcome(Ok(body), sent + [a.req], a.entries)
               case Reject(e) => Outcome(Err(e), sent + [a.req], a.entries)
               case _ => Behind(sent + [a.req], RequestFrom(w, cfg, a.entries, ask, Next(at, a.turn)))
  {
    if a.turn.Again? || a.turn.Reissue? {
      var rest := RequestFrom(w, cfg, a.entries, ask, Next(at, a.turn));
      assert sent + ([a.req] + rest.sent) == sent + [a.req] + rest.sent;
    }
  }

  lemma BehindNothing(o: Outcome)
    ensures Behind([], o) == o
  {
    assert [] + o.sent == o.sent;
  }

  // ---- what every request keeps ----

  lemma AttemptIsForTheUrl(w: World, cfg: Config, es: Recency<Entry>, ask: Ask, at: Place)
    ensures var a := AttemptAt(w, cfg, es, ask, at);
            && a.req.url == ask.url && Plain(a.req.headers) == Plain(ask.headers)
            && (ask.checked || at.reissued ==> a.req == Req(ask.url, Plain(ask.headers)))
            && (ask.checked ==> a.entries == es && !a.turn.Again? && !a.turn.Reissue?)
  {
    var a := AttemptAt(w, cfg, es, ask, at);
    assert Plain(a.req.headers) == Plain(ask.headers);
  }

  /** Every fetch is for the same representation, at most one more than the retries left and one re-issue. */
  lemma {:induction false} FetchesAreBounded(w: World, cfg: Config, es: Recency<Entry>, ask: Ask, at: Place)
    requires at.attempt <= cfg.Budget()
    ensures var o := RequestFrom(w, cfg, es, ask, at);
            && 1 <= |o.sent| <= cfg.Budget() - at.attempt + (if at.reissued then 1 else 2)
            && forall q :: q in o.sent ==> q.url == ask.url && Plain(q.headers) == Plain(ask.headers)
    decreases Max(0, cfg.Budget() - at.attempt) + if at.reissued then 0 else 1
  {
    AttemptIsForTheUrl(w, cfg, es, ask, at);
    var a := AttemptAt(w, cfg, es, ask, at);
    if a.turn.Again? || a.turn.Reissue? {
      FetchesAreBounded(w, cfg, a.entries, ask, Next(at, a.turn));
    }
  }

  /** A checked request is one unconditional fetch that neither reads nor writes the store. */
  lemma CheckedIsOneBareFetch(w: World, cfg: Config, es: Recency<Entry>, other: Recency<Entry>, ask: Ask, at: Place)
    requires ask.checked
    ensures var o := RequestFrom(w, cfg, es, ask, at);
            && o.sent == [Req(ask.url, Plain(ask.headers))] && o.entries == es
            && o.result == RequestFrom(w, cfg, other, ask, at).result
  {
    AttemptIsForTheUrl(w, cfg, es, ask, at);
    AttemptIsForTheUrl(w, cfg, other, ask, at);
  }

  /** Whatever one turn resolves to is current when it was fetched, and what it stores has been current. */
  lemma AttemptIsCurrent(w: World, cfg: Config, es: Recency<Entry>, ask: Ask, at: Place)
    requires Honest(w) && Sound(w, es)
    ensures var a := AttemptAt(w, cfg, es, ask, at);
            && Sound(w, a.entries)
            && (a.turn.Resolve? ==> a.turn.body == w.current(at.now, ask.url, Plain(ask.headers)).body)
  {
    var a, key := AttemptAt(w, cfg, es, ask, at), KeyFor(w, ask.url, ask.headers);
    var cached := if UsesStore(cfg, ask, at) then Find(es, key) else None;
    var touched := if UsesStore(cfg, ask, at) then AfterGet(es, key) else es;
    FindIsMember(es, key);
    GetMembers(es, key);
    AttemptIsForTheUrl(w, cfg, es, ask, at);
    assert HonestReply(w, at.now, a.req);
    if a.turn.Resolve? {
      var reply := w.net(at.now, a.req);
      if reply.status == 304 {
        StoredBodyIsCurrent(w, at.now, ask.url, ask.headers, cached.value);
      } else if reply.etag != "" {
        FreshIsRecorded(w, at.now, ask.url, ask.headers, Entry(reply.etag, a.turn.body));
        if cfg.capacity.Some? {
          SetMembers(cfg.capacity.value, touched, key, Entry(reply.etag, a.turn.body));
        }
      }
    }
  }

  lemma FreshIsRecorded(w: World, t: nat, url: string, h: Headers, e: Entry)
    requires e.etag != "" && w.current(t, url, Plain(h)) == Rep(e.etag, e.body)
    ensures Recorded(w, KeyFor(w, url, h), e)
  {
    assert Plain(h - {IF_NONE_MATCH}) == Plain(h);
  }

  /** Against an honest server a resolved body is the representation current at the last fetch. */
  lemma {:induction false} ResolvedIsCurrent(w: World, cfg: Config, es: Recency<Entry>, ask: Ask, at: Place)
    requires Honest(w) && Sound(w, es)
    ensures var o := RequestFrom(w, cfg, es, ask, at);
            && o.sent != [] && Sound(w, o.entries)
            && (o.result.Ok? ==> o.result.value == w.current(at.now + |o.sent| - 1, ask.url, Plain(ask.headers)).body)
    decreases Max(0, cfg.Budget() - at.attempt) + if at.reissued then 0 else 1
  {
    AttemptIsCurrent(w, cfg, es, ask, at);
    var a := AttemptAt(w, cfg, es, ask, at);
    if a.turn.Again? || a.turn.Reissue? {
      ResolvedIsCurrent(w, cfg, a.entries, ask, Next(at, a.turn));
    }
  }

  /** What the resource is at the last fetch of an outcome that started at `at`. */
  function AtLastFetch(w: World, ask: Ask, at: Place, o: Outcome): Rep
    requires o.sent != []
  {
    w.current(at.now + |o.sent| - 1, ask.url, Plain(ask.headers))
  }

  lemma SameLastRepresentation(w: World, ask: Ask, at: Place, later: Place, a: Outcome, b: Outcome)
    requires a.sent != [] && b.sent != [] && AtLastFetch(w, ask, at, a) == AtLastFetch(w, ask, later, b)
    requires a.result.Ok? ==> a.result.value == AtLastFetch(w, ask, at, a).body
    requires b.result.Ok? ==> b.result.value == AtLastFetch(w, ask, later, b).body
    ensures a.result.Ok? && b.result.Ok? ==> a.result == b.result
  {
  }

  /** The store is transparent: clients whose last fetches meet one representation resolve to one body. */
  lemma CachingIsTransparent(w: World, cfg: Config, es: Recency<Entry>, bare: Config, ask: Ask, at: Place, later: Place,
                             stored: Outcome, uncached: Outcome)
    requires Honest(w) && Sound(w, es) && bare.capacity == None
    requires stored == RequestFrom(w, cfg, es, ask, at) && uncached == RequestFrom(w, bare, [], ask, later)
    ensures stored.sent != [] && uncached.sent != []
    ensures stored.result.Ok? && uncached.result.Ok?
            && AtLastFetch(w, ask, at, stored) == AtLastFetch(w, ask, later, uncached)
            ==> stored.result == uncached.result
  {
    ResolvedIsCurrent(w, cfg, es, ask, at);
    ResolvedIsCurrent(w, bare, [], ask, later);
    if AtLastFetch(w, ask, at, stored) == AtLastFetch(w, ask, later, uncached) {
      SameLastRepresentation(w, ask, at, later, stored, uncached);
    }
  }

  // ---- what a request comes to ----

  /** An answer worth asking again: a fault nobody asked for, or one of the configured statuses. */
  predicate Transient(cfg: Config, reply: Reply) {
    match reply
    case Fault(aborted) => !aborted
    case Response(status, _, _, _) => status in cfg.Statuses() && status != 304
  }

  /** Whatever its headers, a fetch of this resource at time `t` gets this answer. */
  ghost predicate Answers(w: World, ask: Ask, t: nat, reply: Reply) {
    forall q: Req :: q.url == ask.url ==> w.net(t, q) == reply
  }

  ghost predicate TransientAt(w: World, cfg: Config, ask: Ask, t: nat) {
    w.backoff(t) && exists reply :: Transient(cfg, reply) && Answers(w, ask, t, reply)
  }

  /** At the `k` times from `t` on the answer is transient and the wait finishes. */
  ghost predicate TransientFor(w: World, cfg: Config, ask: Ask, t: nat, k: nat) {
    forall i: nat :: t <= i < t + k ==> TransientAt(w, cfg, ask, i)
  }

  /** What an answer means to the caller: its body, or why there is none. */
  function Verdict(reply: Reply): Result<Body, Error> {
    if reply.Fault? then Err(TransportError)
    else if reply.body == None then Err(BadJson)
    else if 200 <= reply.status <= 299 then Ok(reply.body.value)
    else Err(BadStatus(reply.status))
  }

  /** The entry this request would find in the store. */
  function Held(w: World, cfg: Config, es: Recency<Entry>, ask: Ask): Option<Entry> {
    if ask.checked || cfg.capacity == None then None else Find(es, KeyFor(w, ask.url, ask.headers))
  }

  function Later(at: Place, k: nat): Place {
    at.(attempt := at.attempt + k, now := at.now + k)
  }

  /** A transient answer within the budget makes the request go on as if it had not asked. */
  lemma TransientTurn(w: World, cfg: Config, es: Recency<Entry>, ask: Ask, at: Place)
    requires !ask.checked && at.attempt < cfg.Budget() && TransientAt(w, cfg, ask, at.now)
    ensures var a := AttemptAt(w, cfg, es, ask, at);
            a.turn == Again && Held(w, cfg, a.entries, ask) == Held(w, cfg, es, ask)
  {
    GetThenFind(es, KeyFor(w, ask.url, ask.headers));
  }

  /** Transient answers are followed by further fetches, as far as the budget goes. */
  lemma {:induction false} RetriesGoOn(w: World, cfg: Config, es: Recency<Entry>, ask: Ask, at: Place, k: nat)
    returns (sent: seq<Req>, es': Recency<Entry>)
    requires !ask.checked && at.attempt + k <= cfg.Budget() && TransientFor(w, cfg, ask, at.now, k)
    ensures |sent| == k && Held(w, cfg, es', ask) == Held(w, cfg, es, ask)
    ensures RequestFrom(w, cfg, es, ask, at) == Behind(sent, RequestFrom(w, cfg, es', ask, Later(at, k)))
    decreases k
  {
    if k == 0 {
      sent, es' := [], es;
      BehindNothing(RequestFrom(w, cfg, es, ask, at));
    } else {
      var a := AttemptAt(w, cfg, es, ask, at);
      assert TransientAt(w, cfg, ask, at.now);
      TransientTurn(w, cfg, es, ask, at);
      var rest;
      rest, es' := RetriesGoOn(w, cfg, a.entries, ask, Next(at, a.turn), k - 1);
      sent := [a.req] + rest;
      var o := RequestFrom(w, cfg, es', ask, Later(at, k));
      assert Later(Next(at, a.turn), k - 1) == Later(at, k);
      assert [a.req] + (rest + o.sent) == sent + o.sent;
    }
  }

  /**
   After `k` transient answers the first answer that is not transient, or that finds the
   budget used up, is the result: its body, or its own error.
   */
  lemma RetriesUntilAnswered(w: World, cfg: Config, es: Recency<Entry>, ask: Ask, at: Place, k: nat, last: Reply)
    requires !ask.checked && at.attempt + k <= cfg.Budget() && TransientFor(w, cfg, ask, at.now, k)
    requires Answers(w, ask, at.now + k, last) && (last.Response? ==> last.status != 304)
    requires Transient(cfg, last) ==> at.attempt + k == cfg.Budget()
    ensures var o := RequestFrom(w, cfg, es, ask, at);
            o.result == Verdict(last) && |o.sent| == k + 1
  {
    var sent, es' := RetriesGoOn(w, cfg, es, ask, at, k);
  }

  /** A checked request takes its one answer as it is; to 304 it has no body. */
  lemma CheckedVerdict(w: World, cfg: Config, es: Recency<Entry>, ask: Ask, at: Place, reply: Reply)
    requires ask.checked && Answers(w, ask, at.now, reply)
    ensures RequestFrom(w, cfg, es, ask, at).result
            == if reply.Response? && reply.status == 304 then Err(StaleCatalog) else Verdict(reply)
  {
  }

  /** A wait that does not finish ends the request with the fetch before it. */
  lemma AbortedWait(w: World, cfg: Config, es: Recency<Entry>, ask: Ask, at: Place, k: nat, last: Reply)
    requires !ask.checked && at.attempt + k < cfg.Budget() && TransientFor(w, cfg, ask, at.now, k)
    requires Answers(w, ask, at.now + k, last) && Transient(cfg, last) && !w.backoff(at.now + k)
    ensures var o := RequestFrom(w, cfg, es, ask, at);
            o.result == Err(BackoffAborted) && |o.sent| == k + 1
  {
    var sent, es' := RetriesGoOn(w, cfg, es, ask, at, k);
  }

  lemma StoredBodyTurn(w: World, cfg: Config, es: Recency<Entry>, ask: Ask, at: Place, last: Reply)
    requires !at.reissued && Held(w, cfg, es, ask).Some?
    requires Answers(w, ask, at.now, last) && last.Response? && last.status == 304
    ensures var o, e := RequestFrom(w, cfg, es, ask, at), Held(w, cfg, es, ask).value;
            && o.result == Ok(e.body) && |o.sent| == 1
            && IF_NONE_MATCH in o.sent[0].headers && o.sent[0].headers[IF_NONE_MATCH] == e.etag
  {
  }

  /** The first fetch names the stored tag, and a 304 to it resolves to the stored body. */
  lemma StoredBodyAnswers(w: World, cfg: Config, es: Recency<Entry>, ask: Ask, at: Place, k: nat, last: Reply)
    requires !at.reissued && at.attempt + k <= cfg.Budget() && TransientFor(w, cfg, ask, at.now, k)
    requires Held(w, cfg, es, ask).Some? && Answers(w, ask, at.now + k, last) && last.Response? && last.status == 304
    ensures var o, e := RequestFrom(w, cfg, es, ask, at), Held(w, cfg, es, ask).value;
            && o.result == Ok(e.body) && |o.sent| == k + 1
            && IF_NONE_MATCH in o.sent[k].headers && o.sent[k].headers[IF_NONE_MATCH] == e.etag
  {
    var sent, es' := RetriesGoOn(w, cfg, es, ask, at, k);
    StoredBodyTurn(w, cfg, es', ask, Later(at, k), last);
  }

  /** All fetches are for the resource, without conditions. */
  ghost predicate AllBare(ask: Ask, sent: seq<Req>) {
    forall i :: 0 <= i < |sent| ==> sent[i] == Req(ask.url, Plain(ask.headers))
  }

  lemma {:induction false} ReissuedIsBare(w: World, cfg: Config, es: Recency<Entry>, ask: Ask, at: Place)
    requires at.reissued
    ensures AllBare(ask, RequestFrom(w, cfg, es, ask, at).sent)
    decreases Max(0, cfg.Budget() - at.attempt)
  {
    AttemptIsForTheUrl(w, cfg, es, ask, at);
    var a := AttemptAt(w, cfg, es, ask, at);
    if a.turn.Again? {
      ReissuedIsBare(w, cfg, a.entries, ask, Next(at, a.turn));
    }
  }

  lemma ReissueTurn(w: World, cfg: Config, es: Recency<Entry>, ask: Ask, at: Place, first: Reply)
    requires !ask.checked && !at.reissued && Held(w, cfg, es, ask) == None
    requires Answers(w, ask, at.now, first) && first.Response? && first.status == 304
    ensures AttemptAt(w, cfg, es, ask, at).turn == Reissue
    ensures AttemptAt(w, cfg, es, ask, at).req == Req(ask.url, ask.headers)
  {
  }

  /**
   A 304 that no stored body answers is asked once more without conditions, and retried like
   any other fetch; a second 304 is an error.
   */
  lemma ReissuedOnce(w: World, cfg: Config, es: Recency<Entry>, ask: Ask, at: Place, k: nat, first: Reply, last: Reply)
    requires !ask.checked && !at.reissued && Held(w, cfg, es, ask) == None
    requires Answers(w, ask, at.now, first) && first.Response? && first.status == 304
    requires at.attempt + k <= cfg.Budget() && TransientFor(w, cfg, ask, at.now + 1, k)
    requires Answers(w, ask, at.now + 1 + k, last) && (Transient(cfg, last) ==> at.attempt + k == cfg.Budget())
    ensures var o := RequestFrom(w, cfg, es, ask, at);
            && |o.sent| == k + 2 && o.sent[0] == Req(ask.url, ask.headers)
            && AllBare(ask, o.sent[1..])
            && o.result == if last.Response? && last.status == 304 then Err(NotModified) else Verdict(last)
  {
    var a, next := AttemptAt(w, cfg, es, ask, at), Place(true, at.attempt, at.now + 1);
    ReissueTurn(w, cfg, es, ask, at, first);
    assert Next(at, a.turn) == next;
    var sent, es' := RetriesGoOn(w, cfg, a.entries, ask, next, k);
    ReissuedIsBare(w, cfg, a.entries, ask, next);
    var o, rest := RequestFrom(w, cfg, es, ask, at), RequestFrom(w, cfg, a.entries, ask, next);
    assert o == Behind([a.req], rest);
    assert o.sent[1..] == rest.sent;
  }

  /** A tagged body that a request resolves to is what the next one finds in a store with room for it. */
  lemma FreshBodyIsHeld(w: World, cfg: Config, es: Recency<Entry>, ask: Ask, at: Place, k: nat, last: Reply)
    requires !ask.checked && cfg.capacity.Some? && cfg.capacity.value >= 1
    requires at.attempt + k <= cfg.Budget() && TransientFor(w, cfg, ask, at.now, k)
    requires Answers(w, ask, at.now + k, last) && (Transient(cfg, last) ==> at.attempt + k == cfg.Budget())
    requires Verdict(last).Ok? && last.etag != ""
    ensures var o := RequestFrom(w, cfg, es, ask, at);
            Held(w, cfg, o.entries, ask) == Some(Entry(last.etag, Verdict(last).value))
  {
    var sent, es' := RetriesGoOn(w, cfg, es, ask, at, k);
    var key, e := KeyFor(w, ask.url, ask.headers), Entry(last.etag, Verdict(last).value);
    SetThenFind(cfg.capacity.value, es', key, e);
    SetThenFind(cfg.capacity.value, AfterGet(es', key), key, e);
  }

  // ---- the client ----

  class Client {
    const retry: Option<Retry>
    const store: LruStore?<Entry>
    const world: World

    constructor (retry: Option<Retry>, store: LruStore?<Entry>, world: World)
      ensures this.retry == retry && this.store == store && this.world == world
    {
      this.retry, this.store, this.world := retry, store, world;
    }

    function Settings(): Config {
      Config(retry, if store == null then None else Some(store.maxEntries))
    }

    function Entries(): Recency<Entry>
      reads store
    {
      if store == null then [] else store.entries
    }

    /** One turn of the loop. */
    method Attempt(ask: Ask, at: Place) returns (q: Req, turn: Turn)
      modifies store
      ensures Attempted(q, turn, Entries()) == AttemptAt(world, Settings(), old(Entries()), ask, at)
    {
      var key := KeyFor(world, ask.url, ask.headers);
      var cached: Option<Entry> := None;
      if !ask.checked && !at.reissued && store != null {
        cached := store.Get(key);
      }
      q := Req(ask.url, Conditions(ask.headers, cached, ask.checked || at.reissued));
      var reply := world.net(at.now, q);
      turn := Decide(reply, cached, ask.checked, at.reissued, Settings().Statuses(),
                     Settings().MayRetry(ask.checked, at.attempt), world.backoff(at.now));
      if turn.Resolve? && reply.status != 304 && !ask.checked && store != null && reply.etag != "" {
        store.Set(key, Entry(reply.etag, turn.body));
      }
    }

    /** The loop: its result, its fetches and the store afterwards are those of `RequestFrom`. */
    method Request(ask: Ask, now: nat) returns (r: Result<Body, Error>, sent: seq<Req>)
      modifies store
      ensures Outcome(r, sent, Entries()) == RequestFrom(world, Settings(), old(Entries()), ask, Place(false, 0, now))
    {
      var at := Place(false, 0, now);
      ghost var whole := RequestFrom(world, Settings(), Entries(), ask, at);
      sent := [];
      BehindNothing(whole);
      while true
        invariant Behind(sent, RequestFrom(world, Settings(), Entries(), ask, at)) == whole
        decreases Max(0, Settings().Budget() - at.attempt) + if at.reissued then 0 else 1
      {
        BehindTurn(world, Settings(), Entries(), ask, at, sent, AttemptAt(world, Settings(), Entries(), ask, at));
        var q, turn := Attempt(ask, at);
        sent := sent + [q];
        match turn {
          case Resolve(body) => return Ok(body), sent;
          case Reject(e) => return Err(e), sent;
          case _ => at := Next(at, turn);
        }
      }
    }
  }
}
