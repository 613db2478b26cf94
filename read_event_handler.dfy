/** The HTTP handler that reads a page of a stream's events
    (ezedr-server/src/stream/readEventHandler.ts). The repository is passed in
    as two functions, `readEvents` and `readStream`; a rejected promise is an
    `Err`. The handler defaults the tenant, parses the page options from the
    query string, and checks that the stream exists only when the page is empty. */
module ReadEventHandler {
  import opened Wrappers
  import opened JsParseInt
  import opened StreamWriter
  import opened StreamReader

  /** The query string. A missing parameter is `None`; parseInt then sees the
      text "undefined". */
  datatype Query = Query(tenant: Option<string>, limit: Option<string>, start: Option<string>)

  const DefaultTenant := "default"
  const DefaultLimit := 50
  const DefaultStart := 0

  type EventsReader = (string, string, ReadOpts) -> Result<ReadEventsResult, ReadError>
  type StreamLookup = (string, string) -> Result<StreamInfo, ReadError>

  /** `tenant || "default"`: a missing or empty tenant is the default tenant. */
  function TenantOrDefault(tenant: Option<string>): (r: string)
    ensures r != ""
    ensures r == DefaultTenant || tenant == Some(r)
    ensures tenant.Some? && tenant.value != "" ==> r == tenant.value
  {
    if tenant.Some? && tenant.value != "" then tenant.value else DefaultTenant
  }

  /** `Number.parseInt(text) || fallback`: NaN and 0 fall back. */
  function NumberOr(text: Option<string>, fallback: int): (r: int)
    ensures r == fallback || ParseInt(if text.Some? then text.value else "undefined") == Some(r)
    ensures r == 0 ==> fallback == 0
    ensures var p := ParseInt(if text.Some? then text.value else "undefined");
            if p.Some? && p.value != 0 then r == p.value else r == fallback
  {
    var parsed := ParseInt(if text.Some? then text.value else "undefined");
    if parsed.Some? && parsed.value != 0 then parsed.value else fallback
  }

  /** The options the handler passes to readEvents. */
  function RequestOpts(q: Query): (r: ReadOpts)
    ensures Truthy(r.limit)
    ensures r.fromVersion.Some?
    ensures r.limit.value == DefaultLimit || ParseInt(if q.limit.Some? then q.limit.value else "undefined") == r.limit
    ensures r.limit.value == NumberOr(q.limit, DefaultLimit) && r.fromVersion.value == NumberOr(q.start, DefaultStart)
  {
    ReadOpts(Some(NumberOr(q.limit, DefaultLimit)), Some(NumberOr(q.start, DefaultStart)))
  }

  /** The handler's reply: the page readEvents returns, unless readEvents is
      rejected, or the page is empty and readStream is rejected. */
  function HandleReadEvents(readEvents: EventsReader, readStream: StreamLookup, streamId: string, q: Query)
    : (r: Result<ReadEventsResult, ReadError>)
    ensures var page := readEvents(streamId, TenantOrDefault(q.tenant), RequestOpts(q));
            && (page.Ok? && |page.value.events| > 0 ==> r == page)
            && (r.Ok? && |r.value.events| == 0 ==> readStream(streamId, TenantOrDefault(q.tenant)).Ok?)
            && (r.Err? ==> || (page.Err? && r.error == page.error)
                           || (page.Ok? && readStream(streamId, TenantOrDefault(q.tenant)).Err?
                               && r.error == readStream(streamId, TenantOrDefault(q.tenant)).error))
  {
    var tenant := TenantOrDefault(q.tenant);
    match readEvents(streamId, tenant, RequestOpts(q))
    case Err(e) => Err(e)
    case Ok(result) =>
      if |result.events| == 0 then
        match readStream(streamId, tenant)
        case Err(e) => Err(e)
        case Ok(_) => Ok(result)
      else Ok(result)
  }

  // ---------------------------------------------------------------------------
  // The handler against any repository

  /** The handler either fails or sends exactly what readEvents returned for
      the defaulted tenant and the parsed options; a readEvents failure is
      passed on unchanged. */
  lemma HandlerSendsReadResult(readEvents: EventsReader, readStream: StreamLookup, streamId: string, q: Query)
    ensures var page := readEvents(streamId, TenantOrDefault(q.tenant), RequestOpts(q));
            var r := HandleReadEvents(readEvents, readStream, streamId, q);
            && (page.Err? ==> r == Err(page.error))
            && (r.Ok? ==> page.Ok? && r.value == page.value)
  {
  }

  /** A non-empty page is sent whatever readStream would say: existence is
      not checked. */
  lemma NonEmptyPageSkipsExistenceCheck(readEvents: EventsReader, lookup1: StreamLookup, lookup2: StreamLookup, streamId: string, q: Query)
    requires var page := readEvents(streamId, TenantOrDefault(q.tenant), RequestOpts(q));
             page.Ok? && |page.value.events| > 0
    ensures HandleReadEvents(readEvents, lookup1, streamId, q) == HandleReadEvents(readEvents, lookup2, streamId, q)
    ensures HandleReadEvents(readEvents, lookup1, streamId, q).Ok?
  {
  }

  /** An empty page is sent if and only if readStream finds the stream, and
      readStream's failure (NoSuchResource) is the handler's failure. */
  lemma EmptyPageChecksExistence(readEvents: EventsReader, readStream: StreamLookup, streamId: string, q: Query)
    requires var page := readEvents(streamId, TenantOrDefault(q.tenant), RequestOpts(q));
             page.Ok? && |page.value.events| == 0
    ensures var lookup := readStream(streamId, TenantOrDefault(q.tenant));
            var r := HandleReadEvents(readEvents, readStream, streamId, q);
            && (r.Ok? <==> lookup.Ok?)
            && (lookup.Err? ==> r == Err(lookup.error))
  {
  }

  /** The options passed on: the limit is never 0 (NaN and 0 become 50); a
      start that parses to NaN or 0 becomes 0, which readEvents treats as no
      start at all. */
  lemma RequestOptsDefaults(q: Query)
    ensures var opts := RequestOpts(q);
            && opts.limit.Some? && opts.limit.value != 0
            && opts.fromVersion.Some?
            && (Truthy(opts.fromVersion) <==> NumberOr(q.start, DefaultStart) != 0)
    ensures (q.limit.None? || ParseInt(q.limit.value).None?) ==> RequestOpts(q).limit == Some(DefaultLimit)
    ensures (q.start.None? || ParseInt(q.start.value).None?) ==> RequestOpts(q).fromVersion == Some(DefaultStart)
  {
    ParseIntUndefined();
  }

  /** Positive decimal page options are passed on as the numbers they spell,
      whatever the tenant. */
  lemma RequestOptsOfDecimal(t: Option<string>, n: nat, m: nat)
    requires n > 0 && m > 0
    ensures RequestOpts(Query(t, Some(DecimalText(n)), Some(DecimalText(m)))) == ReadOpts(Some(n), Some(m))
  {
    ParseDecimal(n);
    ParseDecimal(m);
  }

  /** The tenant of the handler's tests: none gives "default", "t0" is kept. */
  lemma TenantExamples()
    ensures TenantOrDefault(None) == "default" && TenantOrDefault(Some("")) == "default"
    ensures TenantOrDefault(Some("t0")) == "t0"
  {
  }

  /** A query without page options reads 50 events from version 0. */
  lemma DefaultQueryOpts(tenant: Option<string>)
    ensures RequestOpts(Query(tenant, None, None)) == ReadOpts(Some(50), Some(0))
  {
    ParseIntUndefined();
  }

  /** "?limit=25&start=10" reads 25 events from version 10. */
  lemma PageQueryOpts(tenant: Option<string>)
    ensures RequestOpts(Query(tenant, Some("25"), Some("10"))) == ReadOpts(Some(25), Some(10))
  {
    ParseIntLimitExample();
    ParseIntStartExample();
    assert NumberOr(Some("25"), DefaultLimit) == 25;
    assert NumberOr(Some("10"), DefaultStart) == 10;
  }

  // ---------------------------------------------------------------------------
  // The handler against the stream store

  function StoreEvents(events: seq<StoredEvent>): EventsReader {
    (streamId: string, tenant: string, opts: ReadOpts) => ReadEvents(events, streamId, tenant, opts)
  }

  function StoreLookup(streams: map<StreamKey, int>): StreamLookup {
    (streamId: string, tenant: string) => ReadStream(streams, streamId, tenant)
  }

  lemma {:induction false} NoMatchingEvent(events: seq<StoredEvent>, key: StreamKey)
    requires forall i | 0 <= i < |events| :: KeyOf(events[i]) != key
    ensures OfStream(events, key.streamId, key.tenant) == []
  {
    if events != [] {
      NoMatchingEvent(events[1..], key);
    }
  }

  /** A consistent store holds no event of a stream it has no counter for. */
  lemma NoEventsOfMissingStream(streams: map<StreamKey, int>, events: seq<StoredEvent>, key: StreamKey)
    requires Consistent(streams, events)
    requires key !in streams
    ensures OfStream(events, key.streamId, key.tenant) == []
  {
    NoMatchingEvent(events, key);
  }

  /** Against a consistent stream store, the handler sends readEvents' page
      exactly when the stream exists and the parsed limit is positive; a
      missing stream is NoSuchResource ("Could not find stream."), a limit
      that parses negative is refused. */
  lemma HandlerOverStore(streams: map<StreamKey, int>, events: seq<StoredEvent>, streamId: string, q: Query)
    requires Consistent(streams, events)
    ensures var tenant := TenantOrDefault(q.tenant);
            var r := HandleReadEvents(StoreEvents(events), StoreLookup(streams), streamId, q);
            var limit := NumberOr(q.limit, DefaultLimit);
            && (r.Ok? <==> StreamKey(streamId, tenant) in streams && limit > 0)
            && (limit < 0 ==> r == Err(NegativeLimit))
            && (limit > 0 && StreamKey(streamId, tenant) !in streams ==> r == Err(NoSuchResource(NotFoundMessage)))
            && (r.Ok? ==> r == ReadEvents(events, streamId, tenant, RequestOpts(q)))
  {
    var tenant := TenantOrDefault(q.tenant);
    var key := StreamKey(streamId, tenant);
    var opts := RequestOpts(q);
    var page := ReadEvents(events, streamId, tenant, opts);
    assert StoreEvents(events)(streamId, tenant, opts) == page;
    assert StoreLookup(streams)(streamId, tenant) == ReadStream(streams, streamId, tenant);
    assert opts.limit.value == NumberOr(q.limit, DefaultLimit);
    if key !in streams {
      NoEventsOfMissingStream(streams, events, key);
      assert SortByVersion(Ranged([], opts.fromVersion)) == [] by {
        if Truthy(opts.fromVersion) {
          assert AtOrAfter([], opts.fromVersion.value) == [];
        }
      }
      if page.Ok? {
        assert Selected(events, streamId, tenant, opts) == [];
      }
    }
  }

  /** The handler's page-echo test against the store: an existing stream read
      with "?limit=25&start=10" reports the page from version 10 of 25. */
  lemma PageEchoOverStore(streams: map<StreamKey, int>, events: seq<StoredEvent>, streamId: string)
    requires Consistent(streams, events)
    requires StreamKey(streamId, DefaultTenant) in streams
    ensures var r := HandleReadEvents(StoreEvents(events), StoreLookup(streams), streamId, Query(None, Some("25"), Some("10")));
            r.Ok? && r.value.tenant == "default" && r.value.page == Page(10, Some(25))
  {
    PageQueryOpts(None);
    HandlerOverStore(streams, events, streamId, Query(None, Some("25"), Some("10")));
  }
}
