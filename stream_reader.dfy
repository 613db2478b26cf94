/** The read path of the stream variant (ezedr-postgres/src/reader.ts).

    `ReadEvents` is the meaning of the query readEvents assembles: the rows of
    one stream and tenant, optionally those at or after `fromVersion`, ordered by
    ascending version, optionally truncated to `limit`. `ReadStream` looks up a
    stream's counter. Both are functions of the tables' contents: reading
    changes nothing. */
module StreamReader {
  import opened Wrappers
  import opened StreamWriter

  /** The optional filters of a read. */
  datatype ReadOpts = ReadOpts(limit: Option<int>, fromVersion: Option<int>)

  /** The slice of the stream a read result describes. */
  datatype Page = Page(fromVersion: int, limit: Option<int>)

  /** An event as a reader sees it; `eventType` is the row's event name. */
  datatype EventRow = EventRow(
    eventId: string,
    version: int,
    timestamp: int,
    committer: string,
    eventType: string,
    payload: Option<string>,
    info: Option<string>)

  datatype ReadEventsResult = ReadEventsResult(streamId: string, tenant: string, page: Page, events: seq<EventRow>)

  datatype StreamInfo = StreamInfo(streamId: string, tenant: string, currentVersion: int)

  /** Why a read was rejected. */
  datatype ReadError =
    | NoSuchResource(message: string)  // readStream found no stream
    | NegativeLimit                    // the database refuses a negative LIMIT

  const NotFoundMessage := "Could not find stream."

  /** JavaScript truthiness of an optional number: missing and 0 are falsy. */
  predicate Truthy(n: Option<int>) {
    n.Some? && n.value != 0
  }

  /** The rows of one stream and tenant, in table order. */
  function OfStream(events: seq<StoredEvent>, streamId: string, tenant: string): (r: seq<StoredEvent>)
    ensures |r| <= |events|
  {
    if events == [] then []
    else (if events[0].streamId == streamId && events[0].tenant == tenant then [events[0]] else [])
         + OfStream(events[1..], streamId, tenant)
  }

  /** The rows whose version is at least `from`, in their original order. */
  function AtOrAfter(rows: seq<StoredEvent>, from: int): (r: seq<StoredEvent>)
    ensures |r| <= |rows|
  {
    if rows == [] then []
    else (if rows[0].version >= from then [rows[0]] else []) + AtOrAfter(rows[1..], from)
  }

  ghost predicate SortedByVersion(s: seq<StoredEvent>) {
    forall i, j | 0 <= i < j < |s| :: s[i].version <= s[j].version
  }

  ghost predicate StrictlyAscending(s: seq<StoredEvent>) {
    forall i, j | 0 <= i < j < |s| :: s[i].version < s[j].version
  }

  ghost predicate DistinctVersions(s: seq<StoredEvent>) {
    forall i, j | 0 <= i < j < |s| :: s[i].version != s[j].version
  }

  /** Inserts `e` before the first row of equal or greater version. */
  function InsertByVersion(e: StoredEvent, s: seq<StoredEvent>): (r: seq<StoredEvent>)
    ensures |r| == |s| + 1
  {
    if s == [] then [e]
    else if e.version <= s[0].version then [e] + s
    else [s[0]] + InsertByVersion(e, s[1..])
  }

  /** `ORDER BY "version" ASC`, as an insertion sort. SQL leaves the order of
      rows of equal version open; keeping them in table order is this model's
      choice, and the laws that depend on the order (`ReadLimitIsPrefix`,
      `Pagination`) are stated only for streams with unique versions. */
  function SortByVersion(s: seq<StoredEvent>): (r: seq<StoredEvent>)
    ensures |r| == |s|
  {
    if s == [] then []
    else InsertByVersion(s[0], SortByVersion(s[1..]))
  }

  function Take(s: seq<StoredEvent>, n: nat): (r: seq<StoredEvent>)
    ensures |r| == (if n < |s| then n else |s|)
    ensures r <= s
  {
    if n < |s| then s[..n] else s
  }

  /** The rows at or after `fromVersion` when it is truthy, all rows otherwise. */
  function Ranged(rows: seq<StoredEvent>, fromVersion: Option<int>): seq<StoredEvent> {
    if Truthy(fromVersion) then AtOrAfter(rows, fromVersion.value) else rows
  }

  /** `LIMIT` applied only when the limit is truthy and positive. */
  function Limited(rows: seq<StoredEvent>, limit: Option<int>): seq<StoredEvent> {
    if Truthy(limit) && limit.value > 0 then Take(rows, limit.value) else rows
  }

  /** The rows readEvents returns, before they are turned into EventRows. */
  function Selected(events: seq<StoredEvent>, streamId: string, tenant: string, opts: ReadOpts): (r: seq<StoredEvent>)
    ensures |r| <= |events|
    ensures Truthy(opts.limit) && opts.limit.value > 0 ==> |r| <= opts.limit.value
  {
    Limited(SortByVersion(Ranged(OfStream(events, streamId, tenant), opts.fromVersion)), opts.limit)
  }

  function ViewOf(e: StoredEvent): EventRow {
    EventRow(e.eventId, e.version, e.timestamp, e.committer, e.eventName, e.payload, e.info)
  }

  function Views(rows: seq<StoredEvent>): (r: seq<EventRow>)
    ensures |r| == |rows|
    ensures forall i | 0 <= i < |rows| :: r[i] == ViewOf(rows[i])
  {
    seq(|rows|, i requires 0 <= i < |rows| => ViewOf(rows[i]))
  }

  /** readEvents: the page of one stream's events, with the read options echoed. */
  function ReadEvents(events: seq<StoredEvent>, streamId: string, tenant: string, opts: ReadOpts): (r: Result<ReadEventsResult, ReadError>)
    ensures r.Err? <==> opts.limit.Some? && opts.limit.value < 0
    ensures r.Err? ==> r.error == NegativeLimit
    ensures r.Ok? ==> r.value.streamId == streamId && r.value.tenant == tenant && r.value.page.limit == opts.limit
    ensures r.Ok? ==> |r.value.events| <= |events|
    ensures r.Ok? && Truthy(opts.limit) ==> |r.value.events| <= opts.limit.value
  {
    if Truthy(opts.limit) && opts.limit.value < 0 then Err(NegativeLimit)
    else
      var fromVersion := if Truthy(opts.fromVersion) then opts.fromVersion.value else 0;
      Ok(ReadEventsResult(streamId, tenant, Page(fromVersion, opts.limit), Views(Selected(events, streamId, tenant, opts))))
  }

  /** readStream: the stream's raw counter, or NoSuchResource. */
  function ReadStream(streams: map<StreamKey, int>, streamId: string, tenant: string): (r: Result<StreamInfo, ReadError>)
    ensures r.Ok? <==> StreamKey(streamId, tenant) in streams
    ensures r.Ok? ==> r.value == StreamInfo(streamId, tenant, streams[StreamKey(streamId, tenant)])
    ensures r.Err? ==> r.error == NoSuchResource(NotFoundMessage)
  {
    var key := StreamKey(streamId, tenant);
    if key in streams then Ok(StreamInfo(streamId, tenant, streams[key]))
    else Err(NoSuchResource(NotFoundMessage))
  }

  // ---------------------------------------------------------------------------
  // Sorting and filtering facts

  /** OfStream keeps exactly the rows of the stream and tenant. */
  lemma {:induction false} OfStreamMembers(events: seq<StoredEvent>, streamId: string, tenant: string)
    ensures forall e :: e in OfStream(events, streamId, tenant) <==>
      e in events && e.streamId == streamId && e.tenant == tenant
  {
    if events != [] {
      assert events == [events[0]] + events[1..];
      OfStreamMembers(events[1..], streamId, tenant);
    }
  }

  /** AtOrAfter keeps exactly the rows of version at least `from`. */
  lemma {:induction false} AtOrAfterMembers(rows: seq<StoredEvent>, from: int)
    ensures forall e :: e in AtOrAfter(rows, from) <==> e in rows && e.version >= from
  {
    if rows != [] {
      assert rows == [rows[0]] + rows[1..];
      AtOrAfterMembers(rows[1..], from);
    }
  }

  /** AtOrAfter keeps rows as often as they occur. */
  lemma {:induction false} AtOrAfterMultiset(rows: seq<StoredEvent>, from: int, e: StoredEvent)
    ensures multiset(AtOrAfter(rows, from))[e] == if e.version >= from then multiset(rows)[e] else 0
  {
    if rows != [] {
      assert rows == [rows[0]] + rows[1..];
      AtOrAfterMultiset(rows[1..], from, e);
    }
  }

  lemma OfStreamCons(x: StoredEvent, t: seq<StoredEvent>, streamId: string, tenant: string)
    ensures x.streamId == streamId && x.tenant == tenant ==>
              OfStream([x] + t, streamId, tenant) == [x] + OfStream(t, streamId, tenant)
    ensures !(x.streamId == streamId && x.tenant == tenant) ==>
              OfStream([x] + t, streamId, tenant) == OfStream(t, streamId, tenant)
  {
    assert ([x] + t)[1..] == t;
    assert [] + OfStream(t, streamId, tenant) == OfStream(t, streamId, tenant);
  }

  lemma AtOrAfterCons(x: StoredEvent, t: seq<StoredEvent>, from: int)
    ensures x.version >= from ==> AtOrAfter([x] + t, from) == [x] + AtOrAfter(t, from)
    ensures x.version < from ==> AtOrAfter([x] + t, from) == AtOrAfter(t, from)
  {
    assert ([x] + t)[1..] == t;
    assert [] + AtOrAfter(t, from) == AtOrAfter(t, from);
  }

  lemma InsertCons(e: StoredEvent, x: StoredEvent, t: seq<StoredEvent>)
    ensures e.version <= x.version ==> InsertByVersion(e, [x] + t) == [e, x] + t
    ensures e.version > x.version ==> InsertByVersion(e, [x] + t) == [x] + InsertByVersion(e, t)
  {
    assert ([x] + t)[1..] == t;
    assert ([x] + t)[0] == x;
  }

  /** Insertion keeps a sorted sequence sorted. */
  lemma {:induction false} InsertSorted(e: StoredEvent, s: seq<StoredEvent>)
    requires SortedByVersion(s)
    ensures SortedByVersion(InsertByVersion(e, s))
    ensures multiset(InsertByVersion(e, s)) == multiset(s) + multiset{e}
  {
    if s != [] {
      var t := s[1..];
      assert s == [s[0]] + t;
      InsertCons(e, s[0], t);
      SortedTail(s);
      if e.version <= s[0].version {
        SortedCons(e, s);
        assert [e, s[0]] + t == [e] + s;
      } else {
        InsertSorted(e, t);
        var rest := InsertByVersion(e, t);
        forall y | y in rest ensures s[0].version <= y.version {
          assert y in multiset(rest);
          if y != e {
            assert y in t;
          }
        }
        SortedCons(s[0], rest);
      }
    }
  }

  /** SortByVersion returns a sorted permutation of its input. */
  lemma {:induction false} SortIsSortedPermutation(s: seq<StoredEvent>)
    ensures SortedByVersion(SortByVersion(s))
    ensures multiset(SortByVersion(s)) == multiset(s)
  {
    if s != [] {
      assert s == [s[0]] + s[1..];
      SortIsSortedPermutation(s[1..]);
      InsertSorted(s[0], SortByVersion(s[1..]));
    }
  }

  lemma SortedTail(s: seq<StoredEvent>)
    requires SortedByVersion(s) && s != []
    ensures SortedByVersion(s[1..])
    ensures forall x | x in s :: s[0].version <= x.version
  {
    forall x | x in s ensures s[0].version <= x.version {
      var k :| 0 <= k < |s| && s[k] == x;
    }
  }

  lemma SortedCons(x: StoredEvent, u: seq<StoredEvent>)
    requires SortedByVersion(u)
    requires forall y | y in u :: x.version <= y.version
    ensures SortedByVersion([x] + u)
  {
    var r := [x] + u;
    forall i, j | 0 <= i < j < |r| ensures r[i].version <= r[j].version {
      assert r[j] == u[j - 1];
      assert u[j - 1] in u;
      if i > 0 {
        assert r[i] == u[i - 1];
      }
    }
  }

  /** Keeping the rows at or after a version keeps a sorted sequence sorted. */
  lemma {:induction false} AtOrAfterSorted(s: seq<StoredEvent>, from: int)
    requires SortedByVersion(s)
    ensures SortedByVersion(AtOrAfter(s, from))
  {
    if s != [] {
      assert s == [s[0]] + s[1..];
      SortedTail(s);
      AtOrAfterSorted(s[1..], from);
      AtOrAfterCons(s[0], s[1..], from);
      if s[0].version >= from {
        AtOrAfterMembers(s[1..], from);
        SortedCons(s[0], AtOrAfter(s[1..], from));
      }
    }
  }

  /** Sorting rows that are already in version order leaves them in place. */
  lemma {:induction false} SortOfSorted(s: seq<StoredEvent>)
    requires SortedByVersion(s)
    ensures SortByVersion(s) == s
  {
    if s != [] {
      var t := s[1..];
      assert s == [s[0]] + t;
      SortedTail(s);
      SortOfSorted(t);
      if t != [] {
        assert t == [t[0]] + t[1..];
        InsertCons(s[0], t[0], t[1..]);
        assert [s[0], t[0]] + t[1..] == s;
      }
    }
  }

  /** Filtering by version commutes with inserting into a sorted sequence. */
  lemma {:induction false} AtOrAfterInsert(e: StoredEvent, s: seq<StoredEvent>, from: int)
    requires SortedByVersion(s)
    ensures AtOrAfter(InsertByVersion(e, s), from)
            == if e.version >= from then InsertByVersion(e, AtOrAfter(s, from)) else AtOrAfter(s, from)
  {
    var u := AtOrAfter(s, from);
    if s == [] {
      AtOrAfterCons(e, [], from);
    } else {
      var t := s[1..];
      assert s == [s[0]] + t;
      InsertCons(e, s[0], t);
      AtOrAfterCons(s[0], t, from);
      if e.version <= s[0].version {
        assert [e, s[0]] + t == [e] + s;
        AtOrAfterCons(e, s, from);
        if e.version >= from && u != [] {
          SortedTail(s);
          AtOrAfterMembers(s, from);
          assert u[0] in u;
          assert u == [u[0]] + u[1..];
          InsertCons(e, u[0], u[1..]);
          assert [e, u[0]] + u[1..] == [e] + u;
        }
      } else {
        SortedTail(s);
        AtOrAfterInsert(e, t, from);
        var rest := InsertByVersion(e, t);
        AtOrAfterCons(s[0], rest, from);
        if e.version >= from && s[0].version >= from {
          InsertCons(e, s[0], AtOrAfter(t, from));
        }
      }
    }
  }

  /** Sorting and filtering by version can be done in either order. */
  lemma {:induction false} SortCommutesWithAtOrAfter(s: seq<StoredEvent>, from: int)
    ensures AtOrAfter(SortByVersion(s), from) == SortByVersion(AtOrAfter(s, from))
  {
    if s != [] {
      assert s == [s[0]] + s[1..];
      SortCommutesWithAtOrAfter(s[1..], from);
      AtOrAfterCons(s[0], s[1..], from);
      var sorted := SortByVersion(s[1..]);
      SortIsSortedPermutation(s[1..]);
      AtOrAfterInsert(s[0], sorted, from);
      if s[0].version >= from {
        var t := AtOrAfter(s[1..], from);
        assert [s[0]] + t != [];
        assert ([s[0]] + t)[0] == s[0] && ([s[0]] + t)[1..] == t;
      }
    }
  }

  /** Inserting a row of a new version into a strictly ascending sequence keeps it strictly ascending. */
  lemma {:induction false} InsertKeepsStrict(e: StoredEvent, s: seq<StoredEvent>)
    requires StrictlyAscending(s)
    requires forall x | x in s :: x.version != e.version
    ensures StrictlyAscending(InsertByVersion(e, s))
  {
    var r := InsertByVersion(e, s);
    if s != [] {
      assert s == [s[0]] + s[1..];
      if e.version > s[0].version {
        var s' := s[1..];
        forall x | x in s' ensures x.version != e.version {
          assert x in s;
        }
        InsertKeepsStrict(e, s');
        var rest := InsertByVersion(e, s');
        assert r == [s[0]] + rest;
        forall i, j | 0 <= i < j < |r| ensures r[i].version < r[j].version {
          if i == 0 {
            if rest[0] != e {
              assert rest[0] == s'[0] == s[1];
            }
            if j > 1 {
              assert r[j] == rest[j - 1];
            }
          } else {
            assert r[i] == rest[i - 1] && r[j] == rest[j - 1];
          }
        }
      } else {
        assert s[0] in s;
        assert r == [e] + s;
        forall i, j | 0 <= i < j < |r| ensures r[i].version < r[j].version {
          assert r[j] == s[j - 1];
          if i > 0 {
            assert r[i] == s[i - 1];
          } else if j > 1 {
            assert s[0].version < s[j - 1].version;
          }
        }
      }
    }
  }

  /** Rows of pairwise distinct versions sort into strictly ascending order. */
  lemma {:induction false} SortDistinctIsStrict(s: seq<StoredEvent>)
    requires DistinctVersions(s)
    ensures StrictlyAscending(SortByVersion(s))
  {
    if s != [] {
      assert s == [s[0]] + s[1..];
      var s' := s[1..];
      var rest := SortByVersion(s');
      assert DistinctVersions(s') by {
        forall i, j | 0 <= i < j < |s'| ensures s'[i].version != s'[j].version {
          assert s'[i] == s[i + 1] && s'[j] == s[j + 1];
        }
      }
      SortDistinctIsStrict(s');
      SortIsSortedPermutation(s');
      forall x | x in rest ensures x.version != s[0].version {
        assert x in multiset(rest);
        assert x in s';
        var k :| 0 <= k < |s'| && s'[k] == x;
        assert s[k + 1] == x;
      }
      InsertKeepsStrict(s[0], rest);
    }
  }

  /** Filtering a strictly ascending sequence by a version that its rows up to
      index m lie below, and its rows from m on reach, leaves its suffix from m. */
  lemma {:induction false} AtOrAfterOfAscending(s: seq<StoredEvent>, m: int, from: int)
    requires 0 <= m <= |s|
    requires forall i | 0 <= i < m :: s[i].version < from
    requires forall i | m <= i < |s| :: s[i].version >= from
    ensures AtOrAfter(s, from) == s[m..]
  {
    if s != [] {
      var s' := s[1..];
      assert s == [s[0]] + s';
      AtOrAfterCons(s[0], s', from);
      if m == 0 {
        AtOrAfterOfAscending(s', 0, from);
      } else {
        forall i | 0 <= i < m - 1 ensures s'[i].version < from {
          assert s'[i] == s[i + 1];
        }
        AtOrAfterOfAscending(s', m - 1, from);
        assert s'[m - 1..] == s[m..];
      }
    }
  }

  /** Filtering twice by version is filtering once by the larger bound. */
  lemma {:induction false} AtOrAfterTwice(s: seq<StoredEvent>, a: int, b: int)
    requires a <= b
    ensures AtOrAfter(AtOrAfter(s, a), b) == AtOrAfter(s, b)
  {
    if s != [] {
      assert s == [s[0]] + s[1..];
      AtOrAfterTwice(s[1..], a, b);
      AtOrAfterCons(s[0], s[1..], a);
      AtOrAfterCons(s[0], s[1..], b);
      if s[0].version >= a {
        AtOrAfterCons(s[0], AtOrAfter(s[1..], a), b);
      }
    }
  }

  lemma {:induction false} AtOrAfterKeepsDistinct(s: seq<StoredEvent>, from: int)
    requires DistinctVersions(s)
    ensures DistinctVersions(AtOrAfter(s, from))
  {
    if s != [] {
      var s' := s[1..];
      assert s == [s[0]] + s';
      AtOrAfterCons(s[0], s', from);
      var rest := AtOrAfter(s', from);
      assert DistinctVersions(s') by {
        forall i, j | 0 <= i < j < |s'| ensures s'[i].version != s'[j].version {
          assert s'[i] == s[i + 1] && s'[j] == s[j + 1];
        }
      }
      AtOrAfterKeepsDistinct(s', from);
      if s[0].version >= from {
        AtOrAfterMembers(s', from);
        forall e | e in rest ensures e.version != s[0].version {
          var k :| 0 <= k < |s'| && s'[k] == e;
          assert s[k + 1] == e;
        }
        DistinctCons(s[0], rest);
      }
    }
  }

  // ---------------------------------------------------------------------------
  // The read laws

  /** The stream's events have pairwise distinct versions (the writer keeps this). */
  ghost predicate UniqueVersions(events: seq<StoredEvent>, streamId: string, tenant: string) {
    forall i, j | 0 <= i < j < |events| && KeyOf(events[i]) == StreamKey(streamId, tenant)
                                          && KeyOf(events[j]) == StreamKey(streamId, tenant) ::
      events[i].version != events[j].version
  }

  /** No event of the stream has a negative version (the writer keeps this). */
  ghost predicate NonNegativeVersions(events: seq<StoredEvent>, streamId: string, tenant: string) {
    forall e | e in events && e.streamId == streamId && e.tenant == tenant :: e.version >= 0
  }

  lemma {:induction false} OfStreamDistinct(events: seq<StoredEvent>, streamId: string, tenant: string)
    requires UniqueVersions(events, streamId, tenant)
    ensures DistinctVersions(OfStream(events, streamId, tenant))
  {
    if events != [] {
      var t := events[1..];
      assert events == [events[0]] + t;
      OfStreamCons(events[0], t, streamId, tenant);
      var rest := OfStream(t, streamId, tenant);
      assert UniqueVersions(t, streamId, tenant) by {
        forall i, j | 0 <= i < j < |t| && KeyOf(t[i]) == StreamKey(streamId, tenant)
                                        && KeyOf(t[j]) == StreamKey(streamId, tenant)
          ensures t[i].version != t[j].version
        {
          assert t[i] == events[i + 1] && t[j] == events[j + 1];
        }
      }
      OfStreamDistinct(t, streamId, tenant);
      if events[0].streamId == streamId && events[0].tenant == tenant {
        OfStreamMembers(t, streamId, tenant);
        forall e | e in rest ensures e.version != events[0].version {
          var k :| 0 <= k < |t| && t[k] == e;
          assert events[k + 1] == e;
        }
        DistinctCons(events[0], rest);
      }
    }
  }

  lemma DistinctCons(x: StoredEvent, rest: seq<StoredEvent>)
    requires DistinctVersions(rest)
    requires forall e | e in rest :: e.version != x.version
    ensures DistinctVersions([x] + rest)
  {
    var r := [x] + rest;
    forall i, j | 0 <= i < j < |r| ensures r[i].version != r[j].version {
      assert r[j] == rest[j - 1];
      if i == 0 {
        assert r[j] in rest;
      } else {
        assert r[i] == rest[i - 1];
      }
    }
  }

  /** The writer's invariant gives the stream distinct, non-negative versions. */
  lemma ConsistentStoreHasUniqueVersions(streams: map<StreamKey, int>, events: seq<StoredEvent>, streamId: string, tenant: string)
    requires Consistent(streams, events)
    ensures UniqueVersions(events, streamId, tenant)
    ensures NonNegativeVersions(events, streamId, tenant)
  {
    forall e | e in events && e.streamId == streamId && e.tenant == tenant ensures e.version >= 0 {
      var i :| 0 <= i < |events| && events[i] == e;
    }
  }

  /** A write of a consistent store whose insert is refused still spends its
      claim (StreamStore.Write): readStream then reports a counter beyond the
      stream's last committed version. */
  lemma CounterAheadAfterRefusal(streams: map<StreamKey, int>, events: seq<StoredEvent>, key: StreamKey)
    requires Consistent(streams, events) && key in streams
    ensures var info := ReadStream(streams[key := streams[key] + 1], key.streamId, key.tenant);
            info.Ok? && info.value.currentVersion > LatestCommitted(events, key)
  {
    LatestCommittedBelowCounter(streams, events, key);
  }

  /** Ranged keeps exactly the rows at or after a truthy `fromVersion`. */
  lemma RangedMembers(rows: seq<StoredEvent>, fromVersion: Option<int>)
    ensures forall e :: e in Ranged(rows, fromVersion) <==>
      e in rows && (Truthy(fromVersion) ==> e.version >= fromVersion.value)
  {
    if Truthy(fromVersion) {
      AtOrAfterMembers(rows, fromVersion.value);
    }
  }

  /** A limit keeps a prefix: the first `limit` rows when it is truthy and
      positive, all of them otherwise. */
  lemma LimitedPrefix(rows: seq<StoredEvent>, limit: Option<int>)
    ensures var r := Limited(rows, limit);
            && |r| == (if Truthy(limit) && 0 < limit.value < |rows| then limit.value else |rows|)
            && r == rows[..|r|]
  {
  }

  /** readEvents returns only the events of the given stream and tenant (at or
      after `fromVersion` when it is truthy), in ascending version order, and
      strictly ascending when the stream's versions are distinct. */
  lemma ReadIsOrderedStreamSlice(events: seq<StoredEvent>, streamId: string, tenant: string, opts: ReadOpts)
    ensures var r := Selected(events, streamId, tenant, opts);
            && SortedByVersion(r)
            && (forall e | e in r :: e in events && e.streamId == streamId && e.tenant == tenant)
            && (Truthy(opts.fromVersion) ==> forall e | e in r :: e.version >= opts.fromVersion.value)
    ensures UniqueVersions(events, streamId, tenant) ==> StrictlyAscending(Selected(events, streamId, tenant, opts))
  {
    SelectedIsSortedSlice(events, streamId, tenant, opts);
    if UniqueVersions(events, streamId, tenant) {
      SelectedIsStrict(events, streamId, tenant, opts);
    }
  }

  lemma SelectedIsSortedSlice(events: seq<StoredEvent>, streamId: string, tenant: string, opts: ReadOpts)
    ensures var r := Selected(events, streamId, tenant, opts);
            && SortedByVersion(r)
            && (forall e | e in r :: e in events && e.streamId == streamId && e.tenant == tenant)
            && (Truthy(opts.fromVersion) ==> forall e | e in r :: e.version >= opts.fromVersion.value)
  {
    var matching := OfStream(events, streamId, tenant);
    var ranged := Ranged(matching, opts.fromVersion);
    var ordered := SortByVersion(ranged);
    var r := Selected(events, streamId, tenant, opts);
    SortIsSortedPermutation(ranged);
    OfStreamMembers(events, streamId, tenant);
    RangedMembers(matching, opts.fromVersion);
    LimitedPrefix(ordered, opts.limit);
    assert r == ordered[..|r|];
    forall e | e in r ensures e in ranged {
      assert e in ordered;
      assert e in multiset(ordered);
    }
  }

  lemma SelectedIsStrict(events: seq<StoredEvent>, streamId: string, tenant: string, opts: ReadOpts)
    requires UniqueVersions(events, streamId, tenant)
    ensures StrictlyAscending(Selected(events, streamId, tenant, opts))
  {
    var matching := OfStream(events, streamId, tenant);
    var ranged := Ranged(matching, opts.fromVersion);
    var ordered := SortByVersion(ranged);
    OfStreamDistinct(events, streamId, tenant);
    if Truthy(opts.fromVersion) {
      AtOrAfterKeepsDistinct(matching, opts.fromVersion.value);
    }
    SortDistinctIsStrict(ranged);
    LimitedPrefix(ordered, opts.limit);
  }

  /** Without a limit, readEvents returns exactly the stream's events at or
      after `fromVersion` (all of them when fromVersion is missing or 0), each
      as often as it occurs in the table. */
  lemma ReadFromVersionIsExact(events: seq<StoredEvent>, streamId: string, tenant: string, fromVersion: Option<int>, limit: Option<int>)
    requires !Truthy(limit)
    ensures var r := Selected(events, streamId, tenant, ReadOpts(limit, fromVersion));
            multiset(r) == multiset(Ranged(OfStream(events, streamId, tenant), fromVersion))
    ensures forall e :: e in Selected(events, streamId, tenant, ReadOpts(limit, fromVersion)) <==>
              e in events && e.streamId == streamId && e.tenant == tenant
              && (Truthy(fromVersion) ==> e.version >= fromVersion.value)
  {
    var matching := OfStream(events, streamId, tenant);
    var ranged := Ranged(matching, fromVersion);
    var r := Selected(events, streamId, tenant, ReadOpts(limit, fromVersion));
    SortIsSortedPermutation(ranged);
    assert r == SortByVersion(ranged);
    OfStreamMembers(events, streamId, tenant);
    RangedMembers(matching, fromVersion);
    forall e ensures e in r <==> e in ranged {
      assert e in r <==> e in multiset(r);
      assert e in ranged <==> e in multiset(ranged);
    }
  }

  /** A positive limit keeps only the first `limit` events of the unbounded
      read; a missing or zero limit truncates nothing. */
  lemma ReadLimitIsPrefix(events: seq<StoredEvent>, streamId: string, tenant: string, limit: Option<int>, fromVersion: Option<int>)
    requires UniqueVersions(events, streamId, tenant)
    ensures var all := Selected(events, streamId, tenant, ReadOpts(None, fromVersion));
            var r := Selected(events, streamId, tenant, ReadOpts(limit, fromVersion));
            && |r| == (if Truthy(limit) && 0 < limit.value < |all| then limit.value else |all|)
            && r == all[..|r|]
  {
    var ordered := SortByVersion(Ranged(OfStream(events, streamId, tenant), fromVersion));
    LimitedPrefix(ordered, limit);
    LimitedPrefix(ordered, None);
  }

  /** A read with a limit that is not negative succeeds with the selected rows. */
  lemma ReadEventsRows(events: seq<StoredEvent>, streamId: string, tenant: string, opts: ReadOpts)
    requires !(opts.limit.Some? && opts.limit.value < 0)
    ensures ReadEvents(events, streamId, tenant, opts).Ok?
    ensures ReadEvents(events, streamId, tenant, opts).value.events == Views(Selected(events, streamId, tenant, opts))
  {
  }

  /** The events of a page followed by the rest are the events of the whole. */
  lemma PageViews(page: seq<StoredEvent>, rest: seq<StoredEvent>, all: seq<StoredEvent>)
    requires |page| > 0 && page + rest == all
    ensures Views(page) + Views(rest) == Views(all)
    ensures Views(page)[|page| - 1].version == page[|page| - 1].version
  {
    ViewsAppend(page, rest);
  }

  lemma ViewsAppend(a: seq<StoredEvent>, b: seq<StoredEvent>)
    ensures Views(a + b) == Views(a) + Views(b)
  {
    assert forall i | 0 <= i < |a + b| :: (a + b)[i] == if i < |a| then a[i] else b[i - |a|];
  }

  /** In a strictly ascending sequence, the rows after the m-th are those at
      or after the m-th row's version plus one. */
  lemma SuffixAfter(all: seq<StoredEvent>, m: int)
    requires StrictlyAscending(all)
    requires 0 < m <= |all|
    ensures AtOrAfter(all, all[m - 1].version + 1) == all[m..]
  {
    var last := all[m - 1].version;
    assert forall i | 0 <= i < m :: all[i].version < last + 1 by {
      forall i | 0 <= i < m ensures all[i].version < last + 1 {
        if i < m - 1 {
          assert all[i].version < all[m - 1].version;
        }
      }
    }
    assert forall i | m <= i < |all| :: all[i].version >= last + 1 by {
      forall i | m <= i < |all| ensures all[i].version >= last + 1 {
        assert all[m - 1].version < all[i].version;
      }
    }
    AtOrAfterOfAscending(all, m, last + 1);
  }

  /** An unbounded read from a truthy version not below the original bound is
      the original unbounded read cut at that version. */
  lemma RereadFrom(events: seq<StoredEvent>, streamId: string, tenant: string, fromVersion: Option<int>, v: int)
    requires v != 0
    requires Truthy(fromVersion) ==> fromVersion.value <= v
    ensures Selected(events, streamId, tenant, ReadOpts(None, Some(v)))
            == AtOrAfter(Selected(events, streamId, tenant, ReadOpts(None, fromVersion)), v)
  {
    var matching := OfStream(events, streamId, tenant);
    var sorted := SortByVersion(matching);
    SortCommutesWithAtOrAfter(matching, v);
    if Truthy(fromVersion) {
      var k := fromVersion.value;
      SortCommutesWithAtOrAfter(matching, k);
      AtOrAfterTwice(sorted, k, v);
    }
  }

  /** Reading from one past the version of the unbounded read's m-th event
      gives that read's events after the m-th. */
  lemma NextPageIsSuffix(events: seq<StoredEvent>, streamId: string, tenant: string, fromVersion: Option<int>, m: int)
    requires UniqueVersions(events, streamId, tenant) && NonNegativeVersions(events, streamId, tenant)
    requires 0 < m <= |Selected(events, streamId, tenant, ReadOpts(None, fromVersion))|
    ensures var all := Selected(events, streamId, tenant, ReadOpts(None, fromVersion));
            all[m - 1].version >= 0
            && Selected(events, streamId, tenant, ReadOpts(None, Some(all[m - 1].version + 1))) == all[m..]
  {
    var all := Selected(events, streamId, tenant, ReadOpts(None, fromVersion));
    ReadIsOrderedStreamSlice(events, streamId, tenant, ReadOpts(None, fromVersion));
    assert all[m - 1] in all;
    var last := all[m - 1].version;
    SuffixAfter(all, m);
    RereadFrom(events, streamId, tenant, fromVersion, last + 1);
  }

  /** The response of readEvents: a negative limit is refused; otherwise the
      stream and tenant are echoed, the page records `fromVersion || 0` and the
      given limit, and the events are views of that stream's rows in ascending
      version order. */
  lemma ReadEventsResponse(events: seq<StoredEvent>, streamId: string, tenant: string, opts: ReadOpts)
    ensures var r := ReadEvents(events, streamId, tenant, opts);
            && (r.Err? <==> opts.limit.Some? && opts.limit.value < 0)
            && (r.Err? ==> r.error == NegativeLimit)
    ensures var r := ReadEvents(events, streamId, tenant, opts);
            r.Ok? ==>
              && r.value.streamId == streamId && r.value.tenant == tenant
              && r.value.page.limit == opts.limit
              && (Truthy(opts.fromVersion) ==> r.value.page.fromVersion == opts.fromVersion.value)
              && (!Truthy(opts.fromVersion) ==> r.value.page.fromVersion == 0)
              && (forall i, j | 0 <= i < j < |r.value.events| :: r.value.events[i].version <= r.value.events[j].version)
              && (forall i | 0 <= i < |r.value.events| ::
                    exists e | e in events :: e.streamId == streamId && e.tenant == tenant && ViewOf(e) == r.value.events[i])
  {
    var r := ReadEvents(events, streamId, tenant, opts);
    if r.Ok? {
      var rows := Selected(events, streamId, tenant, opts);
      ReadIsOrderedStreamSlice(events, streamId, tenant, opts);
      forall i | 0 <= i < |r.value.events|
        ensures exists e | e in events :: e.streamId == streamId && e.tenant == tenant && ViewOf(e) == r.value.events[i]
      {
        assert rows[i] in rows;
      }
    }
  }

  /** The pagination identity on rows: a page of at most `limit` rows, and
      the unbounded read from one past its last version, concatenate to the
      unbounded read. */
  lemma PaginationRows(events: seq<StoredEvent>, streamId: string, tenant: string, fromVersion: Option<int>, limit: int)
    requires UniqueVersions(events, streamId, tenant) && NonNegativeVersions(events, streamId, tenant)
    requires limit > 0
    ensures var all := Selected(events, streamId, tenant, ReadOpts(None, fromVersion));
            var page := Selected(events, streamId, tenant, ReadOpts(Some(limit), fromVersion));
            && |page| <= limit
            && (|page| > 0 ==>
                page + Selected(events, streamId, tenant, ReadOpts(None, Some(page[|page| - 1].version + 1))) == all)
  {
    var all := Selected(events, streamId, tenant, ReadOpts(None, fromVersion));
    var page := Selected(events, streamId, tenant, ReadOpts(Some(limit), fromVersion));
    ReadLimitIsPrefix(events, streamId, tenant, Some(limit), fromVersion);
    var m := |page|;
    if m > 0 {
      NextPageIsSuffix(events, streamId, tenant, fromVersion, m);
      assert page[m - 1] == all[m - 1];
      assert all == all[..m] + all[m..];
    }
  }

  /** The pagination identity: a page of `limit` events followed by an
      unbounded read starting one past the page's last version gives the
      unbounded read, for a stream whose versions are distinct and non-negative. */
  lemma Pagination(events: seq<StoredEvent>, streamId: string, tenant: string, fromVersion: Option<int>, limit: int)
    requires UniqueVersions(events, streamId, tenant) && NonNegativeVersions(events, streamId, tenant)
    requires limit > 0
    ensures var first := ReadEvents(events, streamId, tenant, ReadOpts(Some(limit), fromVersion));
            var all := ReadEvents(events, streamId, tenant, ReadOpts(None, fromVersion));
            && first.Ok? && all.Ok?
            && |first.value.events| <= limit
            && (|first.value.events| > 0 ==>
                var next := Some(first.value.events[|first.value.events| - 1].version + 1);
                var rest := ReadEvents(events, streamId, tenant, ReadOpts(None, next));
                rest.Ok? && first.value.events + rest.value.events == all.value.events)
  {
    var page := Selected(events, streamId, tenant, ReadOpts(Some(limit), fromVersion));
    var all := Selected(events, streamId, tenant, ReadOpts(None, fromVersion));
    PaginationRows(events, streamId, tenant, fromVersion, limit);
    ReadEventsRows(events, streamId, tenant, ReadOpts(Some(limit), fromVersion));
    ReadEventsRows(events, streamId, tenant, ReadOpts(None, fromVersion));
    var m := |page|;
    if m > 0 {
      var next := Some(page[m - 1].version + 1);
      var restRows := Selected(events, streamId, tenant, ReadOpts(None, next));
      ReadEventsRows(events, streamId, tenant, ReadOpts(None, next));
      PageViews(page, restRows, all);
    }
  }
}
