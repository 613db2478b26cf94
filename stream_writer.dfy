/** The stream variant of the event log (ezedr-postgres/src/writer.ts).

    Streams are keyed by stream id and tenant and carry a counter `version_seq`.
    A write normalises the caller's base version, claims the next version by
    incrementing the counter unconditionally, and then tries to insert the event
    at the claimed version. A rejected insert leaves the counter advanced: the
    claimed version is burned and committed versions may skip numbers.

    The two database tables are the fields of `StreamStore`: `streams` maps a
    stream's key to its `version_seq`, `events` holds the event rows in the order
    they were inserted. */
module StreamWriter {
  import opened Wrappers

  /** A stream is identified by its id together with its tenant. */
  datatype StreamKey = StreamKey(streamId: string, tenant: string)

  datatype InitStreamInstruction = InitStreamInstruction(streamId: string, tenant: string)

  datatype InitStreamResponse = InitStreamResponse(streamId: string, tenant: string, version: int)

  /** What a caller supplies to append an event; `baseVersion` may be missing. */
  datatype SaveInstruction = SaveInstruction(
    eventId: string,
    streamId: string,
    tenant: string,
    eventName: string,
    baseVersion: Option<int>,
    committer: string,
    payload: Option<string>,
    info: Option<string>)

  datatype SaveResponse = SaveResponse(eventId: string, streamId: string, tenant: string, currentVersion: int)

  /** One row of the events table. The timestamp is the value of the clock at
      insertion, passed in by the caller of `Write`. */
  datatype StoredEvent = StoredEvent(
    eventId: string,
    streamId: string,
    tenant: string,
    baseVersion: int,
    version: int,
    eventName: string,
    committer: string,
    payload: Option<string>,
    info: Option<string>,
    timestamp: int)

  /** Why a stream operation was rejected. */
  datatype StreamError =
    | AlreadyExists                  // the streams insert hit an existing (stream, tenant) key
    | NoSuchStream(message: string)  // nextVersion found no stream to increment
    | InsertRejected                 // the database refused the events insert

  /** The message of the error nextVersion throws when no stream row was updated. */
  const UpdateFailedMessage := "Failed to update stream version. Check that it exists and that your are providing correct base version information!"

  function KeyOf(e: StoredEvent): StreamKey {
    StreamKey(e.streamId, e.tenant)
  }

  function InstructionKey(instr: SaveInstruction): StreamKey {
    StreamKey(instr.streamId, instr.tenant)
  }

  /** A missing or negative base version means "no prior version", written -1. */
  function NormalizeBaseVersion(version: Option<int>): (r: int)
    ensures r >= -1
    ensures version.Some? && version.value >= 0 ==> r == version.value
    ensures version.None? || version.value < 0 ==> r == -1
  {
    if version.Some? && version.value >= 0 then version.value else -1
  }

  /** The row writeEvent inserts for `instr` at the claimed `version`. */
  function RowOf(instr: SaveInstruction, baseVersion: int, version: int, timestamp: int): (row: StoredEvent)
    ensures KeyOf(row) == InstructionKey(instr)
    ensures row.baseVersion == baseVersion && row.version == version && row.timestamp == timestamp
    ensures SaveInstruction(row.eventId, row.streamId, row.tenant, row.eventName, instr.baseVersion,
                            row.committer, row.payload, row.info) == instr
  {
    StoredEvent(instr.eventId, instr.streamId, instr.tenant, baseVersion, version,
                instr.eventName, instr.committer, instr.payload, instr.info, timestamp)
  }

  /** The version of the most recently inserted event of the stream, or -1 when
      the stream has no event. */
  function LatestCommitted(events: seq<StoredEvent>, key: StreamKey): (r: int)
    ensures r == -1 || VersionTaken(events, key, r)
  {
    if |events| == 0 then -1
    else if KeyOf(events[|events| - 1]) == key then events[|events| - 1].version
    else LatestCommitted(events[..|events| - 1], key)
  }

  predicate VersionTaken(events: seq<StoredEvent>, key: StreamKey, version: int) {
    exists e | e in events :: KeyOf(e) == key && e.version == version
  }

  /** The database constraints on the events table, which are not part of the
      repository's source and are taken as given here: a stream holds at most one event
      per version, and an event is accepted only if its base version is the
      latest committed version of its stream (-1 when it has none). */
  predicate InsertAccepted(events: seq<StoredEvent>, row: StoredEvent)
    ensures InsertAccepted(events, row) ==> !VersionTaken(events, KeyOf(row), row.version)
    ensures (forall e | e in events :: KeyOf(e) != KeyOf(row)) ==>
              (InsertAccepted(events, row) <==> row.baseVersion == -1)
  {
    && !VersionTaken(events, KeyOf(row), row.version)
    && row.baseVersion == LatestCommitted(events, KeyOf(row))
  }

  /** Committed versions of a stream increase in insertion order. */
  ghost predicate Increasing(events: seq<StoredEvent>) {
    forall i, j | 0 <= i < j < |events| && KeyOf(events[i]) == KeyOf(events[j]) ::
      events[i].version < events[j].version
  }

  /** The invariant the write path keeps: counters start at -1, every event
      belongs to an initialised stream, lies between 0 and the stream's counter,
      and the versions of one stream increase in insertion order. */
  ghost predicate Consistent(streams: map<StreamKey, int>, events: seq<StoredEvent>) {
    && (forall k | k in streams :: streams[k] >= -1)
    && (forall i | 0 <= i < |events| ::
          KeyOf(events[i]) in streams && 0 <= events[i].version <= streams[KeyOf(events[i])])
    && Increasing(events)
  }

  /** Every committed event names, as its base version, the version committed
      just before it in its stream (or -1 for the first one). */
  ghost predicate Chained(events: seq<StoredEvent>) {
    forall i | 0 <= i < |events| ::
      events[i].baseVersion == LatestCommitted(events[..i], KeyOf(events[i]))
  }

  /** LatestCommitted names an event of the stream, or the stream has none. */
  lemma {:induction false} LatestCommittedWitness(events: seq<StoredEvent>, key: StreamKey) returns (i: int)
    ensures || (i == -1 && LatestCommitted(events, key) == -1
                && forall k | 0 <= k < |events| :: KeyOf(events[k]) != key)
            || (0 <= i < |events| && KeyOf(events[i]) == key
                && events[i].version == LatestCommitted(events, key))
  {
    if |events| == 0 {
      i := -1;
    } else if KeyOf(events[|events| - 1]) == key {
      i := |events| - 1;
    } else {
      var prefix := events[..|events| - 1];
      i := LatestCommittedWitness(prefix, key);
    }
  }

  /** Under Increasing, LatestCommitted is the largest committed version of the stream. */
  lemma {:induction false} LatestCommittedAtLeast(events: seq<StoredEvent>, key: StreamKey, i: int)
    requires Increasing(events)
    requires 0 <= i < |events| && KeyOf(events[i]) == key
    ensures LatestCommitted(events, key) >= events[i].version
  {
    var n := |events| - 1;
    if KeyOf(events[n]) != key {
      var prefix := events[..n];
      assert prefix[i] == events[i];
      LatestCommittedAtLeast(prefix, key, i);
    }
  }

  /** No committed version of a stream exceeds its counter. */
  lemma {:induction false} LatestCommittedBelowCounter(streams: map<StreamKey, int>, events: seq<StoredEvent>, key: StreamKey)
    requires Consistent(streams, events) && key in streams
    ensures -1 <= LatestCommitted(events, key) <= streams[key]
  {
    if |events| > 0 && KeyOf(events[|events| - 1]) != key {
      var prefix := events[..|events| - 1];
      assert Consistent(streams, prefix) by {
        forall i | 0 <= i < |prefix| ensures prefix[i] == events[i] { }
      }
      LatestCommittedBelowCounter(streams, prefix, key);
    }
  }

  /** The version a write claims is never taken: the counter is above every
      committed version of the stream. */
  lemma ClaimedVersionIsFree(streams: map<StreamKey, int>, events: seq<StoredEvent>, key: StreamKey)
    requires Consistent(streams, events) && key in streams
    ensures !VersionTaken(events, key, streams[key] + 1)
  {
  }

  /** For a write claiming the next version of an initialised stream, the
      insert is accepted exactly when its base version is the stream's latest
      committed version: a stale base, or one naming a burned version, is
      rejected, and the correct one always succeeds. */
  lemma AcceptedIffBaseIsLatest(streams: map<StreamKey, int>, events: seq<StoredEvent>, row: StoredEvent)
    requires Consistent(streams, events) && KeyOf(row) in streams
    requires row.version == streams[KeyOf(row)] + 1
    ensures InsertAccepted(events, row) <==> row.baseVersion == LatestCommitted(events, KeyOf(row))
  {
    ClaimedVersionIsFree(streams, events, KeyOf(row));
  }

  /** A stream without committed events accepts only the base version -1. */
  lemma {:induction false} NewStreamRule(events: seq<StoredEvent>, row: StoredEvent)
    requires forall i | 0 <= i < |events| :: KeyOf(events[i]) != KeyOf(row)
    requires row.baseVersion != -1
    ensures !InsertAccepted(events, row)
  {
    var w := LatestCommittedWitness(events, KeyOf(row));
  }

  lemma InitKeepsConsistent(streams: map<StreamKey, int>, events: seq<StoredEvent>, key: StreamKey)
    requires Consistent(streams, events) && key !in streams
    ensures Consistent(streams[key := -1], events)
  {
  }

  /** Claiming a version keeps the invariant even when the insert that follows is rejected. */
  lemma ClaimKeepsConsistent(streams: map<StreamKey, int>, events: seq<StoredEvent>, key: StreamKey)
    requires Consistent(streams, events) && key in streams
    ensures Consistent(streams[key := streams[key] + 1], events)
  {
    var s := streams[key := streams[key] + 1];
    forall i | 0 <= i < |events|
      ensures KeyOf(events[i]) in s && 0 <= events[i].version <= s[KeyOf(events[i])]
    {
    }
  }

  /** Inserting the event at the freshly claimed version keeps the invariant. */
  lemma AppendKeepsConsistent(streams: map<StreamKey, int>, events: seq<StoredEvent>, row: StoredEvent)
    requires Consistent(streams, events) && KeyOf(row) in streams
    requires row.version == streams[KeyOf(row)] + 1
    ensures Consistent(streams[KeyOf(row) := row.version], events + [row])
  {
    var s := streams[KeyOf(row) := row.version];
    var es := events + [row];
    forall i | 0 <= i < |es|
      ensures KeyOf(es[i]) in s && 0 <= es[i].version <= s[KeyOf(es[i])]
    {
      if i < |events| {
        assert es[i] == events[i];
      }
    }
    forall i, j | 0 <= i < j < |es| && KeyOf(es[i]) == KeyOf(es[j])
      ensures es[i].version < es[j].version
    {
      assert es[i] == events[i];
      if j < |events| {
        assert es[j] == events[j];
      }
    }
  }

  lemma AppendKeepsChained(events: seq<StoredEvent>, row: StoredEvent)
    requires Chained(events)
    requires row.baseVersion == LatestCommitted(events, KeyOf(row))
    ensures Chained(events + [row])
  {
    var es := events + [row];
    forall i | 0 <= i < |es|
      ensures es[i].baseVersion == LatestCommitted(es[..i], KeyOf(es[i]))
    {
      if i < |events| {
        assert es[..i] == events[..i];
      } else {
        assert es[..i] == events;
      }
    }
  }

  /** The base version of a committed event is below its own version. */
  lemma BaseBelowVersion(streams: map<StreamKey, int>, events: seq<StoredEvent>, i: int)
    requires Consistent(streams, events) && Chained(events)
    requires 0 <= i < |events|
    ensures events[i].baseVersion < events[i].version
  {
    var prefix := events[..i];
    var w := LatestCommittedWitness(prefix, KeyOf(events[i]));
    if w != -1 {
      assert prefix[w] == events[w];
    }
  }

  /** At most one winner per base version: in a stream, the base versions of
      committed events strictly increase, so no two writes based on the same
      version are both committed. */
  lemma BasesStrictlyIncrease(streams: map<StreamKey, int>, events: seq<StoredEvent>, i: int, j: int)
    requires Consistent(streams, events) && Chained(events)
    requires 0 <= i < j < |events| && KeyOf(events[i]) == KeyOf(events[j])
    ensures events[i].baseVersion < events[j].baseVersion
  {
    BaseBelowVersion(streams, events, i);
    var prefix := events[..j];
    assert prefix[i] == events[i];
    LatestCommittedAtLeast(prefix, KeyOf(events[j]), i);
  }

  /** The events and streams tables of one database. */
  class StreamStore {
    var streams: map<StreamKey, int>
    var events: seq<StoredEvent>

    /** An empty database (both tables truncated). */
    constructor ()
      ensures streams == map[] && events == []
      ensures Valid()
    {
      streams := map[];
      events := [];
    }

    ghost predicate Valid()
      reads this
    {
      Consistent(streams, events) && Chained(events)
    }

    /** Creates the stream with counter -1; fails on an existing key. */
    method InitStream(instr: InitStreamInstruction) returns (r: Result<InitStreamResponse, StreamError>)
      modifies this
      ensures events == old(events)
      ensures StreamKey(instr.streamId, instr.tenant) in old(streams) ==>
        r == Err(AlreadyExists) && streams == old(streams)
      ensures StreamKey(instr.streamId, instr.tenant) !in old(streams) ==>
        && r == Ok(InitStreamResponse(instr.streamId, instr.tenant, -1))
        && streams == old(streams)[StreamKey(instr.streamId, instr.tenant) := -1]
      ensures old(Valid()) ==> Valid()
    {
      var key := StreamKey(instr.streamId, instr.tenant);
      if key in streams {
        return Err(AlreadyExists);
      }
      if Valid() {
        InitKeepsConsistent(streams, events, key);
      }
      streams := streams[key := -1];
      r := Ok(InitStreamResponse(instr.streamId, instr.tenant, streams[key]));
    }

    /** Increments the stream's counter and returns the new value. */
    method NextVersion(streamId: string, tenant: string) returns (r: Result<int, StreamError>)
      modifies this`streams
      ensures StreamKey(streamId, tenant) in old(streams) ==>
        && streams == old(streams)[StreamKey(streamId, tenant) := old(streams)[StreamKey(streamId, tenant)] + 1]
        && r == Ok(streams[StreamKey(streamId, tenant)])
      ensures StreamKey(streamId, tenant) !in old(streams) ==>
        streams == old(streams) && r == Err(NoSuchStream(UpdateFailedMessage))
    {
      var key := StreamKey(streamId, tenant);
      if key !in streams {
        return Err(NoSuchStream(UpdateFailedMessage));
      }
      streams := streams[key := streams[key] + 1];
      r := Ok(streams[key]);
    }

    /** Inserts one event row, or reports the database's refusal. */
    method WriteEvent(row: StoredEvent) returns (r: Result<SaveResponse, StreamError>)
      modifies this`events
      ensures InsertAccepted(old(events), row) ==>
        events == old(events) + [row] && r == Ok(SaveResponse(row.eventId, row.streamId, row.tenant, row.version))
      ensures !InsertAccepted(old(events), row) ==>
        events == old(events) && r == Err(InsertRejected)
    {
      if !InsertAccepted(events, row) {
        return Err(InsertRejected);
      }
      events := events + [row];
      r := Ok(SaveResponse(row.eventId, row.streamId, row.tenant, row.version));
    }

    /** Appends an event under optimistic concurrency: the counter of an
        existing stream advances by exactly one whether or not the insert is
        accepted, and on acceptance the new row carries the claimed version and
        the normalised base version. */
    method Write(instr: SaveInstruction, now: int) returns (r: Result<SaveResponse, StreamError>)
      modifies this
      ensures InstructionKey(instr) !in old(streams) ==>
        && r == Err(NoSuchStream(UpdateFailedMessage))
        && streams == old(streams) && events == old(events)
      ensures InstructionKey(instr) in old(streams) ==>
        streams == old(streams)[InstructionKey(instr) := old(streams)[InstructionKey(instr)] + 1]
      ensures InstructionKey(instr) in old(streams) ==>
        var row := RowOf(instr, NormalizeBaseVersion(instr.baseVersion), old(streams)[InstructionKey(instr)] + 1, now);
        if InsertAccepted(old(events), row) then
          && events == old(events) + [row]
          && r == Ok(SaveResponse(instr.eventId, instr.streamId, instr.tenant, row.version))
        else
          events == old(events) && r == Err(InsertRejected)
      ensures old(Valid()) && r == Err(InsertRejected) ==>
        streams[InstructionKey(instr)] > LatestCommitted(events, InstructionKey(instr))
      ensures r.Ok? ==> streams[InstructionKey(instr)] == LatestCommitted(events, InstructionKey(instr))
      ensures old(Valid()) ==> Valid()
    {
      ghost var wasValid := Valid();
      var baseVersion := NormalizeBaseVersion(instr.baseVersion);
      var version := NextVersion(instr.streamId, instr.tenant);
      if version.Err? {
        return Err(version.error);
      }
      var row := RowOf(instr, baseVersion, version.value, now);
      if wasValid {
        LatestCommittedBelowCounter(old(streams), events, KeyOf(row));
        ClaimKeepsConsistent(old(streams), events, KeyOf(row));
        AppendKeepsConsistent(old(streams), events, row);
        if InsertAccepted(events, row) {
          AppendKeepsChained(events, row);
        }
      }
      r := WriteEvent(row);
    }
  }
}
