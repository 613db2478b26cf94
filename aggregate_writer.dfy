/** The aggregate variant of the writer (ezedr-store-postgres/src/repository/write.ts).

    A `versions` table holds one counter per aggregate and an `events` table
    the log. A write first claims a version: version 0 inserts the
    aggregate's counter at 0, any other version increments the existing
    counter. It then inserts the event with the client's version as its base
    version and the claimed number as its version. The events table is unique
    on (aggregate id, base version, event type), so conflicts are scoped to one
    event type: two writes of the same type on the same base collide, writes of
    different types do not. A failed insert leaves the counter advanced. */
module AggregateWriter {
  import opened Wrappers

  datatype Instruction = Instruction(
    aggregateId: string,
    event: string,
    version: int,          // the version the client builds on
    committer: string,
    data: Option<string>)  // the JSON payload, as text

  datatype CommitResponse = CommitResponse(aggregateId: string, currentVersion: int, timestamp: int)

  /** A row of the events table. */
  datatype AggregateEvent = AggregateEvent(
    aggregateId: string,
    event: string,
    baseVersion: int,
    version: int,
    timestamp: int,
    committer: string,
    data: Option<string>)

  /** The key of the events table's unique constraint. */
  datatype ConflictScope = ConflictScope(aggregateId: string, baseVersion: int, event: string)

  /** A database error as node-postgres reports it. */
  datatype DbError = DbError(code: string, message: string, detail: string)

  /** Why a write was rejected. */
  datatype WriteError =
    | Thrown(message: string)  // an `Error` the writer throws itself
    | Database(cause: DbError) // a database error passed on as it is
    | NoReturnedRow            // reading `version` of a missing result row

  const UniqueViolationCode := "23505"
  const InvalidVersionMessage := "Invalid version - numbers less than zero are not allowed."
  const ConcurrencyPrefix := "Concurrency Error: "

  /** A duplicate-key error. Its message and detail texts are Postgres's own;
      these stand-ins only name the constraint's key. */
  function DuplicateKey(detail: string): (err: DbError)
    ensures err.code == UniqueViolationCode
  {
    DbError(UniqueViolationCode, "duplicate key value violates unique constraint", detail)
  }

  /** Inserting a second counter for an aggregate. */
  function VersionRowExists(aggregateId: string): DbError {
    DuplicateKey("Key (aggregate_id)=(" + aggregateId + ") already exists.")
  }

  /** Inserting a second event of a conflict scope. */
  function ScopeViolation(row: AggregateEvent): DbError {
    DuplicateKey("Key (aggregate_id, base_version, event) of aggregate " + row.aggregateId + " already exists.")
  }

  /** The catch of writeEvent: a duplicate-key error becomes a concurrency
      error carrying the database's message and detail, any other error is
      passed on unchanged. */
  function MapInsertFailure(err: DbError): (r: WriteError)
    ensures r.Thrown? <==> err.code == UniqueViolationCode
    ensures r.Thrown? ==> r.message == ConcurrencyPrefix + err.message + " - " + err.detail
    ensures r.Thrown? ==> ConcurrencyPrefix <= r.message
    ensures !r.Thrown? ==> r == Database(err)
  {
    if err.code == UniqueViolationCode then Thrown(ConcurrencyPrefix + err.message + " - " + err.detail)
    else Database(err)
  }

  function ScopeOf(e: AggregateEvent): ConflictScope {
    ConflictScope(e.aggregateId, e.baseVersion, e.event)
  }

  predicate ScopeTaken(events: seq<AggregateEvent>, scope: ConflictScope) {
    exists i | 0 <= i < |events| :: ScopeOf(events[i]) == scope
  }

  /** The versions step without the negative guard: the number it hands out,
      or the failure it meets. */
  function ClaimedVersion(versions: map<string, int>, aggregateId: string, version: int): (r: Result<int, WriteError>)
    ensures r.Ok? <==> (version == 0 <==> aggregateId !in versions)
    ensures r.Ok? ==> r.value == if aggregateId in versions then versions[aggregateId] + 1 else 0
    ensures r.Err? ==> r.error == if aggregateId in versions then Database(VersionRowExists(aggregateId)) else NoReturnedRow
  {
    if version == 0 then
      if aggregateId in versions then Err(Database(VersionRowExists(aggregateId))) else Ok(0)
    else if aggregateId in versions then Ok(versions[aggregateId] + 1)
    else Err(NoReturnedRow)
  }

  /** The versions table after the versions step. */
  function CountersAfter(versions: map<string, int>, aggregateId: string, version: int): (r: map<string, int>)
    ensures r.Keys == versions.Keys + (if version == 0 then {aggregateId} else {})
    ensures forall id | id in versions && id != aggregateId :: r[id] == versions[id]
    ensures aggregateId in versions ==> r[aggregateId] == versions[aggregateId] + (if version == 0 then 0 else 1)
  {
    match ClaimedVersion(versions, aggregateId, version)
    case Ok(v) => versions[aggregateId := v]
    case Err(_) => versions
  }

  /** The event row a write inserts: the client's version is the base. */
  function RowOf(instr: Instruction, version: int, timestamp: int): (row: AggregateEvent)
    ensures row.baseVersion == instr.version && row.version == version
    ensures ScopeOf(row) == ConflictScope(instr.aggregateId, instr.version, instr.event)
  {
    AggregateEvent(instr.aggregateId, instr.event, instr.version, version, timestamp, instr.committer, instr.data)
  }

  // ---------------------------------------------------------------------------
  // The tables' invariant

  /** Per aggregate, later events carry greater versions. */
  ghost predicate Increasing(events: seq<AggregateEvent>) {
    forall i, j | 0 <= i < j < |events| && events[i].aggregateId == events[j].aggregateId ::
      events[i].version < events[j].version
  }

  /** No two events share a conflict scope. */
  ghost predicate ScopesUnique(events: seq<AggregateEvent>) {
    forall i, j | 0 <= i < j < |events| :: ScopeOf(events[i]) != ScopeOf(events[j])
  }

  /** What the two tables keep: counters are non-negative, every event belongs
      to an aggregate with a counter and carries a version no greater than it,
      versions increase per aggregate, and conflict scopes are unique. */
  ghost predicate Consistent(versions: map<string, int>, events: seq<AggregateEvent>) {
    && (forall id | id in versions :: versions[id] >= 0)
    && (forall i | 0 <= i < |events| ::
          events[i].aggregateId in versions && 0 <= events[i].version <= versions[events[i].aggregateId])
    && Increasing(events)
    && ScopesUnique(events)
  }

  // ---------------------------------------------------------------------------
  // Facts about the versions step

  /** The versions step succeeds exactly when version 0 meets no counter or
      another version meets one; it hands out 0 or the counter plus one. */
  lemma ClaimRule(versions: map<string, int>, aggregateId: string, version: int)
    ensures var c := ClaimedVersion(versions, aggregateId, version);
            && (c.Ok? <==> (version == 0) == (aggregateId !in versions))
            && (c.Ok? && version == 0 ==> c.value == 0)
            && (c.Ok? && version != 0 ==> c.value == versions[aggregateId] + 1)
            && (c.Ok? ==> CountersAfter(versions, aggregateId, version)[aggregateId] == c.value)
            && (c.Err? ==> CountersAfter(versions, aggregateId, version) == versions)
            && (forall other | other in versions && other != aggregateId ::
                  other in CountersAfter(versions, aggregateId, version)
                  && CountersAfter(versions, aggregateId, version)[other] == versions[other])
  {
  }

  /** A claimed version exceeds every version already committed for the
      aggregate, so it is new. */
  lemma ClaimExceedsCommitted(versions: map<string, int>, events: seq<AggregateEvent>, aggregateId: string, version: int)
    requires Consistent(versions, events)
    requires ClaimedVersion(versions, aggregateId, version).Ok?
    ensures var v := ClaimedVersion(versions, aggregateId, version).value;
            forall i | 0 <= i < |events| && events[i].aggregateId == aggregateId :: events[i].version < v
  {
  }

  lemma ClaimKeepsConsistent(versions: map<string, int>, events: seq<AggregateEvent>, aggregateId: string, version: int)
    requires Consistent(versions, events)
    ensures Consistent(CountersAfter(versions, aggregateId, version), events)
  {
    var after := CountersAfter(versions, aggregateId, version);
    ClaimRule(versions, aggregateId, version);
    forall i | 0 <= i < |events|
      ensures events[i].aggregateId in after && 0 <= events[i].version <= after[events[i].aggregateId]
    {
      assert events[i].aggregateId in versions;
    }
  }

  /** Appending the row of a fresh claim whose conflict scope is free keeps the
      invariant. */
  lemma AppendKeepsConsistent(versions: map<string, int>, events: seq<AggregateEvent>, row: AggregateEvent)
    requires Consistent(versions, events)
    requires row.aggregateId in versions && row.version == versions[row.aggregateId]
    requires forall i | 0 <= i < |events| && events[i].aggregateId == row.aggregateId :: events[i].version < row.version
    requires !ScopeTaken(events, ScopeOf(row))
    ensures Consistent(versions, events + [row])
  {
    var es := events + [row];
    forall i, j | 0 <= i < j < |es| && es[i].aggregateId == es[j].aggregateId
      ensures es[i].version < es[j].version
    {
      if j == |events| {
        assert es[i] == events[i];
      }
    }
    forall i, j | 0 <= i < j < |es| ensures ScopeOf(es[i]) != ScopeOf(es[j]) {
      if j == |events| {
        assert es[i] == events[i];
      }
    }
  }

  /** At most one event per conflict scope. */
  lemma ScopeHolderIsUnique(versions: map<string, int>, events: seq<AggregateEvent>, i: int, j: int)
    requires Consistent(versions, events)
    requires 0 <= i < |events| && 0 <= j < |events|
    requires ScopeOf(events[i]) == ScopeOf(events[j])
    ensures i == j
  {
  }

  // ---------------------------------------------------------------------------
  // The database

  class AggregateStore {
    var versions: map<string, int>
    var events: seq<AggregateEvent>

    /** An empty database (both tables truncated). */
    constructor ()
      ensures versions == map[] && events == []
      ensures Valid()
    {
      versions := map[];
      events := [];
    }

    ghost predicate Valid()
      reads this
    {
      Consistent(versions, events)
    }

    /** writeVersion: refuses a negative version, then inserts the counter at
        0 for version 0 and increments it otherwise. */
    method WriteVersion(aggregateId: string, version: int) returns (r: Result<int, WriteError>)
      modifies this`versions
      ensures version < 0 ==> r == Err(Thrown(InvalidVersionMessage)) && versions == old(versions)
      ensures version >= 0 ==>
        r == ClaimedVersion(old(versions), aggregateId, version)
        && versions == CountersAfter(old(versions), aggregateId, version)
    {
      if version < 0 {
        return Err(Thrown(InvalidVersionMessage));
      }
      if version == 0 {
        if aggregateId in versions {
          return Err(Database(VersionRowExists(aggregateId)));
        }
        versions := versions[aggregateId := version];
        r := Ok(versions[aggregateId]);
      } else {
        if aggregateId !in versions {
          return Err(NoReturnedRow);
        }
        versions := versions[aggregateId := versions[aggregateId] + 1];
        r := Ok(versions[aggregateId]);
      }
    }

    /** writeEvent: inserts the row unless its conflict scope is taken, in
        which case the duplicate-key error is mapped to a concurrency error. */
    method WriteEvent(row: AggregateEvent) returns (r: Result<CommitResponse, WriteError>)
      modifies this`events
      ensures !ScopeTaken(old(events), ScopeOf(row)) ==>
        events == old(events) + [row] && r == Ok(CommitResponse(row.aggregateId, row.version, row.timestamp))
      ensures ScopeTaken(old(events), ScopeOf(row)) ==>
        events == old(events) && r == Err(MapInsertFailure(ScopeViolation(row)))
    {
      if ScopeTaken(events, ScopeOf(row)) {
        return Err(MapInsertFailure(ScopeViolation(row)));
      }
      events := events + [row];
      r := Ok(CommitResponse(row.aggregateId, row.version, row.timestamp));
    }

    /** write: claims a version, then inserts the event built on the client's
        version. A negative version changes nothing; a failed claim writes no
        event; a refused insert leaves the claim in place. */
    method Write(instr: Instruction, now: int) returns (r: Result<CommitResponse, WriteError>)
      modifies this
      ensures instr.version < 0 ==>
        r == Err(Thrown(InvalidVersionMessage)) && versions == old(versions) && events == old(events)
      ensures instr.version >= 0 ==> versions == CountersAfter(old(versions), instr.aggregateId, instr.version)
      ensures var claim := ClaimedVersion(old(versions), instr.aggregateId, instr.version);
        instr.version >= 0 && claim.Err? ==> r == Err(claim.error) && events == old(events)
      ensures var claim := ClaimedVersion(old(versions), instr.aggregateId, instr.version);
        instr.version >= 0 && claim.Ok? ==>
          var row := RowOf(instr, claim.value, now);
          if ScopeTaken(old(events), ScopeOf(row)) then
            r == Err(MapInsertFailure(ScopeViolation(row))) && events == old(events)
          else
            r == Ok(CommitResponse(instr.aggregateId, claim.value, now)) && events == old(events) + [row]
      ensures old(Valid()) ==> Valid()
    {
      ghost var wasValid := Valid();
      var version := WriteVersion(instr.aggregateId, instr.version);
      if version.Err? {
        return Err(version.error);
      }
      var row := RowOf(instr, version.value, now);
      if wasValid {
        ClaimRule(old(versions), instr.aggregateId, instr.version);
        ClaimExceedsCommitted(old(versions), events, instr.aggregateId, instr.version);
        ClaimKeepsConsistent(old(versions), events, instr.aggregateId, instr.version);
        if !ScopeTaken(events, ScopeOf(row)) {
          AppendKeepsConsistent(versions, events, row);
        }
      }
      r := WriteEvent(row);
    }
  }
}
