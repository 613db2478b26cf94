/** The legacy repository of the aggregate variant
    (ezedr-store-postgres/src/repository.ts): `save` runs the same two steps as
    write.ts inline, against the same tables, but without the negative-version
    guard and without translating a duplicate-key error: every failure reaches
    the caller as the database reported it. */
module AggregateRepository {
  import opened Wrappers
  import opened AggregateWriter

  /** The part of save's response the model keeps: the aggregate and the
      version of the inserted row. */
  datatype SaveResponse = SaveResponse(aggregateId: string, currentVersion: int)

  /** save: the versions step (insert at 0 for version 0, increment for any
      other version, negative ones included), then the event insert. */
  method Save(db: AggregateStore, instr: Instruction, now: int) returns (r: Result<SaveResponse, WriteError>)
    modifies db
    ensures db.versions == CountersAfter(old(db.versions), instr.aggregateId, instr.version)
    ensures var claim := ClaimedVersion(old(db.versions), instr.aggregateId, instr.version);
      claim.Err? ==> r == Err(claim.error) && db.events == old(db.events)
    ensures var claim := ClaimedVersion(old(db.versions), instr.aggregateId, instr.version);
      claim.Ok? ==>
        var row := RowOf(instr, claim.value, now);
        if ScopeTaken(old(db.events), ScopeOf(row)) then
          r == Err(Database(ScopeViolation(row))) && db.events == old(db.events)
        else
          r == Ok(SaveResponse(instr.aggregateId, claim.value)) && db.events == old(db.events) + [row]
    ensures old(db.Valid()) ==> db.Valid()
  {
    ghost var wasValid := db.Valid();
    var version: int;
    if instr.version == 0 {
      if instr.aggregateId in db.versions {
        return Err(Database(VersionRowExists(instr.aggregateId)));
      }
      db.versions := db.versions[instr.aggregateId := instr.version];
      version := db.versions[instr.aggregateId];
    } else {
      if instr.aggregateId !in db.versions {
        return Err(NoReturnedRow);
      }
      db.versions := db.versions[instr.aggregateId := db.versions[instr.aggregateId] + 1];
      version := db.versions[instr.aggregateId];
    }
    assert ClaimedVersion(old(db.versions), instr.aggregateId, instr.version) == Ok(version);
    assert db.versions == CountersAfter(old(db.versions), instr.aggregateId, instr.version);
    var row := RowOf(instr, version, now);
    if wasValid {
      ClaimRule(old(db.versions), instr.aggregateId, instr.version);
      ClaimExceedsCommitted(old(db.versions), db.events, instr.aggregateId, instr.version);
      ClaimKeepsConsistent(old(db.versions), db.events, instr.aggregateId, instr.version);
      if !ScopeTaken(db.events, ScopeOf(row)) {
        AppendKeepsConsistent(db.versions, db.events, row);
      }
    }
    if ScopeTaken(db.events, ScopeOf(row)) {
      return Err(Database(ScopeViolation(row)));
    }
    db.events := db.events + [row];
    r := Ok(SaveResponse(row.aggregateId, row.version));
  }
}
