/** The tests of the aggregate variant replayed on the model. The unit test of
    write.ts runs against `Write`; the end-to-end tests import the legacy
    repository (ezedr-store-postgres/src/repository.ts), so they run against
    `Save`. Every scenario starts from empty tables. */
module AggregateScenarios {
  import opened Wrappers
  import opened AggregateWriter
  import opened AggregateRepository

  const Payload := Some("{\"payload\":\"test-data\"}")

  function TestInstruction(version: int): Instruction {
    Instruction("123", "test-event", version, "test-user", Payload)
  }

  /** write refuses a negative version and touches neither table. */
  method RejectNegativeVersion() returns (r: Result<CommitResponse, WriteError>, counters: map<string, int>, rows: seq<AggregateEvent>)
    ensures r == Err(Thrown("Invalid version - numbers less than zero are not allowed."))
    ensures counters == map[] && rows == []
  {
    var db := new AggregateStore();
    r := db.Write(Instruction("123", "test-event", -1, "test-committer", Some("test")), 1);
    counters := db.versions;
    rows := db.events;
  }

  /** Version 0 creates the aggregate's counter at 0 and writes one event. */
  method SaveFirstEvent() returns (r: Result<SaveResponse, WriteError>, counters: map<string, int>, rows: seq<AggregateEvent>)
    ensures r == Ok(SaveResponse("123", 0))
    ensures counters == map["123" := 0]
    ensures |rows| == 1 && rows[0].committer == "test-user" && rows[0].data == Payload
  {
    var db := new AggregateStore();
    r := Save(db, TestInstruction(0), 1);
    counters := db.versions;
    rows := db.events;
  }

  /** A fresh aggregate "123" after the save of the test event at version 0. */
  method AggregateWithFirstEvent() returns (db: AggregateStore)
    ensures fresh(db)
    ensures db.events == [RowOf(TestInstruction(0), 0, 1)] && db.versions == map["123" := 0]
  {
    db := new AggregateStore();
    assert ClaimedVersion(map[], "123", 0) == Ok(0);
    var first := Save(db, TestInstruction(0), 1);
  }

  /** Saves at versions 0 then 1 leave the counter at 1. */
  method IncrementalVersions() returns (counter: int, rows: nat)
    ensures counter == 1 && rows == 2
  {
    var db := AggregateWithFirstEvent();
    assert ClaimedVersion(db.versions, "123", 1) == Ok(1);
    assert !ScopeTaken(db.events, ScopeOf(RowOf(TestInstruction(1), 1, 2))) by {
      assert ScopeOf(db.events[0]) != ScopeOf(RowOf(TestInstruction(1), 1, 2));
    }
    var second := Save(db, TestInstruction(1), 2);
    counter := db.versions["123"];
    rows := |db.events|;
  }

  /** Repeating version 0 fails on the existing counter, without an increment. */
  method RejectOldBaseVersion() returns (r: Result<SaveResponse, WriteError>, counter: int, rows: nat)
    ensures r == Err(Database(VersionRowExists("123")))
    ensures counter == 0 && rows == 1
  {
    var db := AggregateWithFirstEvent();
    assert ClaimedVersion(db.versions, "123", 0) == Err(Database(VersionRowExists("123")));
    r := Save(db, TestInstruction(0), 2);
    counter := db.versions["123"];
    rows := |db.events|;
  }

  /** A new aggregate cannot start at a version other than 0: the increment
      finds no counter and no event is written. */
  method RejectNewAggregateAtNonZero() returns (r: Result<SaveResponse, WriteError>, rows: nat)
    ensures r == Err(NoReturnedRow) && rows == 0
  {
    var db := new AggregateStore();
    r := Save(db, TestInstruction(1), 1);
    rows := |db.events|;
  }

  /** A rejected save does not block the next valid one: rows of versions 0
      and 1, and the counter at 1. */
  method AcceptAfterRejection() returns (rejected: Result<SaveResponse, WriteError>, versions: seq<int>, counter: int)
    ensures rejected.Err?
    ensures versions == [0, 1] && counter == 1
  {
    var db := AggregateWithFirstEvent();
    assert ClaimedVersion(db.versions, "123", 0).Err?;
    rejected := Save(db, TestInstruction(0), 2);
    assert db.versions == map["123" := 0] && db.events == [RowOf(TestInstruction(0), 0, 1)];
    assert ClaimedVersion(db.versions, "123", 1) == Ok(1);
    assert !ScopeTaken(db.events, ScopeOf(RowOf(TestInstruction(1), 1, 3))) by {
      assert ScopeOf(db.events[0]) != ScopeOf(RowOf(TestInstruction(1), 1, 3));
    }
    var valid1 := Save(db, TestInstruction(1), 3);
    assert db.events == [RowOf(TestInstruction(0), 0, 1), RowOf(TestInstruction(1), 1, 3)];
    versions := [db.events[0].version, db.events[1].version];
    counter := db.versions["123"];
  }

  const CreateOrder := Instruction("123", "ORDER_CREATED", 0, "test-user", Some("{\"drink\":\"milk\",\"food\":\"pasta\"}"))
  const DrinkValid := Instruction("123", "ORDER_DRINK_WAS_UPDATED", 1, "test-user", Some("{\"drink\":\"wine\"}"))
  const DrinkInvalid := Instruction("123", "ORDER_DRINK_WAS_UPDATED", 1, "test-user", Some("{\"drink\":\"water\"}"))
  const FoodUpdate := Instruction("123", "ORDER_FOOD_WAS_UPDATED", 1, "test-user", Some("{\"food\":\"fish\"}"))

  /** The order of the event-type test after its first two saves: the order
      created at version 0 and a drink update on base 1. */
  method OrderWithDrink() returns (db: AggregateStore)
    ensures fresh(db)
    ensures db.events == [RowOf(CreateOrder, 0, 1), RowOf(DrinkValid, 1, 2)]
    ensures db.versions == map["123" := 1]
  {
    db := new AggregateStore();
    assert ClaimedVersion(map[], "123", 0) == Ok(0);
    var created := Save(db, CreateOrder, 1);
    ghost var r0, r1 := RowOf(CreateOrder, 0, 1), RowOf(DrinkValid, 1, 2);
    assert db.events == [r0] && db.versions == map["123" := 0];
    assert ClaimedVersion(db.versions, "123", 1) == Ok(1);
    assert !ScopeTaken([r0], ScopeOf(r1)) by {
      assert ScopeOf(r0) != ScopeOf(r1);
    }
    var drink := Save(db, DrinkValid, 2);
  }

  /** The second drink update on base 1 claims version 2 and collides with
      the first drink update. */
  method OrderAfterConflict() returns (db: AggregateStore, conflict: Result<SaveResponse, WriteError>)
    ensures fresh(db)
    ensures db.events == [RowOf(CreateOrder, 0, 1), RowOf(DrinkValid, 1, 2)]
    ensures db.versions == map["123" := 2]
    ensures conflict == Err(Database(ScopeViolation(RowOf(DrinkInvalid, 2, 3))))
  {
    db := OrderWithDrink();
    ghost var row := RowOf(DrinkInvalid, 2, 3);
    assert ScopeTaken(db.events, ScopeOf(row)) by {
      assert ScopeOf(db.events[1]) == ScopeOf(row);
    }
    assert ClaimedVersion(db.versions, "123", 1) == Ok(2);
    conflict := Save(db, DrinkInvalid, 3);
  }

  /** Conflicts are scoped to the event type: a second drink update on base 1
      collides with the first, a food update on the same base does not. Three
      rows, in order, and the counter at 3 (the refused claim is spent). */
  method VersionCoupledToEventType() returns (conflict: Result<SaveResponse, WriteError>, data: seq<Option<string>>, counter: int)
    ensures conflict == Err(Database(ScopeViolation(RowOf(DrinkInvalid, 2, 3))))
    ensures conflict.error.cause.code == UniqueViolationCode
    ensures data == [CreateOrder.data, DrinkValid.data, FoodUpdate.data]
    ensures counter == 3
  {
    var db;
    db, conflict := OrderAfterConflict();
    ghost var r0, r1, r3 := RowOf(CreateOrder, 0, 1), RowOf(DrinkValid, 1, 2), RowOf(FoodUpdate, 3, 4);
    assert !ScopeTaken([r0, r1], ScopeOf(r3)) by {
      assert ScopeOf(r0) != ScopeOf(r3) && ScopeOf(r1) != ScopeOf(r3);
    }
    assert ClaimedVersion(db.versions, "123", 1) == Ok(3);
    var food := Save(db, FoodUpdate, 4);
    assert db.events == [r0, r1, r3];
    data := [db.events[0].data, db.events[1].data, db.events[2].data];
    counter := db.versions["123"];
  }

  /** The same two orders written through write. */
  method OrderWithDrinkWritten() returns (db: AggregateStore)
    ensures fresh(db)
    ensures db.events == [RowOf(CreateOrder, 0, 1), RowOf(DrinkValid, 1, 2)]
    ensures db.versions == map["123" := 1]
  {
    db := new AggregateStore();
    assert ClaimedVersion(map[], "123", 0) == Ok(0);
    var created := db.Write(CreateOrder, 1);
    ghost var r0, r1 := RowOf(CreateOrder, 0, 1), RowOf(DrinkValid, 1, 2);
    assert db.events == [r0] && db.versions == map["123" := 0];
    assert ClaimedVersion(db.versions, "123", 1) == Ok(1);
    assert !ScopeTaken([r0], ScopeOf(r1)) by {
      assert ScopeOf(r0) != ScopeOf(r1);
    }
    var drink := db.Write(DrinkValid, 2);
  }

  /** The same conflict through write is reported as a concurrency error. */
  method ConflictThroughWrite() returns (conflict: Result<CommitResponse, WriteError>)
    ensures conflict == Err(MapInsertFailure(ScopeViolation(RowOf(DrinkInvalid, 2, 3))))
    ensures conflict.error.Thrown? && "Concurrency Error: " <= conflict.error.message
  {
    var db := OrderWithDrinkWritten();
    ghost var r0, r1 := RowOf(CreateOrder, 0, 1), RowOf(DrinkValid, 1, 2);
    assert ScopeTaken([r0, r1], ScopeOf(RowOf(DrinkInvalid, 2, 3))) by {
      assert ScopeOf([r0, r1][1]) == ScopeOf(RowOf(DrinkInvalid, 2, 3));
    }
    assert ClaimedVersion(db.versions, "123", 1) == Ok(2);
    conflict := db.Write(DrinkInvalid, 3);
  }

  /** save has no negative guard: version -1 on an existing aggregate takes
      the increment branch and is stored with base version -1, where write
      refuses the same instruction. */
  method NegativeVersionDiffers() returns (saved: Result<SaveResponse, WriteError>, written: Result<CommitResponse, WriteError>, baseVersion: int)
    ensures saved == Ok(SaveResponse("123", 1)) && baseVersion == -1
    ensures written == Err(Thrown(InvalidVersionMessage))
  {
    var db := AggregateWithFirstEvent();
    assert ClaimedVersion(db.versions, "123", -1) == Ok(1);
    assert !ScopeTaken(db.events, ScopeOf(RowOf(TestInstruction(-1), 1, 2))) by {
      assert ScopeOf(db.events[0]) != ScopeOf(RowOf(TestInstruction(-1), 1, 2));
    }
    saved := Save(db, TestInstruction(-1), 2);
    assert db.events == [RowOf(TestInstruction(0), 0, 1), RowOf(TestInstruction(-1), 1, 2)];
    baseVersion := db.events[1].baseVersion;
    var other := new AggregateStore();
    written := other.Write(TestInstruction(-1), 2);
  }
}
