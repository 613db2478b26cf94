/** The end-to-end tests of the stream variant (ezedr-postgres/e2e), replayed
    on the model: each write scenario starts from empty tables, and each read
    scenario reads tables filled the way the test fills them. */
module StreamScenarios {
  import opened Wrappers
  import opened StreamWriter
  import opened StreamReader

  /** The event of the write tests: stream s0 of tenant t0, based on -1. */
  function TestEvent(eventId: string, baseVersion: int): SaveInstruction {
    SaveInstruction(eventId, "s0", "t0", "test-event", Some(baseVersion), "test-user", Some("{\"foo\":\"bar\"}"), Some("json"))
  }

  const S0 := StreamKey("s0", "t0")

  /** Saving to a stream that was never created is rejected and writes nothing. */
  method RejectWithoutStream() returns (r: Result<SaveResponse, StreamError>, rows: nat)
    ensures r == Err(NoSuchStream(UpdateFailedMessage)) && rows == 0
  {
    var db := new StreamStore();
    r := db.Write(TestEvent("event-id", -1), 1);
    rows := |db.events|;
  }

  /** A stream is created once, with counter -1; creating it again fails. */
  method CreateStreamTwice() returns (first: Result<InitStreamResponse, StreamError>, second: Result<InitStreamResponse, StreamError>, streamRows: nat)
    ensures first == Ok(InitStreamResponse("s0", "t0", -1))
    ensures second == Err(AlreadyExists)
    ensures streamRows == 1
  {
    var db := new StreamStore();
    first := db.InitStream(InitStreamInstruction("s0", "t0"));
    second := db.InitStream(InitStreamInstruction("s0", "t0"));
    streamRows := |db.streams|;
  }

  /** The row the first test event becomes: version 0, base -1. */
  const Row0 := RowOf(TestEvent("event-id", -1), -1, 0, 1)

  /** A created stream s0 holding the first test event. */
  method StreamWithFirstEvent() returns (db: StreamStore, r: Result<SaveResponse, StreamError>)
    ensures fresh(db)
    ensures db.events == [Row0] && db.streams == map[S0 := 0]
    ensures r == Ok(SaveResponse("event-id", "s0", "t0", 0))
  {
    db := new StreamStore();
    var stream := db.InitStream(InitStreamInstruction("s0", "t0"));
    assert db.streams == map[S0 := -1] && db.events == [];
    assert InsertAccepted([], Row0);
    r := db.Write(TestEvent("event-id", -1), 1);
  }

  /** The same stream after a second write on base -1, which is refused. */
  method StreamAfterRejection() returns (db: StreamStore, r: Result<SaveResponse, StreamError>)
    ensures fresh(db)
    ensures db.events == [Row0] && db.streams == map[S0 := 1]
    ensures r == Err(InsertRejected)
  {
    var first;
    db, first := StreamWithFirstEvent();
    assert LatestCommitted([Row0], S0) == 0;
    assert !InsertAccepted([Row0], RowOf(TestEvent("event-id", -1), -1, 1, 2));
    r := db.Write(TestEvent("event-id", -1), 2);
  }

  /** The first event of a new stream gets version 0, keeps its base version
      -1, and advances the counter by one. */
  method AddEventToStream() returns (r: Result<SaveResponse, StreamError>, rows: seq<StoredEvent>, counter: int)
    ensures r == Ok(SaveResponse("event-id", "s0", "t0", 0))
    ensures |rows| == 1 && rows[0].version == 0 && rows[0].baseVersion == -1
    ensures rows[0].committer == "test-user" && rows[0].payload == Some("{\"foo\":\"bar\"}")
    ensures counter == 0
  {
    var db;
    db, r := StreamWithFirstEvent();
    rows := db.events;
    counter := db.streams[S0];
  }

  /** The row of the write based on version 0 after the rejection: version 2. */
  const Row2 := RowOf(TestEvent("e1", 0), 0, 2, 3)

  /** A second event on the same base is rejected; the counter still moves,
      and an event on the committed version then goes in as the second row. */
  method RejectedSaveDoesNotStopFutureSaves() returns (outdated: Result<SaveResponse, StreamError>, next: Result<SaveResponse, StreamError>, rows: nat)
    ensures outdated == Err(InsertRejected)
    ensures next == Ok(SaveResponse("e1", "s0", "t0", 2))
    ensures rows == 2
  {
    var db;
    db, outdated := StreamAfterRejection();
    assert LatestCommitted([Row0], S0) == 0;
    assert InsertAccepted([Row0], Row2);
    next := db.Write(TestEvent("e1", 0), 3);
    rows := |db.events|;
  }

  /** A rejected save leaves a gap (versions 0 and 2 are committed, 1 is not);
      an event based on the gap's version is rejected. */
  method BaseInsideGapIsRejected() returns (committed: seq<int>, gapBased: Result<SaveResponse, StreamError>)
    ensures committed == [0, 2]
    ensures gapBased == Err(InsertRejected)
  {
    var db, outdated := StreamAfterRejection();
    assert LatestCommitted([Row0], S0) == 0;
    assert InsertAccepted([Row0], Row2);
    var next := db.Write(TestEvent("e1", 0), 3);
    assert db.events == [Row0, Row2] && db.streams == map[S0 := 2];
    assert LatestCommitted([Row0, Row2], S0) == 2 by {
      assert KeyOf(Row2) == S0;
    }
    assert !InsertAccepted([Row0, Row2], RowOf(TestEvent("e1", 1), 1, 3, 4));
    gapBased := db.Write(TestEvent("e1", 1), 4);
    committed := [db.events[0].version, db.events[1].version];
  }

  /** After a rejected write, readStream reports a counter beyond the last
      committed version: the refused claim is spent. */
  method CounterAheadAfterRejection() returns (info: Result<StreamInfo, ReadError>, committed: int)
    ensures info == Ok(StreamInfo("s0", "t0", 1))
    ensures committed == 0 && info.value.currentVersion > committed
  {
    var db, outdated := StreamAfterRejection();
    info := ReadStream(db.streams, "s0", "t0");
    committed := LatestCommitted(db.events, S0);
    assert committed == LatestCommitted([Row0], S0);
  }

  /** readStream reports the stored counter, and NoSuchResource for a stream
      that does not exist. */
  lemma ReadStreamInfo()
    ensures ReadStream(map[S0 := 42], "s0", "t0") == Ok(StreamInfo("s0", "t0", 42))
    ensures ReadStream(map[S0 := 42], "i-do-not-exist", "default") == Err(NoSuchResource(NotFoundMessage))
  {
  }

  // ---------------------------------------------------------------------------
  // Reading

  /** An event inserted directly, as the read tests do: version is base + 1. */
  function Inserted(eventId: string, streamId: string, eventName: string, baseVersion: int): StoredEvent {
    StoredEvent(eventId, streamId, "default", baseVersion, baseVersion + 1, eventName, "test-user", None, Some("protocol: json"), 0)
  }

  const E0 := Inserted("e0", "s0", "ORDER_WAS_CREATED", -1)
  const E1 := Inserted("e1", "s1", "ORDER_WAS_CREATED", -1)
  const E2 := Inserted("e2", "s0", "ORDER_DRINK_WAS_UPDATED", 0)
  const E3 := Inserted("e3", "s0", "ORDER_FOOD_WAS_UPDATED", 1)

  lemma ReadOneStream()
    ensures var r := ReadEvents([E0, E1, E2], "s0", "default", ReadOpts(None, None));
            r.Ok? && r.value.streamId == "s0" && |r.value.events| == 2
            && r.value.events[0].version == 0 && r.value.events[1].version == 1
  {
    var events := [E0, E1, E2];
    OfStreamCons(E0, [E1, E2], "s0", "default");
    OfStreamCons(E1, [E2], "s0", "default");
    OfStreamCons(E2, [], "s0", "default");
    assert OfStream(events, "s0", "default") == [E0, E2];
    SortOfSorted([E0, E2]);
  }

  lemma ReadFromVersionOne()
    ensures var r := ReadEvents([E0, E2], "s0", "default", ReadOpts(None, Some(1)));
            r.Ok? && |r.value.events| == 1 && r.value.events[0].version == 1
  {
    OfStreamCons(E0, [E2], "s0", "default");
    OfStreamCons(E2, [], "s0", "default");
    AtOrAfterCons(E0, [E2], 1);
    AtOrAfterCons(E2, [], 1);
    SortOfSorted([E2]);
  }

  /** Pagination, first page: limit 2 gives versions 0 and 1. */
  lemma ReadFirstPage()
    ensures var page0 := ReadEvents([E0, E2, E3], "s0", "default", ReadOpts(Some(2), None));
            page0.Ok? && |page0.value.events| == 2
            && page0.value.events[0].version == 0 && page0.value.events[1].version == 1
  {
    var events := [E0, E2, E3];
    OfStreamCons(E0, [E2, E3], "s0", "default");
    OfStreamCons(E2, [E3], "s0", "default");
    OfStreamCons(E3, [], "s0", "default");
    assert OfStream(events, "s0", "default") == events;
    SortOfSorted(events);
  }

  /** Pagination, second page: limit 2 from version 2 gives version 2 alone. */
  lemma ReadSecondPage()
    ensures var page1 := ReadEvents([E0, E2, E3], "s0", "default", ReadOpts(Some(2), Some(2)));
            page1.Ok? && |page1.value.events| == 1 && page1.value.events[0].version == 2
  {
    var events := [E0, E2, E3];
    OfStreamCons(E0, [E2, E3], "s0", "default");
    OfStreamCons(E2, [E3], "s0", "default");
    OfStreamCons(E3, [], "s0", "default");
    assert OfStream(events, "s0", "default") == events;
    AtOrAfterCons(E0, [E2, E3], 2);
    AtOrAfterCons(E2, [E3], 2);
    AtOrAfterCons(E3, [], 2);
    assert AtOrAfter(events, 2) == [E3];
    SortOfSorted([E3]);
  }
}
