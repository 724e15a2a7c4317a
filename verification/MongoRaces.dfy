/** Two interleavings without any failure after which the stream documents are not what serial runs would leave. */
module MongoRaces {
  import opened MongoProtocol

  const OK := Works("u1")
  const A := NewClient("t", "d1", "u1")
  const B := NewClient("t", "d2", "u2")

  predicate FailureFree(acts: seq<Action>) {
    forall k :: 0 <= k < |acts| && acts[k].Step? ==> acts[k].o.Works?
  }

  /** Prefixing a run by one enabled action. */
  lemma Then(s: System, a: Action, acts: seq<Action>)
    requires Enabled(s, a) && Runs(Apply(s, a), acts)
    ensures Runs(s, [a] + acts) && Exec(s, [a] + acts) == Exec(Apply(s, a), acts)
  {
    assert ([a] + acts)[1..] == acts;
  }

  lemma Then2(s: System, a: Action, b: Action, acts: seq<Action>)
    requires Enabled(s, a) && Enabled(Apply(s, a), b) && Runs(Apply(Apply(s, a), b), acts)
    ensures Runs(s, [a, b] + acts) && Exec(s, [a, b] + acts) == Exec(Apply(Apply(s, a), b), acts)
  {
    Then(Apply(s, a), b, acts);
    Then(s, a, [b] + acts);
    assert [a] + ([b] + acts) == [a, b] + acts;
  }

  function Two(c: Collections, a: Client, b: Client): System {
    System(c, [a, b])
  }

  /** A pair of steps of the two clients, from one state written out to the next. */
  lemma Pair(s: System, a: Action, b: Action, s': System, acts: seq<Action>)
    requires Enabled(s, a) && Enabled(Apply(s, a), b) && Apply(Apply(s, a), b) == s' && Runs(s', acts)
    ensures Runs(s, [a, b] + acts) && Exec(s, [a, b] + acts) == Exec(s', acts)
  {
    Then2(s, a, b, acts);
  }

  const RESERVED := map["u1" := Reserved("t")]

  /** Both clients have found the stream document u1 and drawn their numbers: A the first ones, B the second. */
  const DRAWN := Two(Collections(RESERVED, map[ALL_EVENTS := 2, "t" := 2], []),
                     A.(pc := InsertEvent, streamId := "u1", seqId := 1, version := 1),
                     B.(pc := InsertEvent, streamId := "u1", seqId := 2, version := 2))

  const EVENT_A := EventDoc(1, "u1", "t", 1, "d1")
  const EVENT_B := EventDoc(2, "u1", "t", 2, "d2")

  /** The end of the race: B's snapshot, version 2, has been replaced by A's older one. */
  const ENDED := Two(Collections(map["u1" := Saved("t", "u1", 1, "d1")], map[ALL_EVENTS := 2, "t" := 2], [EVENT_B, EVENT_A]),
                     A.(pc := Done, streamId := "u1", seqId := 1, version := 1, rc := 2, stored := true),
                     B.(pc := Done, streamId := "u1", seqId := 2, version := 2, rc := 2, stored := true))

  const CREATED := Two(EMPTY.(streams := RESERVED), A.(pc := CountAll, streamId := "u1"), B)
  const COUNTED_ONE := Two(CREATED.db.(counters := map[ALL_EVENTS := 1]),
                           A.(pc := CountType, streamId := "u1", seqId := 1), B.(pc := CountAll, streamId := "u1"))
  const COUNTED_ALL := Two(CREATED.db.(counters := map[ALL_EVENTS := 2, "t" := 1]), DRAWN.clients[0],
                           B.(pc := CountType, streamId := "u1", seqId := 2))

  lemma FirstCreates() returns (acts: seq<Action>)
    ensures Runs(START, acts) && Exec(START, acts) == CREATED && FailureFree(acts)
  {
    acts := [];
    Pair(Two(EMPTY, A, B), Step(0, OK), Step(0, OK), CREATED, acts);
    acts := [Step(0, OK), Step(0, OK)] + acts;
    Pair(START, Start("t", "d1", "u1"), Start("t", "d2", "u2"), Two(EMPTY, A, B), acts);
    acts := [Start("t", "d1", "u1"), Start("t", "d2", "u2")] + acts;
  }

  lemma FirstCountsSecondFinds()
    ensures Enabled(CREATED, Step(0, OK)) && Enabled(Apply(CREATED, Step(0, OK)), Step(1, OK))
    ensures Apply(Apply(CREATED, Step(0, OK)), Step(1, OK)) == COUNTED_ONE
  {
    assert "u1" in CREATED.db.streams && HasType(CREATED.db, "t");
  }

  lemma BothCount() returns (acts: seq<Action>)
    ensures Runs(CREATED, acts) && Exec(CREATED, acts) == DRAWN && FailureFree(acts)
  {
    Then(COUNTED_ALL, Step(1, OK), []);
    acts := [Step(1, OK)] + [];
    Pair(COUNTED_ONE, Step(0, OK), Step(1, OK), COUNTED_ALL, acts);
    acts := [Step(0, OK), Step(1, OK)] + acts;
    FirstCountsSecondFinds();
    Pair(CREATED, Step(0, OK), Step(1, OK), COUNTED_ONE, acts);
    acts := [Step(0, OK), Step(1, OK)] + acts;
  }

  lemma BothSave() returns (acts: seq<Action>)
    ensures Runs(DRAWN, acts) && Exec(DRAWN, acts) == ENDED && FailureFree(acts)
  {
    var s1 := Two(Collections(map["u1" := Saved("t", "u1", 2, "d2")], DRAWN.db.counters, [EVENT_B]), DRAWN.clients[0], ENDED.clients[1]);
    acts := [];
    Pair(s1, Step(0, OK), Step(0, OK), ENDED, acts);
    acts := [Step(0, OK), Step(0, OK)] + acts;
    Pair(DRAWN, Step(1, OK), Step(1, OK), s1, acts);
    acts := [Step(1, OK), Step(1, OK)] + acts;
  }

  lemma {:induction false} RunsConcat(s: System, a: seq<Action>, b: seq<Action>)
    requires Runs(s, a) && Runs(Exec(s, a), b)
    ensures Runs(s, a + b) && Exec(s, a + b) == Exec(Exec(s, a), b)
    decreases a
  {
    if a == [] {
      assert a + b == b;
    } else {
      assert (a + b)[1..] == a[1..] + b;
      RunsConcat(Apply(s, a[0]), a[1..], b);
    }
  }

  /** Without seriality a snapshot may stay behind its stream: a failure-free run of two clients ends with both done,
      a stored event of version 2, and a stream document that carries version 1. */
  lemma SnapshotMayBeStale()
    ensures exists acts :: Runs(START, acts) && FailureFree(acts) && Exec(START, acts) == ENDED
    ensures ENDED.db.streams["u1"].version == 1 && EVENT_B in ENDED.db.events && EVENT_B.version == 2
  {
    var first := FirstCreates();
    var second := BothCount();
    var third := BothSave();
    RunsConcat(CREATED, second, third);
    RunsConcat(START, first, second + third);
    assert FailureFree(first + (second + third));
  }

  const TWO_STREAMS := map["u1" := Reserved("t"), "u2" := Reserved("t")]

  /** Nor does a type keep to one stream: two clients that both find none each create one. */
  lemma TypeMayHaveTwoStreams()
    ensures exists acts :: Runs(START, acts) && FailureFree(acts) && Exec(START, acts).db.streams == TWO_STREAMS
  {
    var s0, s1 := Two(EMPTY, A, B), Two(EMPTY, A.(pc := Create), B.(pc := Create));
    var s2 := Two(EMPTY.(streams := TWO_STREAMS), A.(pc := CountAll, streamId := "u1"), B.(pc := CountAll, streamId := "u2"));
    var acts := [];
    Pair(s1, Step(0, OK), Step(1, OK), s2, acts);
    acts := [Step(0, OK), Step(1, OK)] + acts;
    Pair(s0, Step(0, OK), Step(1, OK), s1, acts);
    acts := [Step(0, OK), Step(1, OK)] + acts;
    Pair(START, Start("t", "d1", "u1"), Start("t", "d2", "u2"), s0, acts);
    acts := [Start("t", "d1", "u1"), Start("t", "d2", "u2")] + acts;
    assert FailureFree(acts);
  }

  const UNNAMED := map["u1" := Reserved("t"), "" := Saved("t", "", 1, "d2")]

  lemma FailedFindGoesOn()
    ensures var b := B.(pc := InsertEvent, seqId := 1, version := 1);
      exists acts :: Runs(CREATED, acts)
        && Exec(CREATED, acts) == Two(Collections(RESERVED, map[ALL_EVENTS := 1, "t" := 1], []), CREATED.clients[0], b)
  {
    var a := CREATED.clients[0];
    var s1 := Two(CREATED.db, a, B.(pc := CountAll));
    var s2 := Two(Collections(RESERVED, map[ALL_EVENTS := 1], []), a, B.(pc := CountType, seqId := 1));
    var s3 := Two(Collections(RESERVED, map[ALL_EVENTS := 1, "t" := 1], []), a, B.(pc := InsertEvent, seqId := 1, version := 1));
    Then(s2, Step(1, OK), []);
    assert Apply(s2, Step(1, OK)) == s3;
    Pair(CREATED, Step(1, Fails), Step(1, OK), s2, [Step(1, OK)] + []);
    assert Exec(CREATED, [Step(1, Fails), Step(1, OK)] + ([Step(1, OK)] + [])) == s3;
  }

  /** One failing find is enough for a second stream document, under the empty id. */
  lemma FailedFindMayDouble()
    ensures exists acts :: Runs(START, acts) && Exec(START, acts).db.streams == UNNAMED
  {
    var first := FirstCreates();
    FailedFindGoesOn();
    var a, b := CREATED.clients[0], B.(pc := InsertEvent, seqId := 1, version := 1);
    var s3 := Two(Collections(RESERVED, map[ALL_EVENTS := 1, "t" := 1], []), a, b);
    var second :| Runs(CREATED, second) && Exec(CREATED, second) == s3;
    var s4 := Two(Collections(UNNAMED, s3.db.counters, [EventOf(b)]), a, b.(pc := Done, rc := 2, stored := true));
    assert RESERVED["" := DocOf(b)] == UNNAMED;
    Pair(s3, Step(1, OK), Step(1, OK), s4, []);
    RunsConcat(CREATED, second, [Step(1, OK), Step(1, OK)] + []);
    RunsConcat(START, first, second + ([Step(1, OK), Step(1, OK)] + []));
  }
}
