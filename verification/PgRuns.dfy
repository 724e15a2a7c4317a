/** Every run of Append, Reset and Save with other clients at work: no event is lost, and when one is stored twice. */
module PgRuns {
  import opened Wrappers
  import opened GroupBy
  import opened Events
  import opened AppendProtocol
  import opened AppendRuns
  import opened PgEventStore
  import opened PgSaves

  // ---------------------------------------------------------------- every run of a client among others

  datatype Op = DoAppend(e: Event) | DoReset | DoSave(turns: string -> Turn) | DoOther(call: Call)

  datatype Client = Client(store: Store, pending: seq<Event>)

  const NEW_CLIENT := Client(Store(NO_TABLES, 1, 0), [])

  ghost function Do(c: Client, op: Op): Client {
    match op
    case DoAppend(e) => c.(pending := c.pending + [e])
    case DoReset => c.(pending := [])
    case DoSave(turns) =>
      var r := SaveResult(c.store, c.pending, turns);
      Client(r.store, if r.code == SUCCEEDED then [] else c.pending)
    case DoOther(call) => c.(store := Handled(c.store, call))
  }

  ghost function DoAll(ops: seq<Op>): Client {
    if ops == [] then NEW_CLIENT else Do(DoAll(ops[..|ops| - 1]), ops[|ops| - 1])
  }

  ghost predicate ForeignOp(op: Op) {
    (op.DoSave? ==> ForeignTurns(op.turns)) && (op.DoOther? ==> Foreign(op.call))
  }

  /** The others' event ids are not this client's. */
  ghost predicate ForeignOps(ops: seq<Op>) {
    forall k :: 0 <= k < |ops| ==> ForeignOp(ops[k])
  }

  lemma {:induction false} RunKeepsIdsBelow(ops: seq<Op>)
    requires ForeignOps(ops)
    ensures IdsBelow(DoAll(ops).store.tables, DoAll(ops).store.nextId)
  {
    if ops != [] {
      var c, op := DoAll(ops[..|ops| - 1]), ops[|ops| - 1];
      RunKeepsIdsBelow(ops[..|ops| - 1]);
      assert ForeignOp(op);
      match op
      case DoSave(turns) =>
        PendingGroupsExist(c.pending);
        SendAllKeepsIdsBelow(c.store, c.pending, Keys(c.pending, StreamIdOf), turns, []);
      case DoOther(call) =>
        OthersKeepIdsBelow(c.store, [call]);
        assert [call][..0] == [];
      case _ =>
    }
  }

  /** In every run the database accepts a call of this client, whatever others do just before it, exactly when the
      numbers it needs fit into 32 bits. */
  lemma SaveCallsAreAcceptableIff(ops: seq<Op>, others: seq<Call>, stream: string, group: seq<Event>)
    requires ForeignOps(ops) && AllForeign(others) && group != []
    ensures var st := OthersRun(DoAll(ops).store, others);
      Acceptable(st.tables, st.nextSeq, CallOf(stream, group, st.nextId)) <==> Fits(st, stream, |group|)
  {
    RunKeepsIdsBelow(ops);
    OthersKeepIdsBelow(DoAll(ops).store, others);
    CallFitsIff(OthersRun(DoAll(ops).store, others), stream, group);
  }

  ghost function Appended(ops: seq<Op>, p: Payload): nat {
    if ops == [] then 0
    else
      var op := ops[|ops| - 1];
      Appended(ops[..|ops| - 1], p) + if op.DoAppend? && PayloadOf(op.e) == p then 1 else 0
  }

  /** What resets took out of the buffer. */
  ghost function Discarded(ops: seq<Op>, p: Payload): nat {
    if ops == [] then 0
    else
      var init := ops[..|ops| - 1];
      Discarded(init, p) + if ops[|ops| - 1].DoReset? then Buffered(DoAll(init).pending, p) else 0
  }

  /** The save found the payload in the buffer and its call for the payload's stream took effect. */
  ghost predicate Stores(c: Client, op: Op, p: Payload) {
    op.DoSave? && Commits(c.store, c.pending, op.turns, p.stream)
  }

  /** It did so although some call of the save failed: the payload will be sent again. */
  ghost predicate StoresInVain(c: Client, op: Op, p: Payload) {
    Stores(c, op, p) && !AllWork(c.store, c.pending, op.turns)
  }

  ghost function StoredBy(ops: seq<Op>, p: Payload): nat {
    if ops == [] then 0
    else
      var init, c := ops[..|ops| - 1], DoAll(ops[..|ops| - 1]);
      StoredBy(init, p) + if Stores(c, ops[|ops| - 1], p) then Buffered(c.pending, p) else 0
  }

  ghost function StoredInVain(ops: seq<Op>, p: Payload): nat {
    if ops == [] then 0
    else
      var init, c := ops[..|ops| - 1], DoAll(ops[..|ops| - 1]);
      StoredInVain(init, p) + if StoresInVain(c, ops[|ops| - 1], p) then Buffered(c.pending, p) else 0
  }

  /** The copies of an appended event are exactly those stored by the saves whose call for its stream took effect while
      it was buffered. */
  lemma {:induction false} CopiesAreCommittedAttempts(ops: seq<Op>, p: Payload)
    requires ForeignOps(ops)
    ensures Copies(DoAll(ops).store.tables.events, p) == StoredBy(ops, p)
  {
    if ops != [] {
      var init, op := ops[..|ops| - 1], ops[|ops| - 1];
      var c := DoAll(init);
      CopiesAreCommittedAttempts(init, p);
      assert ForeignOp(op);
      match op
      case DoSave(turns) =>
        RunKeepsIdsBelow(init);
        SaveStores(c.store, c.pending, turns, p);
      case DoOther(call) =>
        ForeignStoresNone(c.store, call, p);
      case _ =>
    }
  }

  /** The stream of a buffered event is in the buffer, so a save in which every call works stores it. */
  lemma AllWorkCommits(st: Store, pending: seq<Event>, turns: string -> Turn, p: Payload)
    requires AllWork(st, pending, turns) && Buffered(pending, p) > 0
    ensures Commits(st, pending, turns, p.stream)
  {
    PendingGroupsExist(pending);
    var keys := Keys(pending, StreamIdOf);
    BufferedHasKey(pending, p);
    var i :| 0 <= i < |keys| && keys[i] == p.stream;
    assert Works(st, pending, keys, turns, i);
    assert WorksUpTo(st, pending, keys, turns, i);
    assert TakesEffect(st, pending, keys, turns, i);
  }

  lemma BufferedHasKey(pending: seq<Event>, p: Payload)
    ensures p.stream in Keys(pending, StreamIdOf) || Buffered(pending, p) == 0
  {
    BufferedOfStream(pending, p.stream, p);
    if p.stream !in Keys(pending, StreamIdOf) {
      NoElementsUnderNewKey(pending, StreamIdOf, p.stream);
    }
  }

  /** What one save does to the balance of a payload. */
  lemma SaveBalance(c: Client, turns: string -> Turn, p: Payload)
    requires IdsBelow(c.store.tables, c.store.nextId) && ForeignTurns(turns)
    ensures var c' := Do(c, DoSave(turns));
      Copies(c'.store.tables.events, p) + Buffered(c'.pending, p)
      == Copies(c.store.tables.events, p) + Buffered(c.pending, p)
         + if StoresInVain(c, DoSave(turns), p) then Buffered(c.pending, p) else 0
  {
    SaveStores(c.store, c.pending, turns, p);
    SaveSucceedsIff(c.store, c.pending, turns);
    if AllWork(c.store, c.pending, turns) && Buffered(c.pending, p) > 0 {
      AllWorkCommits(c.store, c.pending, turns, p);
    }
  }

  /** What is stored, still buffered, or discarded is what was appended and what failing saves had stored. */
  ghost predicate Balanced(ops: seq<Op>, c: Client, p: Payload) {
    Copies(c.store.tables.events, p) + Buffered(c.pending, p) + Discarded(ops, p) == Appended(ops, p) + StoredInVain(ops, p)
  }

  /** Conservation, among any other clients: every event ever appended is still buffered, was discarded by a reset, or
      was stored once by the save that succeeded; the surplus is exactly what failing saves had stored. */
  lemma {:induction false} Conservation(ops: seq<Op>, p: Payload)
    requires ForeignOps(ops)
    ensures Balanced(ops, DoAll(ops), p)
  {
    if ops != [] {
      var init, op := ops[..|ops| - 1], ops[|ops| - 1];
      var c := DoAll(init);
      Conservation(init, p);
      assert ForeignOp(op);
      match op
      case DoAppend(e) =>
        assert (c.pending + [e])[..|c.pending|] == c.pending;
      case DoReset =>
      case DoSave(turns) =>
        RunKeepsIdsBelow(init);
        SaveBalance(c, turns, p);
      case DoOther(call) =>
        ForeignStoresNone(c.store, call, p);
    }
  }

  /** Operation k is a save that stored the buffered payload in vain. */
  ghost predicate InVainAt(c: Client, op: Op, p: Payload) {
    Buffered(c.pending, p) > 0 && StoresInVain(c, op, p)
  }

  ghost predicate NeverInVain(ops: seq<Op>, p: Payload) {
    forall k :: 0 <= k < |ops| ==> !InVainAt(DoAll(ops[..k]), ops[k], p)
  }

  lemma InVainNext(ops: seq<Op>, init: seq<Op>, op: Op, p: Payload)
    requires ops == init + [op]
    ensures StoredInVain(ops, p) == StoredInVain(init, p) + if InVainAt(DoAll(init), op, p) then Buffered(DoAll(init).pending, p) else 0
    ensures InVainAt(DoAll(init), op, p) ==> Buffered(DoAll(init).pending, p) > 0
  {
    assert ops[..|ops| - 1] == init;
  }

  lemma VainStep(ops: seq<Op>, init: seq<Op>, op: Op, p: Payload)
    requires ops == init + [op] && (StoredInVain(init, p) == 0 <==> NeverInVain(init, p))
    ensures StoredInVain(ops, p) == 0 <==> NeverInVain(ops, p)
  {
    NeverInVainStep(ops, init, op, p);
    InVainNext(ops, init, op, p);
  }

  lemma {:induction false} NothingInVainIff(ops: seq<Op>, p: Payload)
    ensures StoredInVain(ops, p) == 0 <==> NeverInVain(ops, p)
  {
    if ops != [] {
      var init, op := ops[..|ops| - 1], ops[|ops| - 1];
      assert ops == init + [op];
      NothingInVainIff(init, p);
      VainStep(ops, init, op, p);
    }
  }

  lemma NeverInVainStep(ops: seq<Op>, init: seq<Op>, op: Op, p: Payload)
    requires ops == init + [op]
    ensures NeverInVain(ops, p) <==> NeverInVain(init, p) && !InVainAt(DoAll(init), op, p)
  {
    assert ops[..|init|] == init;
    forall k | 0 <= k < |init| ensures ops[..k] == init[..k] && ops[k] == init[k] {
    }
  }

  /** Hence, for an event appended once, never discarded and no longer buffered: at least one copy, and exactly one if
      and only if, in every save that found it in the buffer, either every call was answered and fitted, or the call
      for its stream did not take effect because it failed, did not fit, or came after one that did. */
  lemma StoredExactlyOnceIff(ops: seq<Op>, p: Payload)
    requires ForeignOps(ops)
    requires Appended(ops, p) == 1 && Discarded(ops, p) == 0 && Buffered(DoAll(ops).pending, p) == 0
    ensures var copies := Copies(DoAll(ops).store.tables.events, p);
      copies >= 1 && (copies == 1 <==> NeverInVain(ops, p))
  {
    Conservation(ops, p);
    NothingInVainIff(ops, p);
  }

  // ---------------------------------------------------------------- a run that stores an event twice

  const EVENT_A := Event(0, "", "a", "t", 0, Json(None, "{}"), 0)
  const EVENT_B := Event(0, "", "b", "t", 0, Json(None, "{}"), 0)
  const BOTH := [EVENT_A, EVENT_B]

  /** The call for stream b never reaches the database. */
  function SecondFails(): string -> Turn {
    stream => Turn([], if stream == "b" then Failed(ConnectionError, 0) else Answered)
  }

  function NoneFails(): string -> Turn {
    stream => Turn([], Answered)
  }

  const TWICE := [DoAppend(EVENT_A), DoAppend(EVENT_B), DoSave(SecondFails()), DoSave(NoneFails())]

  lemma BothKeys()
    ensures Keys(BOTH, StreamIdOf) == ["a", "b"]
    ensures Select(BOTH, StreamIdOf, "a") == [EVENT_A] && Select(BOTH, StreamIdOf, "b") == [EVENT_B]
  {
    var init := BOTH[..1];
    assert init == [EVENT_A] && init[..0] == [];
    assert Keys(init, StreamIdOf) == ["a"];
    assert !Less("b", "a") && ["a"][1..] == [];
    assert GroupBy.Insert(["a"], "b") == ["a"] + GroupBy.Insert([], "b");
    assert Keys(BOTH, StreamIdOf) == GroupBy.Insert(Keys(init, StreamIdOf), "b");
    assert Select(init, StreamIdOf, "a") == [EVENT_A] && Select(init, StreamIdOf, "b") == [];
  }

  /** The first save stores a and stops at b. */
  lemma FirstStops(st: Store)
    requires IdsBelow(st.tables, st.nextId) && st.nextSeq <= 10 && VersionOf(st.tables, "a") <= 10
    ensures var c := Client(st, BOTH);
      StoresInVain(c, DoSave(SecondFails()), PayloadOf(EVENT_A)) && Do(c, DoSave(SecondFails())).pending == BOTH
  {
    BothKeys();
    PendingGroupsExist(BOTH);
    var turns := SecondFails();
    UndisturbedCommitIff(st, BOTH, turns, 0);
    CommittedIff(st, BOTH, turns, "a");
    SaveSucceedsIff(st, BOTH, turns);
    assert !Works(st, BOTH, ["a", "b"], turns, 1);
  }

  /** The second one succeeds. */
  lemma SecondSucceeds(st: Store)
    requires IdsBelow(st.tables, st.nextId) && st.nextSeq <= 10 && VersionOf(st.tables, "a") <= 10 && VersionOf(st.tables, "b") <= 10
    ensures Do(Client(st, BOTH), DoSave(NoneFails())).pending == [] && AllWork(st, BOTH, NoneFails())
  {
    BothKeys();
    PendingGroupsExist(BOTH);
    var keys, turns := Keys(BOTH, StreamIdOf), NoneFails();
    KeysAscend(BOTH, StreamIdOf);
    assert SizeUpTo(BOTH, keys, 0) == 0 && SizeUpTo(BOTH, keys, 1) == 1;
    UndisturbedWorks(st, BOTH, keys, turns, 2);
    assert FitsUpTo(st, BOTH, keys, turns, 2);
    SaveSucceedsIff(st, BOTH, turns);
  }

  /** Numbers stay small when one call is made. */
  lemma FirstLeaves(st: Store)
    requires st == NEW_CLIENT.store
    ensures var st' := SaveResult(st, BOTH, SecondFails()).store;
      st'.nextSeq <= 10 && VersionOf(st'.tables, "a") <= 10 && VersionOf(st'.tables, "b") <= 10
  {
    BothKeys();
    PendingGroupsExist(BOTH);
    var turns := SecondFails();
    var r := SendOne(st, "a", [EVENT_A], turns("a"));
    assert ["a", "b"][1..] == ["b"];
    assert SaveResult(st, BOTH, turns) == SendAll(st, BOTH, ["a", "b"], turns, []);
  }

  lemma OneMore(ops: seq<Op>, op: Op, p: Payload)
    ensures var c := DoAll(ops); var all := ops + [op];
      && DoAll(all) == Do(c, op)
      && Appended(all, p) == Appended(ops, p) + (if op.DoAppend? && PayloadOf(op.e) == p then 1 else 0)
      && Discarded(all, p) == Discarded(ops, p) + (if op.DoReset? then Buffered(c.pending, p) else 0)
      && StoredInVain(all, p) == StoredInVain(ops, p) + (if StoresInVain(c, op, p) then Buffered(c.pending, p) else 0)
  {
    assert (ops + [op])[..|ops|] == ops;
  }

  const APPENDED := [DoAppend(EVENT_A), DoAppend(EVENT_B)]

  lemma BothAppended()
    ensures DoAll(APPENDED) == Client(NEW_CLIENT.store, BOTH)
    ensures Appended(APPENDED, PayloadOf(EVENT_A)) == 1 && Discarded(APPENDED, PayloadOf(EVENT_A)) == 0
    ensures StoredInVain(APPENDED, PayloadOf(EVENT_A)) == 0 && Buffered(BOTH, PayloadOf(EVENT_A)) == 1
  {
    var p := PayloadOf(EVENT_A);
    OneMore([], DoAppend(EVENT_A), p);
    OneMore([DoAppend(EVENT_A)], DoAppend(EVENT_B), p);
    assert [] + [DoAppend(EVENT_A)] == [DoAppend(EVENT_A)];
    assert APPENDED == [DoAppend(EVENT_A)] + [DoAppend(EVENT_B)];
    assert [] + [EVENT_A] == [EVENT_A] && [EVENT_A][..0] == [] && BOTH[..1] == [EVENT_A];
    assert Buffered([EVENT_A], p) == Buffered([], p) + 1;
    assert PayloadOf(EVENT_B) != p;
  }

  ghost predicate AfterFirst(ops: seq<Op>, c: Client, p: Payload) {
    && c == Client(SaveResult(NEW_CLIENT.store, BOTH, SecondFails()).store, BOTH)
    && Appended(ops, p) == 1 && Discarded(ops, p) == 0 && StoredInVain(ops, p) == 1
  }

  lemma FirstSave()
    ensures AfterFirst(APPENDED + [DoSave(SecondFails())], DoAll(APPENDED + [DoSave(SecondFails())]), PayloadOf(EVENT_A))
  {
    BothAppended();
    OneMore(APPENDED, DoSave(SecondFails()), PayloadOf(EVENT_A));
    FirstStops(NEW_CLIENT.store);
  }

  lemma SecondSave(ops: seq<Op>)
    requires ops == APPENDED + [DoSave(SecondFails())]
    ensures var p := PayloadOf(EVENT_A); var all := ops + [DoSave(NoneFails())];
      DoAll(all).pending == [] && Appended(all, p) == 1 && Discarded(all, p) == 0 && StoredInVain(all, p) == 1
  {
    FirstSave();
    FirstLeaves(NEW_CLIENT.store);
    RunKeepsIdsBelow(ops);
    SecondSucceeds(DoAll(ops).store);
    OneMore(ops, DoSave(NoneFails()), PayloadOf(EVENT_A));
  }

  /** One failed call is enough: a is stored by the save that stops at b, and again by the next one. */
  lemma StoredTwice()
    ensures ForeignOps(TWICE) && Appended(TWICE, PayloadOf(EVENT_A)) == 1 && Discarded(TWICE, PayloadOf(EVENT_A)) == 0
    ensures DoAll(TWICE).pending == [] && Copies(DoAll(TWICE).store.tables.events, PayloadOf(EVENT_A)) == 2
  {
    NobodyElse();
    SecondSave(APPENDED + [DoSave(SecondFails())]);
    assert TWICE == APPENDED + [DoSave(SecondFails())] + [DoSave(NoneFails())];
    CopiesBalance(TWICE, PayloadOf(EVENT_A));
  }

  lemma NobodyElse()
    ensures ForeignOps(TWICE)
  {
  }

  lemma CopiesBalance(ops: seq<Op>, p: Payload)
    requires ForeignOps(ops) && DoAll(ops).pending == []
    ensures Copies(DoAll(ops).store.tables.events, p) + Discarded(ops, p) == Appended(ops, p) + StoredInVain(ops, p)
  {
    Conservation(ops, p);
  }
}
