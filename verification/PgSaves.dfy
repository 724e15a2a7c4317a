/**
 One Save among other clients: which of its calls take effect, told by what the calls meet, and what they store, in
 which order.
 */
module PgSaves {
  import opened GroupBy
  import opened Events
  import opened AppendProtocol
  import opened AppendRuns
  import opened PgEventStore

  // ---------------------------------------------------------------- when a call of Save takes effect

  /** The store before call i of a Save if the calls before it leave it running. */
  ghost function Ahead(st: Store, pending: seq<Event>, keys: seq<string>, turns: string -> Turn, i: nat): Store
    requires GroupsExist(pending, keys) && i <= |keys|
    decreases i
  {
    if i == 0 then st
    else Ahead(SendOne(st, keys[0], Select(pending, StreamIdOf, keys[0]), turns(keys[0])).store, pending, keys[1..], turns, i - 1)
  }

  /** The numbers of call i fit when its turn comes. */
  ghost predicate HasRoom(st: Store, pending: seq<Event>, keys: seq<string>, turns: string -> Turn, i: nat)
    requires GroupsExist(pending, keys) && i < |keys|
  {
    Fits(OthersRun(Ahead(st, pending, keys, turns, i), turns(keys[i]).others), keys[i], |Select(pending, StreamIdOf, keys[i])|)
  }

  /** Call i is answered without an error. */
  ghost predicate Works(st: Store, pending: seq<Event>, keys: seq<string>, turns: string -> Turn, i: nat)
    requires GroupsExist(pending, keys) && i < |keys|
  {
    turns(keys[i]).fate.Answered? && HasRoom(st, pending, keys, turns, i)
  }

  ghost predicate WorksUpTo(st: Store, pending: seq<Event>, keys: seq<string>, turns: string -> Turn, n: nat)
    requires GroupsExist(pending, keys) && n <= |keys|
  {
    forall j :: 0 <= j < n ==> Works(st, pending, keys, turns, j)
  }

  /** Every stream before stream i is answered without an error, and the call for stream i does not fail before it
      reaches the database, where its numbers fit. */
  ghost predicate TakesEffect(st: Store, pending: seq<Event>, keys: seq<string>, turns: string -> Turn, i: nat)
    requires GroupsExist(pending, keys) && i < |keys|
  {
    WorksUpTo(st, pending, keys, turns, i) && !turns(keys[i]).fate.Failed? && HasRoom(st, pending, keys, turns, i)
  }

  lemma SendIff(st: Store, stream: string, group: seq<Event>, turn: Turn)
    requires group != [] && IdsBelow(st.tables, st.nextId) && AllForeign(turn.others)
    ensures var r := SendOne(st, stream, group, turn);
      && (r.committed <==> !turn.fate.Failed? && Fits(OthersRun(st, turn.others), stream, |group|))
      && (r.stop.None? <==> turn.fate.Answered? && Fits(OthersRun(st, turn.others), stream, |group|))
      && (r.stop.None? ==> r.committed)
  {
    OthersKeepIdsBelow(st, turn.others);
    CallFitsIff(OthersRun(st, turn.others), stream, group);
  }

  /** The committed streams are the ones sent before Save stopped, perhaps with the one it stopped at. */
  lemma {:induction false} CommittedIsPrefix(st: Store, pending: seq<Event>, keys: seq<string>, turns: string -> Turn, done: seq<string>)
    requires GroupsExist(pending, keys)
    ensures var r := SendAll(st, pending, keys, turns, done);
      && done <= r.committed <= done + keys
      && (r.code == SUCCEEDED ==> r.committed == done + keys)
    decreases keys
  {
    if keys != [] {
      var group := Select(pending, StreamIdOf, keys[0]);
      var r := SendOne(st, keys[0], group, turns(keys[0]));
      FirstOf(done, keys);
      if r.stop.Some? {
        StopIsNotSuccess(st, keys[0], group, turns(keys[0]));
      } else {
        CommittedIsPrefix(r.store, pending, keys[1..], turns, done + [keys[0]]);
        PrefixFurther(done, keys, SendAll(r.store, pending, keys[1..], turns, done + [keys[0]]).committed);
      }
    }
  }

  lemma FirstOf(done: seq<string>, keys: seq<string>)
    requires keys != []
    ensures done + keys == (done + [keys[0]]) + keys[1..] && done <= done + [keys[0]] <= done + keys
  {
  }

  lemma PrefixFurther(done: seq<string>, keys: seq<string>, committed: seq<string>)
    requires keys != [] && done + [keys[0]] <= committed <= (done + [keys[0]]) + keys[1..]
    ensures done <= committed <= done + keys
  {
    FirstOf(done, keys);
  }

  lemma PrefixHolds(done: seq<string>, all: seq<string>, x: string)
    requires done <= all && x in done
    ensures x in all
  {
    var k :| 0 <= k < |done| && done[k] == x;
    assert all[k] == x;
  }

  /** Call i of the streams left is call i + 1 of all. */
  lemma WorksLater(st: Store, pending: seq<Event>, keys: seq<string>, turns: string -> Turn, i: nat)
    requires GroupsExist(pending, keys) && i + 1 < |keys|
    ensures var st' := SendOne(st, keys[0], Select(pending, StreamIdOf, keys[0]), turns(keys[0])).store;
      && (HasRoom(st', pending, keys[1..], turns, i) <==> HasRoom(st, pending, keys, turns, i + 1))
      && (Works(st', pending, keys[1..], turns, i) <==> Works(st, pending, keys, turns, i + 1))
  {
    assert keys[1..][i] == keys[i + 1];
  }

  lemma WorksUpToLater(st: Store, pending: seq<Event>, keys: seq<string>, turns: string -> Turn, n: nat)
    requires GroupsExist(pending, keys) && n < |keys|
    ensures var st' := SendOne(st, keys[0], Select(pending, StreamIdOf, keys[0]), turns(keys[0])).store;
      WorksUpTo(st, pending, keys, turns, n + 1) <==> Works(st, pending, keys, turns, 0) && WorksUpTo(st', pending, keys[1..], turns, n)
  {
    var st' := SendOne(st, keys[0], Select(pending, StreamIdOf, keys[0]), turns(keys[0])).store;
    forall j | 0 <= j < n ensures Works(st', pending, keys[1..], turns, j) <==> Works(st, pending, keys, turns, j + 1) {
      WorksLater(st, pending, keys, turns, j);
    }
    if Works(st, pending, keys, turns, 0) && WorksUpTo(st', pending, keys[1..], turns, n) {
      forall j | 0 <= j < n + 1 ensures Works(st, pending, keys, turns, j) {
        if j > 0 {
          assert Works(st', pending, keys[1..], turns, j - 1);
        }
      }
    }
  }

  lemma FirstSentIff(st: Store, pending: seq<Event>, keys: seq<string>, turns: string -> Turn, done: seq<string>)
    requires GroupsExist(pending, keys) && IdsBelow(st.tables, st.nextId) && ForeignTurns(turns)
    requires keys != [] && keys[0] !in done
    ensures keys[0] in SendAll(st, pending, keys, turns, done).committed <==> TakesEffect(st, pending, keys, turns, 0)
  {
    var group := Select(pending, StreamIdOf, keys[0]);
    var r := SendOne(st, keys[0], group, turns(keys[0]));
    SendIff(st, keys[0], group, turns(keys[0]));
    if r.stop.None? {
      CommittedIsPrefix(r.store, pending, keys[1..], turns, done + [keys[0]]);
      PrefixHolds(done + [keys[0]], SendAll(r.store, pending, keys[1..], turns, done + [keys[0]]).committed, keys[0]);
    }
  }

  lemma LaterTakesEffect(st: Store, pending: seq<Event>, keys: seq<string>, turns: string -> Turn, i: nat)
    requires GroupsExist(pending, keys) && i + 1 < |keys|
    ensures var st' := SendOne(st, keys[0], Select(pending, StreamIdOf, keys[0]), turns(keys[0])).store;
      TakesEffect(st, pending, keys, turns, i + 1) <==> Works(st, pending, keys, turns, 0) && TakesEffect(st', pending, keys[1..], turns, i)
  {
    WorksUpToLater(st, pending, keys, turns, i);
    WorksLater(st, pending, keys, turns, i);
  }

  /** From any point of a Save on: which calls take effect. */
  lemma {:induction false} SentIff(st: Store, pending: seq<Event>, keys: seq<string>, turns: string -> Turn, done: seq<string>, i: nat)
    requires GroupsExist(pending, keys) && Ascending(keys) && IdsBelow(st.tables, st.nextId) && ForeignTurns(turns)
    requires i < |keys| && keys[i] !in done
    ensures keys[i] in SendAll(st, pending, keys, turns, done).committed <==> TakesEffect(st, pending, keys, turns, i)
    decreases keys
  {
    if i == 0 {
      FirstSentIff(st, pending, keys, turns, done);
    } else {
      var group := Select(pending, StreamIdOf, keys[0]);
      var r := SendOne(st, keys[0], group, turns(keys[0]));
      SendIff(st, keys[0], group, turns(keys[0]));
      LaterKeysAllDiffer(keys);
      LaterTakesEffect(st, pending, keys, turns, i - 1);
      if r.stop.None? {
        SendKeepsIdsBelow(st, keys[0], group, turns(keys[0]));
        SentIff(r.store, pending, keys[1..], turns, done + [keys[0]], i - 1);
      }
    }
  }

  lemma {:induction false} SucceedsIff(st: Store, pending: seq<Event>, keys: seq<string>, turns: string -> Turn, done: seq<string>)
    requires GroupsExist(pending, keys) && IdsBelow(st.tables, st.nextId) && ForeignTurns(turns)
    ensures SendAll(st, pending, keys, turns, done).code == SUCCEEDED <==> WorksUpTo(st, pending, keys, turns, |keys|)
    decreases keys
  {
    if keys != [] {
      var group := Select(pending, StreamIdOf, keys[0]);
      var r := SendOne(st, keys[0], group, turns(keys[0]));
      SendIff(st, keys[0], group, turns(keys[0]));
      SendKeepsIdsBelow(st, keys[0], group, turns(keys[0]));
      WorksUpToLater(st, pending, keys, turns, |keys| - 1);
      if r.stop.None? {
        SucceedsIff(r.store, pending, keys[1..], turns, done + [keys[0]]);
      } else {
        StopIsNotSuccess(st, keys[0], group, turns(keys[0]));
      }
    }
  }

  /** The stream is in the buffer and its call takes effect. */
  ghost predicate Commits(st: Store, pending: seq<Event>, turns: string -> Turn, stream: string) {
    PendingGroupsExist(pending);
    var keys := Keys(pending, StreamIdOf);
    exists i :: 0 <= i < |keys| && keys[i] == stream && TakesEffect(st, pending, keys, turns, i)
  }

  /** Every call is answered without an error. */
  ghost predicate AllWork(st: Store, pending: seq<Event>, turns: string -> Turn) {
    PendingGroupsExist(pending);
    WorksUpTo(st, pending, Keys(pending, StreamIdOf), turns, |Keys(pending, StreamIdOf)|)
  }

  lemma CommittedAreKeys(st: Store, pending: seq<Event>, turns: string -> Turn, stream: string) returns (i: nat)
    requires stream in SaveResult(st, pending, turns).committed
    ensures i < |Keys(pending, StreamIdOf)| && Keys(pending, StreamIdOf)[i] == stream
  {
    PendingGroupsExist(pending);
    var keys := Keys(pending, StreamIdOf);
    CommittedIsPrefix(st, pending, keys, turns, []);
    assert [] + keys == keys;
    PrefixHolds(SaveResult(st, pending, turns).committed, keys, stream);
    i :| i < |keys| && keys[i] == stream;
  }

  lemma KeySentIff(st: Store, pending: seq<Event>, turns: string -> Turn, i: nat)
    requires IdsBelow(st.tables, st.nextId) && ForeignTurns(turns) && i < |Keys(pending, StreamIdOf)|
    ensures GroupsExist(pending, Keys(pending, StreamIdOf))
    ensures Keys(pending, StreamIdOf)[i] in SaveResult(st, pending, turns).committed
       <==> TakesEffect(st, pending, Keys(pending, StreamIdOf), turns, i)
  {
    PendingGroupsExist(pending);
    KeysAscend(pending, StreamIdOf);
    SentIff(st, pending, Keys(pending, StreamIdOf), turns, [], i);
  }

  /** What a Save commits, told by what its calls meet: a stream is committed exactly when it is in the buffer, every
      stream before it is answered without an error, its own call does not fail before it reaches the database, and
      its numbers fit there. */
  lemma CommittedIff(st: Store, pending: seq<Event>, turns: string -> Turn, stream: string)
    requires IdsBelow(st.tables, st.nextId) && ForeignTurns(turns)
    ensures stream in SaveResult(st, pending, turns).committed <==> Commits(st, pending, turns, stream)
  {
    if stream in SaveResult(st, pending, turns).committed {
      var i := CommittedAreKeys(st, pending, turns, stream);
      KeySentIff(st, pending, turns, i);
    }
    if Commits(st, pending, turns, stream) {
      PendingGroupsExist(pending);
      var keys := Keys(pending, StreamIdOf);
      var i :| 0 <= i < |keys| && keys[i] == stream && TakesEffect(st, pending, keys, turns, i);
      KeySentIff(st, pending, turns, i);
    }
  }

  /** Save succeeds exactly when every call is answered and its numbers fit. */
  lemma SaveSucceedsIff(st: Store, pending: seq<Event>, turns: string -> Turn)
    requires IdsBelow(st.tables, st.nextId) && ForeignTurns(turns)
    ensures SaveResult(st, pending, turns).code == SUCCEEDED <==> AllWork(st, pending, turns)
  {
    PendingGroupsExist(pending);
    SucceedsIff(st, pending, Keys(pending, StreamIdOf), turns, []);
  }

  lemma {:induction false} LaterKeysAllDiffer(keys: seq<string>)
    requires Ascending(keys)
    ensures forall i, j :: 0 <= i < j < |keys| ==> keys[i] != keys[j]
  {
    forall i, j | 0 <= i < j < |keys| ensures keys[i] != keys[j] {
      LessIrreflexive(keys[i]);
    }
  }

  // ---------------------------------------------------------------- a Save that nobody disturbs

  ghost predicate Undisturbed(turns: string -> Turn) {
    forall stream: string :: turns(stream).others == []
  }

  /** The number of events in the first i groups. */
  function SizeUpTo(pending: seq<Event>, keys: seq<string>, i: nat): nat
    requires i <= |keys|
    decreases i
  {
    if i == 0 then 0 else |Select(pending, StreamIdOf, keys[0])| + SizeUpTo(pending, keys[1..], i - 1)
  }

  /** What the numbers of call i are, from the buffer and the store before the Save. */
  predicate FitsAt(st: Store, pending: seq<Event>, keys: seq<string>, i: nat)
    requires i < |keys|
  {
    && st.nextSeq + SizeUpTo(pending, keys, i) + |Select(pending, StreamIdOf, keys[i])| <= MAX_INT4 + 1
    && VersionOf(st.tables, keys[i]) + |Select(pending, StreamIdOf, keys[i])| <= MAX_INT4
  }

  ghost predicate FitsUpTo(st: Store, pending: seq<Event>, keys: seq<string>, turns: string -> Turn, n: nat)
    requires n <= |keys|
  {
    forall j :: 0 <= j < n ==> turns(keys[j]).fate.Answered? && FitsAt(st, pending, keys, j)
  }

  lemma WorkingSend(st: Store, stream: string, group: seq<Event>, turn: Turn, other: string)
    requires group != [] && turn.others == [] && SendOne(st, stream, group, turn).stop.None? && other != stream
    ensures var st' := SendOne(st, stream, group, turn).store;
      st'.nextSeq == st.nextSeq + |group| && VersionOf(st'.tables, other) == VersionOf(st.tables, other)
  {
  }

  lemma FitsAtLater(st: Store, st': Store, pending: seq<Event>, keys: seq<string>, i: nat)
    requires i + 1 < |keys| && st'.nextSeq == st.nextSeq + |Select(pending, StreamIdOf, keys[0])|
    requires VersionOf(st'.tables, keys[i + 1]) == VersionOf(st.tables, keys[i + 1])
    ensures FitsAt(st', pending, keys[1..], i) <==> FitsAt(st, pending, keys, i + 1)
  {
    assert keys[1..][i] == keys[i + 1];
  }

  /** The first call worked: what stands in front of the others. */
  lemma WorkingFirst(st: Store, pending: seq<Event>, keys: seq<string>, turns: string -> Turn, i: nat)
    requires GroupsExist(pending, keys) && Ascending(keys) && IdsBelow(st.tables, st.nextId) && Undisturbed(turns)
    requires i + 1 < |keys| && Works(st, pending, keys, turns, 0)
    ensures var st' := SendOne(st, keys[0], Select(pending, StreamIdOf, keys[0]), turns(keys[0])).store;
      IdsBelow(st'.tables, st'.nextId) && (FitsAt(st', pending, keys[1..], i) <==> FitsAt(st, pending, keys, i + 1))
  {
    var group := Select(pending, StreamIdOf, keys[0]);
    assert turns(keys[0]).others == [];
    SendIff(st, keys[0], group, turns(keys[0]));
    SendKeepsIdsBelow(st, keys[0], group, turns(keys[0]));
    LaterKeysAllDiffer(keys);
    WorkingSend(st, keys[0], group, turns(keys[0]), keys[i + 1]);
    FitsAtLater(st, SendOne(st, keys[0], group, turns(keys[0])).store, pending, keys, i);
  }

  lemma RoomLater(st: Store, st': Store, pending: seq<Event>, keys: seq<string>, rest: seq<string>, turns: string -> Turn, i: nat)
    requires GroupsExist(pending, keys) && GroupsExist(pending, rest) && i + 1 < |keys| && rest == keys[1..]
    requires st' == SendOne(st, keys[0], Select(pending, StreamIdOf, keys[0]), turns(keys[0])).store
    requires HasRoom(st', pending, rest, turns, i) <==> FitsAt(st', pending, rest, i)
    requires FitsAt(st', pending, rest, i) <==> FitsAt(st, pending, keys, i + 1)
    ensures HasRoom(st, pending, keys, turns, i + 1) <==> FitsAt(st, pending, keys, i + 1)
  {
    WorksLater(st, pending, keys, turns, i);
  }

  lemma RoomFirst(st: Store, pending: seq<Event>, keys: seq<string>, turns: string -> Turn)
    requires GroupsExist(pending, keys) && Undisturbed(turns) && keys != []
    ensures HasRoom(st, pending, keys, turns, 0) <==> FitsAt(st, pending, keys, 0)
  {
    assert turns(keys[0]).others == [];
  }

  lemma {:induction false} AheadIs(st: Store, pending: seq<Event>, keys: seq<string>, turns: string -> Turn, i: nat)
    requires GroupsExist(pending, keys) && Ascending(keys) && IdsBelow(st.tables, st.nextId) && Undisturbed(turns)
    requires i < |keys| && WorksUpTo(st, pending, keys, turns, i)
    ensures HasRoom(st, pending, keys, turns, i) <==> FitsAt(st, pending, keys, i)
    decreases i
  {
    if i == 0 {
      RoomFirst(st, pending, keys, turns);
    } else {
      var st' := SendOne(st, keys[0], Select(pending, StreamIdOf, keys[0]), turns(keys[0])).store;
      WorksUpToLater(st, pending, keys, turns, i - 1);
      WorkingFirst(st, pending, keys, turns, i - 1);
      AheadIs(st', pending, keys[1..], turns, i - 1);
      RoomLater(st, st', pending, keys, keys[1..], turns, i - 1);
    }
  }

  lemma {:induction false} UndisturbedWorks(st: Store, pending: seq<Event>, keys: seq<string>, turns: string -> Turn, n: nat)
    requires GroupsExist(pending, keys) && Ascending(keys) && IdsBelow(st.tables, st.nextId) && Undisturbed(turns) && n <= |keys|
    ensures WorksUpTo(st, pending, keys, turns, n)
       <==> FitsUpTo(st, pending, keys, turns, n)
  {
    if n > 0 {
      UndisturbedWorks(st, pending, keys, turns, n - 1);
      assert WorksUpTo(st, pending, keys, turns, n) <==> WorksUpTo(st, pending, keys, turns, n - 1) && Works(st, pending, keys, turns, n - 1);
      if WorksUpTo(st, pending, keys, turns, n - 1) {
        AheadIs(st, pending, keys, turns, n - 1);
      }
    }
  }

  /** When nobody else uses the database during a Save, the condition can be read off before it: call i takes effect
      exactly when the calls before it are answered, its own does not fail before it is handled, and the sequence
      values of the groups up to it and the versions of each fit into 32 bits. */
  lemma UndisturbedCommitIff(st: Store, pending: seq<Event>, turns: string -> Turn, i: nat)
    requires IdsBelow(st.tables, st.nextId) && Undisturbed(turns) && i < |Keys(pending, StreamIdOf)|
    ensures var keys := Keys(pending, StreamIdOf);
      keys[i] in SaveResult(st, pending, turns).committed
      <==> FitsUpTo(st, pending, keys, turns, i) && !turns(keys[i]).fate.Failed? && FitsAt(st, pending, keys, i)
  {
    PendingGroupsExist(pending);
    KeysAscend(pending, StreamIdOf);
    var keys := Keys(pending, StreamIdOf);
    SentIff(st, pending, keys, turns, [], i);
    UndisturbedWorks(st, pending, keys, turns, i);
    if WorksUpTo(st, pending, keys, turns, i) {
      AheadIs(st, pending, keys, turns, i);
    }
  }

  // ---------------------------------------------------------------- the code returned and the type of a new stream

  /** What the catch clauses return, and what an error answered by the database is. */
  ghost predicate IsErrorCode(e: Error, code: nat) {
    && (e.ConnectionError? ==> code == 503)
    && (e.ExecutionError? && e.disconnected ==> code == 503)
    && (e.ExecutionError? && !e.disconnected ==> code == 400)
    && (e.OtherError? ==> code == 500)
  }

  ghost predicate IsStopCode(fate: Fate, code: nat) {
    match fate
    case Answered => code == 400
    case AnswerLost(e) => IsErrorCode(e, code)
    case Failed(e, _) => IsErrorCode(e, code)
  }

  lemma {:induction false} CodeFrom(st: Store, pending: seq<Event>, keys: seq<string>, turns: string -> Turn, done: seq<string>, i: nat)
    requires GroupsExist(pending, keys) && IdsBelow(st.tables, st.nextId) && ForeignTurns(turns) && i < |keys|
    requires WorksUpTo(st, pending, keys, turns, i) && !Works(st, pending, keys, turns, i)
    ensures IsStopCode(turns(keys[i]).fate, SendAll(st, pending, keys, turns, done).code)
    decreases keys
  {
    var group := Select(pending, StreamIdOf, keys[0]);
    var r := SendOne(st, keys[0], group, turns(keys[0]));
    SendIff(st, keys[0], group, turns(keys[0]));
    if i > 0 {
      SendKeepsIdsBelow(st, keys[0], group, turns(keys[0]));
      WorksUpToLater(st, pending, keys, turns, i - 1);
      WorksLater(st, pending, keys, turns, i - 1);
      CodeFrom(r.store, pending, keys[1..], turns, done + [keys[0]], i - 1);
      assert keys[1..][i - 1] == keys[i];
    }
  }

  /** Call i is the first that does not work. */
  ghost predicate FailsFirst(st: Store, pending: seq<Event>, keys: seq<string>, turns: string -> Turn, i: nat)
    requires GroupsExist(pending, keys)
  {
    i < |keys| && WorksUpTo(st, pending, keys, turns, i) && !Works(st, pending, keys, turns, i)
  }

  /** Save returns 200 if every call works, and otherwise the code for what the first call that does not work met: 503
      for a lost connection, 400 for an error of the statement, 500 for anything else. */
  lemma SaveCode(st: Store, pending: seq<Event>, turns: string -> Turn)
    requires IdsBelow(st.tables, st.nextId) && ForeignTurns(turns)
    ensures AllWork(st, pending, turns) ==> SaveResult(st, pending, turns).code == 200
    ensures GroupsExist(pending, Keys(pending, StreamIdOf))
    ensures forall i: nat :: FailsFirst(st, pending, Keys(pending, StreamIdOf), turns, i) ==>
              IsStopCode(turns(Keys(pending, StreamIdOf)[i]).fate, SaveResult(st, pending, turns).code)
  {
    PendingGroupsExist(pending);
    var keys := Keys(pending, StreamIdOf);
    SaveSucceedsIff(st, pending, turns);
    forall i: nat | FailsFirst(st, pending, keys, turns, i)
      ensures IsStopCode(turns(keys[i]).fate, SaveResult(st, pending, turns).code)
    {
      CodeFrom(st, pending, keys, turns, [], i);
    }
  }

  lemma {:induction false} OthersKeepTypes(st: Store, calls: seq<Call>, k: string)
    requires k in st.tables.streams
    ensures k in OthersRun(st, calls).tables.streams && OthersRun(st, calls).tables.streams[k].streamType == st.tables.streams[k].streamType
  {
    if calls != [] {
      OthersKeepTypes(st, calls[..|calls| - 1], k);
    }
  }

  lemma {:induction false} SendAllKeepsTypes(st: Store, pending: seq<Event>, keys: seq<string>, turns: string -> Turn, done: seq<string>, k: string)
    requires GroupsExist(pending, keys) && k in st.tables.streams
    ensures var t := SendAll(st, pending, keys, turns, done).store.tables;
      k in t.streams && t.streams[k].streamType == st.tables.streams[k].streamType
    decreases keys
  {
    if keys != [] {
      var r := SendOne(st, keys[0], Select(pending, StreamIdOf, keys[0]), turns(keys[0]));
      OthersKeepTypes(st, turns(keys[0]).others, k);
      if r.stop.None? {
        SendAllKeepsTypes(r.store, pending, keys[1..], turns, if r.committed then done + [keys[0]] else done, k);
      }
    }
  }

  lemma {:induction false} SendAllSetsType(st: Store, pending: seq<Event>, keys: seq<string>, turns: string -> Turn, done: seq<string>, k: string)
    requires GroupsExist(pending, keys) && Undisturbed(turns) && k !in st.tables.streams && k !in done
    requires k in SendAll(st, pending, keys, turns, done).committed
    ensures var t := SendAll(st, pending, keys, turns, done).store.tables; var group := Select(pending, StreamIdOf, k);
      k in t.streams && group != [] && t.streams[k].streamType == group[0].eventType
    decreases keys
  {
    if keys != [] {
      var r := SendOne(st, keys[0], Select(pending, StreamIdOf, keys[0]), turns(keys[0]));
      assert turns(keys[0]).others == [];
      var done' := if r.committed then done + [keys[0]] else done;
      if r.committed && keys[0] == k {
        if r.stop.None? {
          SendAllKeepsTypes(r.store, pending, keys[1..], turns, done', k);
        }
      } else if r.stop.None? {
        SendAllSetsType(r.store, pending, keys[1..], turns, done', k);
      }
    }
  }

  /** A Save never changes the type of a stream. A stream that it creates while no other client is at work has the type
      of the first event buffered for it. */
  lemma SavedStreamType(st: Store, pending: seq<Event>, turns: string -> Turn, k: string)
    ensures var t := SaveResult(st, pending, turns).store.tables;
      k in st.tables.streams ==> k in t.streams && t.streams[k].streamType == st.tables.streams[k].streamType
    ensures var r := SaveResult(st, pending, turns); var group := Select(pending, StreamIdOf, k);
      Undisturbed(turns) && k !in st.tables.streams && k in r.committed ==>
        k in r.store.tables.streams && group != [] && r.store.tables.streams[k].streamType == group[0].eventType
  {
    PendingGroupsExist(pending);
    var keys := Keys(pending, StreamIdOf);
    if k in st.tables.streams {
      SendAllKeepsTypes(st, pending, keys, turns, [], k);
    } else if Undisturbed(turns) && k in SaveResult(st, pending, turns).committed {
      SendAllSetsType(st, pending, keys, turns, [], k);
    }
  }

  // ---------------------------------------------------------------- what one Save stores

  /** What an appended event and the row stored for it have in common. */
  datatype Payload = Payload(stream: string, eventType: string, text: string)

  function PayloadOf(e: Event): Payload {
    Payload(e.streamId, e.eventType, e.data.text)
  }

  function RowPayload(r: Row): Payload {
    Payload(r.stream, r.eventType, r.body)
  }

  /** The rows this client has stored. */
  function Own(rows: seq<Row>): (own: seq<Row>) {
    if rows == [] then [] else Own(rows[..|rows| - 1]) + if Mine(rows[|rows| - 1].id) then [rows[|rows| - 1]] else []
  }

  /** How many of them carry the payload. */
  function Copies(rows: seq<Row>, p: Payload): nat {
    if rows == [] then 0
    else Copies(rows[..|rows| - 1], p) + if Mine(rows[|rows| - 1].id) && RowPayload(rows[|rows| - 1]) == p then 1 else 0
  }

  function Buffered(events: seq<Event>, p: Payload): nat {
    if events == [] then 0 else Buffered(events[..|events| - 1], p) + if PayloadOf(events[|events| - 1]) == p then 1 else 0
  }

  lemma {:induction false} CopiesConcat(a: seq<Row>, b: seq<Row>, p: Payload)
    ensures Copies(a + b, p) == Copies(a, p) + Copies(b, p)
  {
    if b == [] {
      assert a + b == a;
    } else {
      assert (a + b)[..|a + b| - 1] == a + b[..|b| - 1];
      CopiesConcat(a, b[..|b| - 1], p);
    }
  }

  lemma {:induction false} NoCopies(rows: seq<Row>, p: Payload)
    requires forall k :: 0 <= k < |rows| ==> !Mine(rows[k].id)
    ensures Copies(rows, p) == 0
  {
    if rows != [] {
      NoCopies(rows[..|rows| - 1], p);
    }
  }

  lemma BufferedNext(events: seq<Event>, init: seq<Event>, last: Event, p: Payload)
    requires events == init + [last]
    ensures Buffered(events, p) == Buffered(init, p) + if PayloadOf(last) == p then 1 else 0
  {
    assert events[..|events| - 1] == init;
  }

  lemma {:induction false} BufferedOfStream(pending: seq<Event>, stream: string, p: Payload)
    ensures Buffered(Select(pending, StreamIdOf, stream), p) == if p.stream == stream then Buffered(pending, p) else 0
  {
    if pending != [] {
      var init, last := pending[..|pending| - 1], pending[|pending| - 1];
      assert pending == init + [last];
      BufferedOfStream(init, stream, p);
      SelectNext(pending, init, last, StreamIdOf, stream);
      BufferedNext(pending, init, last, p);
      var g := Select(init, StreamIdOf, stream);
      if last.streamId == stream {
        BufferedNext(g + [last], g, last, p);
      } else {
        assert g + [] == g;
      }
    }
  }

  /** The call carries the group: fresh ids, types and bodies in its order. */
  ghost predicate Carries(c: Call, group: seq<Event>) {
    && |c.ids| == |group| && c.types == Types(group) && c.bodies == Texts(group)
    && (forall i :: 0 <= i < |group| ==> Mine(c.ids[i]))
    && (forall i :: 0 <= i < |group| ==> group[i].streamId == c.stream)
  }

  lemma CallCarries(pending: seq<Event>, stream: string, firstId: nat)
    requires Select(pending, StreamIdOf, stream) != []
    ensures Carries(CallOf(stream, Select(pending, StreamIdOf, stream), firstId), Select(pending, StreamIdOf, stream))
  {
    var group := Select(pending, StreamIdOf, stream);
    forall i | 0 <= i < |group| ensures group[i].streamId == stream {
      assert group[i] in group;
    }
  }

  /** The rows of a call carry the payloads of its group, in the group's order. */
  lemma {:induction false} RowsCarryGroup(c: Call, base: nat, seqs: seq<nat>, group: seq<Event>, n: nat, p: Payload)
    requires n == |seqs| <= |group| && Carries(c, group)
    ensures Copies(RowsOf(c, base, seqs), p) == Buffered(group[..n], p)
  {
    if n > 0 {
      RowsCarryGroup(c, base, seqs[..n - 1], group, n - 1, p);
      assert RowsOf(c, base, seqs)[..n - 1] == RowsOf(c, base, seqs[..n - 1]);
      assert group[..n][..n - 1] == group[..n - 1];
    }
  }

  lemma ForeignStoresNone(st: Store, c: Call, p: Payload)
    requires Foreign(c)
    ensures Copies(Handled(st, c).tables.events, p) == Copies(st.tables.events, p)
  {
    if Acceptable(st.tables, st.nextSeq, c) {
      var rows := RowsOf(c, VersionOf(st.tables, c.stream), Counting(st.nextSeq, |c.ids|));
      NoCopies(rows, p);
      CopiesConcat(st.tables.events, rows, p);
    }
  }

  lemma {:induction false} OthersStoreNone(st: Store, calls: seq<Call>, p: Payload)
    requires AllForeign(calls)
    ensures Copies(OthersRun(st, calls).tables.events, p) == Copies(st.tables.events, p)
  {
    if calls != [] {
      OthersStoreNone(st, calls[..|calls| - 1], p);
      ForeignStoresNone(OthersRun(st, calls[..|calls| - 1]), calls[|calls| - 1], p);
    }
  }

  lemma CallStores(st: Store, pending: seq<Event>, stream: string, fate: Fate, p: Payload)
    requires Select(pending, StreamIdOf, stream) != []
    ensures var r := SendCall(st, stream, Select(pending, StreamIdOf, stream), fate);
      Copies(r.store.tables.events, p)
      == Copies(st.tables.events, p) + if r.committed && p.stream == stream then Buffered(pending, p) else 0
  {
    var group := Select(pending, StreamIdOf, stream);
    var c := CallOf(stream, group, st.nextId);
    if SendCall(st, stream, group, fate).committed {
      var rows := RowsOf(c, VersionOf(st.tables, stream), Counting(st.nextSeq, |group|));
      CallCarries(pending, stream, st.nextId);
      RowsCarryGroup(c, VersionOf(st.tables, stream), Counting(st.nextSeq, |group|), group, |group|, p);
      assert group[..|group|] == group;
      CopiesConcat(st.tables.events, rows, p);
      BufferedOfStream(pending, stream, p);
    }
  }

  lemma SendOneStores(st: Store, pending: seq<Event>, stream: string, turn: Turn, p: Payload)
    requires Select(pending, StreamIdOf, stream) != [] && AllForeign(turn.others)
    ensures var r := SendOne(st, stream, Select(pending, StreamIdOf, stream), turn);
      Copies(r.store.tables.events, p)
      == Copies(st.tables.events, p) + if r.committed && p.stream == stream then Buffered(pending, p) else 0
  {
    OthersStoreNone(st, turn.others, p);
    CallStores(OthersRun(st, turn.others), pending, stream, turn.fate, p);
  }

  lemma {:induction false} SendAllStores(st: Store, pending: seq<Event>, keys: seq<string>, turns: string -> Turn, done: seq<string>, p: Payload)
    requires GroupsExist(pending, keys) && Ascending(keys) && p.stream !in done && ForeignTurns(turns)
    ensures var r := SendAll(st, pending, keys, turns, done);
      Copies(r.store.tables.events, p) == Copies(st.tables.events, p) + if p.stream in r.committed then Buffered(pending, p) else 0
    decreases keys
  {
    if keys != [] {
      var r := SendOne(st, keys[0], Select(pending, StreamIdOf, keys[0]), turns(keys[0]));
      SendOneStores(st, pending, keys[0], turns(keys[0]), p);
      if r.stop.None? {
        if p.stream == keys[0] {
          LaterKeysDiffer(keys);
          SendAllKeeps(r.store, pending, keys[1..], turns, done + [keys[0]], p);
        } else {
          SendAllStores(r.store, pending, keys[1..], turns, done + [keys[0]], p);
        }
      }
    }
  }

  lemma {:induction false} SendAllKeeps(st: Store, pending: seq<Event>, keys: seq<string>, turns: string -> Turn, done: seq<string>, p: Payload)
    requires GroupsExist(pending, keys) && p.stream !in keys && p.stream in done && ForeignTurns(turns)
    ensures var r := SendAll(st, pending, keys, turns, done);
      Copies(r.store.tables.events, p) == Copies(st.tables.events, p) && p.stream in r.committed
    decreases keys
  {
    if keys != [] {
      var r := SendOne(st, keys[0], Select(pending, StreamIdOf, keys[0]), turns(keys[0]));
      SendOneStores(st, pending, keys[0], turns(keys[0]), p);
      if r.stop.None? {
        SendAllKeeps(r.store, pending, keys[1..], turns, done + [keys[0]], p);
      }
    }
  }

  /** One Save stores one copy of each buffered event whose stream's call takes effect, and nothing else of this
      client. */
  lemma SaveStores(st: Store, pending: seq<Event>, turns: string -> Turn, p: Payload)
    requires IdsBelow(st.tables, st.nextId) && ForeignTurns(turns)
    ensures Copies(SaveResult(st, pending, turns).store.tables.events, p)
         == Copies(st.tables.events, p) + if Commits(st, pending, turns, p.stream) then Buffered(pending, p) else 0
  {
    PendingGroupsExist(pending);
    KeysAscend(pending, StreamIdOf);
    SendAllStores(st, pending, Keys(pending, StreamIdOf), turns, [], p);
    CommittedIff(st, pending, turns, p.stream);
  }

  // ---------------------------------------------------------------- order

  lemma {:induction false} OwnConcat(a: seq<Row>, b: seq<Row>)
    ensures Own(a + b) == Own(a) + Own(b)
  {
    if b == [] {
      assert a + b == a;
    } else {
      assert (a + b)[..|a + b| - 1] == a + b[..|b| - 1];
      OwnConcat(a, b[..|b| - 1]);
    }
  }

  lemma {:induction false} OwnAll(rows: seq<Row>)
    requires forall k :: 0 <= k < |rows| ==> Mine(rows[k].id)
    ensures Own(rows) == rows
  {
    if rows != [] {
      OwnAll(rows[..|rows| - 1]);
    }
  }

  lemma {:induction false} OwnNone(rows: seq<Row>)
    requires forall k :: 0 <= k < |rows| ==> !Mine(rows[k].id)
    ensures Own(rows) == []
  {
    if rows != [] {
      OwnNone(rows[..|rows| - 1]);
    }
  }

  /** This client's rows in the log of a stream. */
  function OwnLog(t: Tables, k: string): seq<Row> {
    Own(StreamLog(t.events, k))
  }

  /** The log grew by the group's events, in the group's order. */
  ghost predicate Extends(log: seq<Row>, log': seq<Row>, group: seq<Event>) {
    && |log'| == |log| + |group| && log <= log'
    && forall i :: 0 <= i < |group| ==> RowPayload(log'[|log| + i]) == PayloadOf(group[i])
  }

  lemma GroupExtendsLog(log: seq<Row>, c: Call, base: nat, seqs: seq<nat>, group: seq<Event>)
    requires |seqs| == |group| && Carries(c, group)
    ensures Extends(log, log + RowsOf(c, base, seqs), group)
  {
  }

  lemma ForeignKeepsOwnLog(st: Store, c: Call, k: string)
    requires Foreign(c)
    ensures OwnLog(Handled(st, c).tables, k) == OwnLog(st.tables, k)
  {
    if Acceptable(st.tables, st.nextSeq, c) {
      var seqs := Counting(st.nextSeq, |c.ids|);
      AppendExtendsLog(st.tables, c, seqs, k);
      var rows := RowsOf(c, VersionOf(st.tables, k), seqs);
      OwnNone(rows);
      OwnConcat(StreamLog(st.tables.events, k), if k == c.stream then rows else []);
    }
  }

  lemma {:induction false} OthersKeepOwnLog(st: Store, calls: seq<Call>, k: string)
    requires AllForeign(calls)
    ensures OwnLog(OthersRun(st, calls).tables, k) == OwnLog(st.tables, k)
  {
    if calls != [] {
      OthersKeepOwnLog(st, calls[..|calls| - 1], k);
      ForeignKeepsOwnLog(OthersRun(st, calls[..|calls| - 1]), calls[|calls| - 1], k);
    }
  }

  /** A call that takes effect extends the log of its stream by its group. */
  lemma CallExtendsLog(t: Tables, c: Call, seqs: seq<nat>, group: seq<Event>, k: string)
    requires Complete(c) && |seqs| == |group| && Carries(c, group)
    ensures Extends(OwnLog(t, k), OwnLog(AppendAtomically(t, c, seqs), k), if k == c.stream then group else [])
  {
    AppendExtendsLog(t, c, seqs, k);
    if k == c.stream {
      var rows := RowsOf(c, VersionOf(t, k), seqs);
      OwnAll(rows);
      OwnConcat(StreamLog(t.events, k), rows);
      GroupExtendsLog(OwnLog(t, k), c, VersionOf(t, k), seqs, group);
    } else {
      assert StreamLog(t.events, k) + [] == StreamLog(t.events, k);
    }
  }

  lemma HandledExtendsLog(st: Store, c: Call, group: seq<Event>, k: string)
    requires Acceptable(st.tables, st.nextSeq, c) && Carries(c, group)
    ensures Extends(OwnLog(st.tables, k), OwnLog(Handled(st, c).tables, k), if k == c.stream then group else [])
  {
    CallExtendsLog(st.tables, c, Counting(st.nextSeq, |group|), group, k);
  }

  lemma CommittedTables(st: Store, stream: string, group: seq<Event>, fate: Fate)
    requires group != []
    ensures var r := SendCall(st, stream, group, fate);
      && (r.committed ==> Acceptable(st.tables, st.nextSeq, CallOf(stream, group, st.nextId))
                          && r.store.tables == Handled(st, CallOf(stream, group, st.nextId)).tables)
      && (!r.committed ==> r.store.tables == st.tables)
  {
  }

  lemma SendCallExtendsLog(st: Store, pending: seq<Event>, stream: string, fate: Fate, k: string)
    requires Select(pending, StreamIdOf, stream) != []
    ensures var r := SendCall(st, stream, Select(pending, StreamIdOf, stream), fate);
      Extends(OwnLog(st.tables, k), OwnLog(r.store.tables, k), if r.committed && k == stream then Select(pending, StreamIdOf, stream) else [])
  {
    var group := Select(pending, StreamIdOf, stream);
    CommittedTables(st, stream, group, fate);
    if SendCall(st, stream, group, fate).committed {
      CallCarries(pending, stream, st.nextId);
      HandledExtendsLog(st, CallOf(stream, group, st.nextId), group, k);
    }
  }

  lemma SendOneExtendsLog(st: Store, pending: seq<Event>, stream: string, turn: Turn, k: string)
    requires Select(pending, StreamIdOf, stream) != [] && AllForeign(turn.others)
    ensures var r := SendOne(st, stream, Select(pending, StreamIdOf, stream), turn);
      Extends(OwnLog(st.tables, k), OwnLog(r.store.tables, k), if r.committed && k == stream then Select(pending, StreamIdOf, stream) else [])
  {
    OthersKeepOwnLog(st, turn.others, k);
    SendCallExtendsLog(OthersRun(st, turn.others), pending, stream, turn.fate, k);
  }

  /** What is still to be appended to the log of stream k. */
  function Owed(pending: seq<Event>, k: string, committed: seq<string>, done: seq<string>): seq<Event> {
    if k in committed && k !in done then Select(pending, StreamIdOf, k) else []
  }

  lemma KeyIsCommitted(st: Store, pending: seq<Event>, keys: seq<string>, turns: string -> Turn, done: seq<string>, key: string)
    requires GroupsExist(pending, keys)
    ensures key in SendAll(st, pending, keys, turns, done + [key]).committed
  {
    CommittedIsPrefix(st, pending, keys, turns, done + [key]);
    PrefixHolds(done + [key], SendAll(st, pending, keys, turns, done + [key]).committed, key);
  }

  lemma {:induction false} SendAllExtendsLog(st: Store, pending: seq<Event>, keys: seq<string>, turns: string -> Turn, done: seq<string>, k: string)
    requires GroupsExist(pending, keys) && Ascending(keys) && (k in keys ==> k !in done) && ForeignTurns(turns)
    ensures var r := SendAll(st, pending, keys, turns, done);
      Extends(OwnLog(st.tables, k), OwnLog(r.store.tables, k), Owed(pending, k, r.committed, done))
    decreases keys
  {
    if keys != [] {
      var r := SendOne(st, keys[0], Select(pending, StreamIdOf, keys[0]), turns(keys[0]));
      SendOneExtendsLog(st, pending, keys[0], turns(keys[0]), k);
      if r.stop.None? {
        var all := SendAll(r.store, pending, keys[1..], turns, done + [keys[0]]);
        LaterKeysDiffer(keys);
        SendAllExtendsLog(r.store, pending, keys[1..], turns, done + [keys[0]], k);
        KeyIsCommitted(r.store, pending, keys[1..], turns, done, keys[0]);
        ExtendsFurther(OwnLog(st.tables, k), OwnLog(r.store.tables, k), OwnLog(all.store.tables, k), pending, k, keys[0], all.committed, done);
      }
    }
  }

  lemma ExtendsFurther(a: seq<Row>, b: seq<Row>, c: seq<Row>, pending: seq<Event>, k: string, key: string, committed: seq<string>, done: seq<string>)
    requires Extends(a, b, if k == key then Select(pending, StreamIdOf, key) else [])
    requires Extends(b, c, Owed(pending, k, committed, done + [key])) && key in committed && (k == key ==> k !in done)
    ensures Extends(a, c, Owed(pending, k, committed, done))
  {
    OwedInTurn(pending, k, key, committed, done);
    ExtendsInTurn(a, b, c, if k == key then Select(pending, StreamIdOf, key) else [], Owed(pending, k, committed, done + [key]));
  }

  lemma OwedInTurn(pending: seq<Event>, k: string, key: string, committed: seq<string>, done: seq<string>)
    requires key in committed && (k == key ==> k !in done)
    ensures k == key ==> Owed(pending, k, committed, done + [key]) == [] && Owed(pending, k, committed, done) == Select(pending, StreamIdOf, k)
    ensures k != key ==> Owed(pending, k, committed, done + [key]) == Owed(pending, k, committed, done)
  {
  }

  lemma ExtendsInTurn(a: seq<Row>, b: seq<Row>, c: seq<Row>, g: seq<Event>, h: seq<Event>)
    requires Extends(a, b, g) && Extends(b, c, h) && (g == [] || h == [])
    ensures Extends(a, c, if g == [] then h else g)
  {
  }

  /** One Save extends this client's part of the log of each stream whose call takes effect by its buffered events in
      buffer order, and leaves its part of every other log as it was. */
  lemma SavedInBufferOrder(st: Store, pending: seq<Event>, turns: string -> Turn, k: string)
    requires ForeignTurns(turns)
    ensures var r := SaveResult(st, pending, turns);
      Extends(OwnLog(st.tables, k), OwnLog(r.store.tables, k), if k in r.committed then Select(pending, StreamIdOf, k) else [])
  {
    PendingGroupsExist(pending);
    KeysAscend(pending, StreamIdOf);
    SendAllExtendsLog(st, pending, Keys(pending, StreamIdOf), turns, [], k);
  }
}
