/**
 The PostgreSQL event store: events are buffered by Append and sent by Save, one call of the stored procedure
 for each stream, in stream order. The first failing call ends Save and leaves the whole buffer in place, so
 the next Save sends every buffered event again, those of the streams already committed included.

 The database is shared: other clients' calls may be handled before any call of this one and between its saves. Event
 ids are unique across clients; they are numbers here, and this client's are the even ones.
 */
module PgEventStore {
  import opened Wrappers
  import opened GroupBy
  import opened Events
  import opened AppendProtocol
  import opened AppendRuns
  import opened AppendProcedure

  /** What the try block around a call can catch. */
  datatype Error = ConnectionError | ExecutionError(disconnected: bool) | OtherError

  /** What happens to one call: it reaches the database and is answered; its answer is lost although the database
      handled it; or it fails before it takes effect, possibly after drawing sequence values. */
  datatype Fate = Answered | AnswerLost(error: Error) | Failed(error: Error, drawn: nat)

  /** The turn of one stream in a Save: the calls of others that the database handles first, and the call's fate. */
  datatype Turn = Turn(others: seq<Call>, fate: Fate)

  function ErrorCode(e: Error): nat {
    match e
    case ConnectionError => 503
    case ExecutionError(disconnected) => if disconnected then 503 else 400
    case OtherError => 500
  }

  const SUCCEEDED: nat := 200

  /** The tables, the sequence, and the source of fresh event ids. */
  datatype Store = Store(tables: Tables, nextSeq: nat, nextId: nat)

  predicate Mine(id: nat) {
    id % 2 == 0
  }

  function FreshIds(firstId: nat, n: nat): (ids: seq<nat>)
    ensures |ids| == n && forall i :: 0 <= i < n ==> ids[i] == 2 * (firstId + i) && Mine(ids[i])
  {
    seq(n, i => 2 * (firstId + i))
  }

  /** A call of another client. */
  predicate Foreign(c: Call) {
    forall i :: 0 <= i < |c.ids| ==> !Mine(c.ids[i])
  }

  predicate AllForeign(calls: seq<Call>) {
    forall i :: 0 <= i < |calls| ==> Foreign(calls[i])
  }

  ghost predicate ForeignTurns(turns: string -> Turn) {
    forall stream: string :: AllForeign(turns(stream).others)
  }

  function Texts(group: seq<Event>): (texts: seq<string>)
    ensures |texts| == |group|
  {
    seq(|group|, i requires 0 <= i < |group| => group[i].data.text)
  }

  function Types(group: seq<Event>): (types: seq<string>)
    ensures |types| == |group|
  {
    seq(|group|, i requires 0 <= i < |group| => group[i].eventType)
  }

  /** The call Save makes for a stream: fresh ids, and the type of the first event as the stream type. */
  function CallOf(stream: string, group: seq<Event>, firstId: nat): (c: Call)
    requires group != []
    ensures Complete(c)
  {
    Call(stream, group[0].eventType, FreshIds(firstId, |group|), Types(group), Texts(group))
  }

  /** The store after the database has handled a call. */
  function Handled(st: Store, c: Call): Store {
    st.(tables := if Acceptable(st.tables, st.nextSeq, c) then AppendAtomically(st.tables, c, Counting(st.nextSeq, |c.ids|)) else st.tables,
        nextSeq := st.nextSeq + DrawnBy(st.tables, st.nextSeq, c))
  }

  function OthersRun(st: Store, calls: seq<Call>): Store {
    if calls == [] then st else Handled(OthersRun(st, calls[..|calls| - 1]), calls[|calls| - 1])
  }

  datatype Sent = Sent(store: Store, committed: bool, stop: Option<nat>)

  /** One call: the new store, whether the call took effect, and the code that ends Save, if it must end. */
  function SendCall(st: Store, stream: string, group: seq<Event>, fate: Fate): Sent
    requires group != []
  {
    var c := CallOf(stream, group, st.nextId);
    var next := st.(nextId := st.nextId + |group|);
    if fate.Failed? then
      Sent(next.(nextSeq := st.nextSeq + fate.drawn), false, Some(ErrorCode(fate.error)))
    else
      var accepted := Acceptable(st.tables, st.nextSeq, c);
      Sent(Handled(next, c), accepted,
           if fate.AnswerLost? then Some(ErrorCode(fate.error))
           else if accepted then None
           else Some(ErrorCode(ExecutionError(false))))
  }

  /** The turn of one stream. */
  function SendOne(st: Store, stream: string, group: seq<Event>, turn: Turn): Sent
    requires group != []
  {
    SendCall(OthersRun(st, turn.others), stream, group, turn.fate)
  }

  ghost predicate GroupsExist(pending: seq<Event>, keys: seq<string>) {
    forall i :: 0 <= i < |keys| ==> Select(pending, StreamIdOf, keys[i]) != []
  }

  datatype Saved = Saved(store: Store, code: nat, committed: seq<string>)

  /** Save from a given point on: `keys` are the streams still to be sent, `done` those already committed. */
  ghost function SendAll(st: Store, pending: seq<Event>, keys: seq<string>, turns: string -> Turn, done: seq<string>): Saved
    requires GroupsExist(pending, keys)
    decreases keys
  {
    if keys == [] then Saved(st, SUCCEEDED, done)
    else
      var r := SendOne(st, keys[0], Select(pending, StreamIdOf, keys[0]), turns(keys[0]));
      var done' := if r.committed then done + [keys[0]] else done;
      if r.stop.Some? then Saved(r.store, r.stop.value, done') else SendAll(r.store, pending, keys[1..], turns, done')
  }

  lemma PendingGroupsExist(pending: seq<Event>)
    ensures GroupsExist(pending, Keys(pending, StreamIdOf))
  {
    var keys := Keys(pending, StreamIdOf);
    forall i | 0 <= i < |keys| ensures Select(pending, StreamIdOf, keys[i]) != [] {
      GroupsAreNotEmpty(pending, StreamIdOf, keys[i]);
    }
  }

  ghost function SaveResult(st: Store, pending: seq<Event>, turns: string -> Turn): Saved {
    PendingGroupsExist(pending);
    SendAll(st, pending, Keys(pending, StreamIdOf), turns, [])
  }

  class EventStore {
    var pending: seq<Event>
    var nextId: nat
    const db: Database

    ghost predicate Valid()
      reads this, db
    {
      db.Valid()
    }

    ghost function State(): Store
      reads this, db
    {
      Store(db.Contents(), db.nextSeq, nextId)
    }

    constructor (db: Database)
      requires db.Valid()
      ensures Valid() && this.db == db && pending == [] && nextId == 0
    {
      this.db, pending, nextId := db, [], 0;
    }

    method Append(e: Event)
      modifies this`pending
      ensures pending == old(pending) + [e]
    {
      pending := pending + [e];
    }

    method Reset()
      modifies this`pending
      ensures pending == []
    {
      pending := [];
    }

    /** What other clients do in the meantime. */
    method RunOthers(calls: seq<Call>)
      requires Valid()
      modifies db
      ensures Valid() && State() == OthersRun(old(State()), calls)
    {
      for k := 0 to |calls|
        invariant Valid() && State() == OthersRun(old(State()), calls[..k])
      {
        var reply := db.AppendEvent(calls[k]);
        assert calls[..k + 1][..k] == calls[..k];
      }
      assert calls[..|calls|] == calls;
    }

    /** One call of this client. */
    method Execute(stream: string, group: seq<Event>, fate: Fate) returns (stop: Option<nat>)
      requires Valid() && group != []
      modifies this`nextId, db
      ensures Valid()
      ensures var r := SendCall(old(State()), stream, group, fate); State() == r.store && stop == r.stop
    {
      var call := CallOf(stream, group, nextId);
      nextId := nextId + |group|;
      if fate.Failed? {
        db.drawn := db.drawn + Counting(db.nextSeq, fate.drawn);
        db.nextSeq := db.nextSeq + fate.drawn;
        IssuedLater(db.events, db.nextSeq - fate.drawn, db.nextSeq);
        return Some(ErrorCode(fate.error));
      }
      var reply := db.AppendEvent(call);
      if fate.AnswerLost? {
        return Some(ErrorCode(fate.error));
      }
      if reply.None? {
        return Some(ErrorCode(ExecutionError(false)));
      }
      stop := None;
    }

    /** The body of Save's loop. */
    method Send(stream: string, group: seq<Event>, turn: Turn) returns (stop: Option<nat>)
      requires Valid() && group != []
      modifies this`nextId, db
      ensures Valid()
      ensures var r := SendOne(old(State()), stream, group, turn); State() == r.store && stop == r.stop
    {
      RunOthers(turn.others);
      stop := Execute(stream, group, turn.fate);
    }

    /** The buffer is emptied by a fully successful Save; a failing one leaves it whole. */
    method Save(turns: string -> Turn) returns (code: nat)
      requires Valid()
      modifies this`pending, this`nextId, db
      ensures Valid()
      ensures var r := SaveResult(old(State()), old(pending), turns); State() == r.store && code == r.code
      ensures pending == if code == SUCCEEDED then [] else old(pending)
    {
      var streams := GroupBy.GroupBy(pending, [StreamIdOf]);
      ghost var keys := Keys(pending, StreamIdOf);
      PendingGroupsExist(pending);
      ghost var done := [];
      for k := 0 to |streams.entries|
        invariant Valid() && pending == old(pending) && |streams.entries| == |keys|
        invariant SendAll(old(State()), pending, keys, turns, []) == SendAll(State(), pending, keys[k..], turns, done)
      {
        GroupAt(pending, StreamIdOf, k);
        var stream, group := streams.entries[k].key, streams.entries[k].group.items;
        ghost var before := State();
        var stop := Send(stream, group, turns(stream));
        if stop.Some? {
          StopIsNotSuccess(before, stream, group, turns(stream));
          return stop.value;
        }
        if SendOne(before, stream, group, turns(stream)).committed {
          done := done + [stream];
        }
      }
      Reset();
      code := SUCCEEDED;
    }
  }

  lemma StopIsNotSuccess(st: Store, stream: string, group: seq<Event>, turn: Turn)
    requires group != [] && SendOne(st, stream, group, turn).stop.Some?
    ensures SendOne(st, stream, group, turn).stop.value != SUCCEEDED
  {
  }

  // ---------------------------------------------------------------- when the database accepts a call

  /** This client's stored ids have all been issued. */
  ghost predicate IdsBelow(t: Tables, nextId: nat) {
    forall k :: 0 <= k < |t.events| && Mine(t.events[k].id) ==> t.events[k].id < 2 * nextId
  }

  /** The numbers that n events of the stream need fit into 32 bits. */
  predicate Fits(st: Store, stream: string, n: nat) {
    st.nextSeq + n <= MAX_INT4 + 1 && VersionOf(st.tables, stream) + n <= MAX_INT4
  }

  /** A call of this client is accepted exactly when its numbers fit. */
  lemma CallFitsIff(st: Store, stream: string, group: seq<Event>)
    requires group != [] && IdsBelow(st.tables, st.nextId)
    ensures Acceptable(st.tables, st.nextSeq, CallOf(stream, group, st.nextId)) <==> Fits(st, stream, |group|)
  {
    var c := CallOf(stream, group, st.nextId);
    forall a, e | 0 <= a < |c.ids| && 0 <= e < |st.tables.events| ensures st.tables.events[e].id != c.ids[a] {
      assert Mine(c.ids[a]);
    }
  }

  lemma AppendKeepsIdsBelow(t: Tables, c: Call, seqs: seq<nat>, nextId: nat)
    requires IdsBelow(t, nextId) && Complete(c) && |seqs| == |c.ids|
    requires forall i :: 0 <= i < |c.ids| && Mine(c.ids[i]) ==> c.ids[i] < 2 * nextId
    ensures IdsBelow(AppendAtomically(t, c, seqs), nextId)
  {
  }

  lemma {:induction false} OthersKeepIdsBelow(st: Store, calls: seq<Call>)
    requires IdsBelow(st.tables, st.nextId) && AllForeign(calls)
    ensures IdsBelow(OthersRun(st, calls).tables, st.nextId) && OthersRun(st, calls).nextId == st.nextId
  {
    if calls != [] {
      var init, c := calls[..|calls| - 1], calls[|calls| - 1];
      OthersKeepIdsBelow(st, init);
      var before := OthersRun(st, init);
      if Acceptable(before.tables, before.nextSeq, c) {
        AppendKeepsIdsBelow(before.tables, c, Counting(before.nextSeq, |c.ids|), st.nextId);
      }
    }
  }

  lemma CallKeepsIdsBelow(st: Store, stream: string, group: seq<Event>, fate: Fate)
    requires group != [] && IdsBelow(st.tables, st.nextId)
    ensures var r := SendCall(st, stream, group, fate); IdsBelow(r.store.tables, r.store.nextId)
  {
    var c := CallOf(stream, group, st.nextId);
    if Acceptable(st.tables, st.nextSeq, c) {
      AppendKeepsIdsBelow(st.tables, c, Counting(st.nextSeq, |c.ids|), st.nextId + |group|);
    }
  }

  lemma SendKeepsIdsBelow(st: Store, stream: string, group: seq<Event>, turn: Turn)
    requires group != [] && IdsBelow(st.tables, st.nextId) && AllForeign(turn.others)
    ensures var r := SendOne(st, stream, group, turn); IdsBelow(r.store.tables, r.store.nextId)
  {
    OthersKeepIdsBelow(st, turn.others);
    CallKeepsIdsBelow(OthersRun(st, turn.others), stream, group, turn.fate);
  }

  lemma {:induction false} SendAllKeepsIdsBelow(st: Store, pending: seq<Event>, keys: seq<string>, turns: string -> Turn, done: seq<string>)
    requires GroupsExist(pending, keys) && IdsBelow(st.tables, st.nextId) && ForeignTurns(turns)
    ensures var r := SendAll(st, pending, keys, turns, done); IdsBelow(r.store.tables, r.store.nextId)
    decreases keys
  {
    if keys != [] {
      var r := SendOne(st, keys[0], Select(pending, StreamIdOf, keys[0]), turns(keys[0]));
      SendKeepsIdsBelow(st, keys[0], Select(pending, StreamIdOf, keys[0]), turns(keys[0]));
      if r.stop.None? {
        SendAllKeepsIdsBelow(r.store, pending, keys[1..], turns, done + [keys[0]]);
      }
    }
  }
}
