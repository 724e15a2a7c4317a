/**
 The Mongo event store: SaveOne is a sequence of separate atomic operations on three shared collections, so any
 number of clients may interleave between them.

 Every operation may work, fail without an effect, or take effect while its answer is lost; SaveOne goes on in each
 case, with the values its helpers return on an exception ("" for a stream id, -1 for a counter). When no
 connection can be had for it, a string is thrown that nobody catches and the client stops where it is.
 */
module MongoProtocol {
  const ALL_EVENTS := "all_events"

  /** A document of `eventstreams`, stored under its _id: as getUid creates it, or as saved with a snapshot. */
  datatype StreamDoc = Reserved(streamType: string)
                     | Saved(streamType: string, id: string, version: int, snapshot: string)

  datatype EventDoc = EventDoc(seqId: int, streamId: string, streamType: string, version: int, data: string)

  datatype Collections = Collections(streams: map<string, StreamDoc>, counters: map<string, nat>, events: seq<EventDoc>)

  datatype Pc = Find | Create | CountAll | CountType | InsertEvent | ReplaceStream | Done | Stopped

  /** `stored` records whether the client's event was inserted, whatever the client was told. */
  datatype Client = Client(pc: Pc, streamType: string, data: string, newId: string, streamId: string, seqId: int,
                           version: int, rc: nat, stored: bool) {
    predicate Active() {
      !pc.Done? && !pc.Stopped?
    }
  }

  /** `pick` is the document a find with limit 1 happens to return. */
  datatype Outcome = Works(pick: string) | Fails | AnswerLost | Throws

  function NewClient(streamType: string, data: string, newId: string): Client {
    Client(Find, streamType, data, newId, "", 0, 0, 0, false)
  }

  // ---------------------------------------------------------------- the atomic operations

  predicate HasType(c: Collections, streamType: string) {
    exists id :: id in c.streams && c.streams[id].streamType == streamType
  }

  function CounterOf(c: Collections, name: string): nat {
    if name in c.counters then c.counters[name] else 0
  }

  /** find_one_and_update with $inc and upsert. */
  function Increment(c: Collections, name: string): Collections {
    c.(counters := c.counters[name := CounterOf(c, name) + 1])
  }

  function Counted(c: Collections, name: string, o: Outcome): (Collections, int) {
    match o
    case Works(_) => (Increment(c, name), CounterOf(c, name) + 1)
    case AnswerLost => (Increment(c, name), -1)
    case _ => (c, -1)
  }

  function EventOf(cl: Client): EventDoc {
    EventDoc(cl.seqId, cl.streamId, cl.streamType, cl.version, cl.data)
  }

  function DocOf(cl: Client): StreamDoc {
    Saved(cl.streamType, cl.streamId, cl.version, cl.data)
  }

  /** The next operation of a client: the collections and the client after it. */
  function Advance(c: Collections, cl: Client, o: Outcome): (Collections, Client)
    requires cl.Active()
  {
    if o.Throws? then (c, cl.(pc := Stopped))
    else
    match cl.pc
    case Find =>
      if !o.Works? then (c, cl.(pc := CountAll, streamId := ""))
      else if HasType(c, cl.streamType) then (c, cl.(pc := CountAll, streamId := o.pick))
      else (c, cl.(pc := Create))
    case Create =>
      if o.Fails? || cl.newId in c.streams then (c, cl.(pc := CountAll, streamId := ""))
      else (c.(streams := c.streams[cl.newId := Reserved(cl.streamType)]),
            cl.(pc := CountAll, streamId := if o.Works? then cl.newId else ""))
    case CountAll =>
      var r := Counted(c, ALL_EVENTS, o); (r.0, cl.(pc := CountType, seqId := r.1))
    case CountType =>
      var r := Counted(c, cl.streamType, o); (r.0, cl.(pc := InsertEvent, version := r.1))
    case InsertEvent =>
      if o.Fails? then (c, cl.(pc := ReplaceStream))
      else (c.(events := c.events + [EventOf(cl)]),
            cl.(pc := ReplaceStream, stored := true, rc := cl.rc + if o.Works? then 1 else 0))
    case ReplaceStream =>
      if o.Fails? then (c, cl.(pc := Done))
      else (c.(streams := c.streams[cl.streamId := DocOf(cl)]), cl.(pc := Done, rc := cl.rc + if o.Works? then 1 else 0))
  }

  /** A find that works returns a document of the type if there is one; the insert that may follow uses the same
      connection. */
  predicate Possible(c: Collections, cl: Client, o: Outcome) {
    && (cl.pc.Find? && o.Works? && HasType(c, cl.streamType) ==>
          o.pick in c.streams && c.streams[o.pick].streamType == cl.streamType)
    && (cl.pc.Create? ==> !o.Throws?)
  }

  // ---------------------------------------------------------------- all interleavings

  datatype System = System(db: Collections, clients: seq<Client>)

  datatype Action = Start(streamType: string, data: string, newId: string) | Step(i: nat, o: Outcome)

  const EMPTY := Collections(map[], map[], [])
  const START := System(EMPTY, [])

  predicate Enabled(s: System, a: Action) {
    match a
    case Start(_, _, _) => true
    case Step(i, o) => i < |s.clients| && s.clients[i].Active() && Possible(s.db, s.clients[i], o)
  }

  function Apply(s: System, a: Action): System
    requires Enabled(s, a)
  {
    match a
    case Start(t, d, id) => s.(clients := s.clients + [NewClient(t, d, id)])
    case Step(i, o) => var r := Advance(s.db, s.clients[i], o); System(r.0, s.clients[i := r.1])
  }

  predicate Runs(s: System, acts: seq<Action>)
    decreases acts
  {
    acts == [] || (Enabled(s, acts[0]) && Runs(Apply(s, acts[0]), acts[1..]))
  }

  function Exec(s: System, acts: seq<Action>): System
    requires Runs(s, acts)
    decreases acts
  {
    if acts == [] then s else Exec(Apply(s, acts[0]), acts[1..])
  }

  // ---------------------------------------------------------------- numbers are never used twice

  /** The client has drawn a sequence id that is not stored yet. */
  predicate HoldsSeq(cl: Client) {
    cl.seqId >= 0 && (cl.pc.CountType? || cl.pc.InsertEvent? || (cl.pc.ReplaceStream? && !cl.stored))
  }

  predicate HoldsVersion(cl: Client) {
    cl.version >= 0 && (cl.pc.InsertEvent? || (cl.pc.ReplaceStream? && !cl.stored))
  }

  predicate EventsDiffer(a: EventDoc, b: EventDoc) {
    && (a.seqId >= 0 ==> a.seqId != b.seqId)
    && (a.version >= 0 && a.streamType == b.streamType ==> a.version != b.version)
  }

  ghost predicate EventOk(c: Collections, e: EventDoc) {
    && (e.seqId >= 0 ==> 1 <= e.seqId <= CounterOf(c, ALL_EVENTS))
    && (e.version >= 0 ==> 1 <= e.version <= CounterOf(c, e.streamType))
  }

  ghost predicate ClientOk(c: Collections, cl: Client) {
    && (HoldsSeq(cl) ==> 1 <= cl.seqId <= CounterOf(c, ALL_EVENTS) && forall k :: 0 <= k < |c.events| ==> c.events[k].seqId != cl.seqId)
    && (HoldsVersion(cl) ==> 1 <= cl.version <= CounterOf(c, cl.streamType))
    && (HoldsVersion(cl) ==> forall k :: 0 <= k < |c.events| && c.events[k].streamType == cl.streamType ==> c.events[k].version != cl.version)
    && (cl.pc.InsertEvent? ==> cl.seqId >= -1 && cl.version >= -1)
    && (cl.pc.CountType? ==> cl.seqId >= -1)
    && (cl.stored ==> !cl.pc.Find? && !cl.pc.Create? && !cl.pc.CountAll? && !cl.pc.CountType? && !cl.pc.InsertEvent?)
  }

  ghost predicate ClientsDiffer(a: Client, b: Client) {
    && (HoldsSeq(a) && HoldsSeq(b) ==> a.seqId != b.seqId)
    && (HoldsVersion(a) && HoldsVersion(b) && a.streamType == b.streamType ==> a.version != b.version)
  }

  ghost predicate Inv(s: System) {
    && (forall a, b :: 0 <= a < b < |s.db.events| ==> EventsDiffer(s.db.events[a], s.db.events[b]))
    && (forall a :: 0 <= a < |s.db.events| ==> EventOk(s.db, s.db.events[a]))
    && (forall i :: 0 <= i < |s.clients| ==> ClientOk(s.db, s.clients[i]))
    && (forall i, j :: 0 <= i < j < |s.clients| ==> ClientsDiffer(s.clients[i], s.clients[j]))
  }

  lemma AdvanceKeepsEvents(c: Collections, cl: Client, o: Outcome)
    requires cl.Active() && ClientOk(c, cl)
    requires forall a, b :: 0 <= a < b < |c.events| ==> EventsDiffer(c.events[a], c.events[b])
    requires forall a :: 0 <= a < |c.events| ==> EventOk(c, c.events[a])
    ensures var c' := Advance(c, cl, o).0;
      && (forall a, b :: 0 <= a < b < |c'.events| ==> EventsDiffer(c'.events[a], c'.events[b]))
      && (forall a :: 0 <= a < |c'.events| ==> EventOk(c', c'.events[a]))
  {
  }

  lemma AdvanceKeepsClient(c: Collections, cl: Client, o: Outcome)
    requires cl.Active() && ClientOk(c, cl)
    requires forall a :: 0 <= a < |c.events| ==> EventOk(c, c.events[a])
    ensures ClientOk(Advance(c, cl, o).0, Advance(c, cl, o).1)
  {
  }

  lemma AdvanceKeepsOtherOk(c: Collections, cl: Client, o: Outcome, other: Client)
    requires cl.Active() && ClientOk(c, cl) && ClientOk(c, other) && ClientsDiffer(cl, other)
    ensures ClientOk(Advance(c, cl, o).0, other)
  {
  }

  lemma AdvanceKeepsDiffering(c: Collections, cl: Client, o: Outcome, other: Client)
    requires cl.Active() && ClientOk(c, cl) && ClientOk(c, other) && ClientsDiffer(cl, other)
    ensures ClientsDiffer(Advance(c, cl, o).1, other)
  {
  }

  lemma ActionKeepsInv(s: System, a: Action)
    requires Inv(s) && Enabled(s, a)
    ensures Inv(Apply(s, a))
  {
    if a.Step? {
      var cl, s' := s.clients[a.i], Apply(s, a);
      AdvanceKeepsEvents(s.db, cl, a.o);
      AdvanceKeepsClient(s.db, cl, a.o);
      forall j | 0 <= j < |s.clients| && j != a.i ensures ClientOk(s'.db, s.clients[j]) && ClientsDiffer(s'.clients[a.i], s.clients[j]) {
        assert ClientsDiffer(cl, s.clients[j]) by {
          assert j < a.i ==> ClientsDiffer(s.clients[j], cl);
        }
        AdvanceKeepsOtherOk(s.db, cl, a.o, s.clients[j]);
        AdvanceKeepsDiffering(s.db, cl, a.o, s.clients[j]);
      }
    }
  }

  lemma {:induction false} RunKeepsInv(s: System, acts: seq<Action>)
    requires Inv(s) && Runs(s, acts)
    ensures Inv(Exec(s, acts))
    decreases acts
  {
    if acts != [] {
      ActionKeepsInv(s, acts[0]);
      RunKeepsInv(Apply(s, acts[0]), acts[1..]);
    }
  }

  /** Whatever the interleaving and the failures: the stored events with a sequence id have pairwise different ones,
      those with a version differ in type or version, and every number lies between 1 and its counter. */
  lemma NumbersAreUnique(acts: seq<Action>)
    requires Runs(START, acts)
    ensures var c := Exec(START, acts).db;
      && (forall a, b :: 0 <= a < b < |c.events| ==> EventsDiffer(c.events[a], c.events[b]))
      && (forall a :: 0 <= a < |c.events| ==> EventOk(c, c.events[a]))
  {
    RunKeepsInv(START, acts);
  }

  // ---------------------------------------------------------------- snapshots and events

  /** Some stored event is the one the document was saved for. */
  predicate Matches(events: seq<EventDoc>, id: string, d: StreamDoc)
    requires d.Saved?
  {
    exists k :: 0 <= k < |events| && events[k].streamId == id && events[k].streamType == d.streamType
                && events[k].version == d.version && events[k].data == d.snapshot
  }

  ghost predicate DocsMatch(c: Collections) {
    forall id :: id in c.streams && c.streams[id].Saved? ==> Matches(c.events, id, c.streams[id])
  }

  predicate StoredIsThere(c: Collections, cl: Client) {
    cl.stored ==> exists k :: 0 <= k < |c.events| && c.events[k] == EventOf(cl)
  }

  ghost predicate AllStoredThere(s: System) {
    forall i :: 0 <= i < |s.clients| ==> StoredIsThere(s.db, s.clients[i])
  }

  /** Clients about to replace the stream document have inserted their event. */
  ghost predicate InsertedFirst(s: System) {
    forall i :: 0 <= i < |s.clients| && s.clients[i].pc.ReplaceStream? ==> s.clients[i].stored
  }

  predicate InsertFails(s: System, a: Action) {
    a.Step? && a.i < |s.clients| && s.clients[a.i].pc.InsertEvent? && a.o.Fails?
  }

  predicate NoInsertFails(s: System, acts: seq<Action>)
    requires Runs(s, acts)
    decreases acts
  {
    acts == [] || (!InsertFails(s, acts[0]) && NoInsertFails(Apply(s, acts[0]), acts[1..]))
  }

  lemma MoreEventsMatch(events: seq<EventDoc>, e: EventDoc, id: string, d: StreamDoc)
    requires d.Saved? && Matches(events, id, d)
    ensures Matches(events + [e], id, d)
  {
    var k :| 0 <= k < |events| && events[k].streamId == id && events[k].streamType == d.streamType
             && events[k].version == d.version && events[k].data == d.snapshot;
    assert (events + [e])[k] == events[k];
  }

  lemma AdvanceKeepsStored(c: Collections, cl: Client, o: Outcome, other: Client)
    requires cl.Active() && StoredIsThere(c, other)
    ensures StoredIsThere(Advance(c, cl, o).0, other)
  {
    if other.stored {
      var k :| 0 <= k < |c.events| && c.events[k] == EventOf(other);
      assert Advance(c, cl, o).0.events[k] == EventOf(other);
    }
  }

  lemma AdvanceKeepsOwnStored(c: Collections, cl: Client, o: Outcome)
    requires cl.Active() && ClientOk(c, cl) && StoredIsThere(c, cl)
    ensures StoredIsThere(Advance(c, cl, o).0, Advance(c, cl, o).1)
  {
    var r := Advance(c, cl, o);
    if cl.stored {
      AdvanceKeepsStored(c, cl, o, cl);
    } else if r.1.stored {
      assert r.0.events[|c.events|] == EventOf(r.1);
    }
  }

  lemma ActionKeepsStored(s: System, a: Action)
    requires Inv(s) && AllStoredThere(s) && Enabled(s, a)
    ensures AllStoredThere(Apply(s, a))
  {
    var s' := Apply(s, a);
    forall i | 0 <= i < |s'.clients| ensures StoredIsThere(s'.db, s'.clients[i]) {
      if a.Step? {
        if i == a.i {
          AdvanceKeepsOwnStored(s.db, s.clients[i], a.o);
        } else {
          AdvanceKeepsStored(s.db, s.clients[a.i], a.o, s.clients[i]);
        }
      } else if i < |s.clients| {
        assert StoredIsThere(s.db, s.clients[i]);
      }
    }
  }

  /** What a client with a version leaves behind: its stream document matches a stored event if and only if its own
      insert took effect. */
  lemma ReplaceMatchesIff(s: System, i: nat, o: Outcome)
    requires Inv(s) && AllStoredThere(s) && Enabled(s, Step(i, o))
    requires s.clients[i].pc.ReplaceStream? && s.clients[i].version >= 0 && !o.Fails? && !o.Throws?
    ensures var s' := Apply(s, Step(i, o)); var id := s.clients[i].streamId;
      && id in s'.db.streams && s'.db.streams[id].Saved?
      && (Matches(s'.db.events, id, s'.db.streams[id]) <==> s.clients[i].stored)
  {
    assert ClientOk(s.db, s.clients[i]) && StoredIsThere(s.db, s.clients[i]);
  }

  lemma ActionKeepsDocs(s: System, a: Action)
    requires Inv(s) && AllStoredThere(s) && InsertedFirst(s) && DocsMatch(s.db) && Enabled(s, a) && !InsertFails(s, a)
    ensures InsertedFirst(Apply(s, a)) && DocsMatch(Apply(s, a).db)
  {
    if a.Step? {
      var cl, c, c' := s.clients[a.i], s.db, Apply(s, a).db;
      assert StoredIsThere(c, cl);
      forall id | id in c'.streams && c'.streams[id].Saved? ensures Matches(c'.events, id, c'.streams[id]) {
        if id in c.streams && c.streams[id] == c'.streams[id] && cl.pc.InsertEvent? {
          MoreEventsMatch(c.events, EventOf(cl), id, c.streams[id]);
        }
      }
    }
  }

  lemma {:induction false} RunKeepsDocs(s: System, acts: seq<Action>)
    requires Inv(s) && AllStoredThere(s) && InsertedFirst(s) && DocsMatch(s.db) && Runs(s, acts) && NoInsertFails(s, acts)
    ensures DocsMatch(Exec(s, acts).db)
    decreases acts
  {
    if acts != [] {
      ActionKeepsInv(s, acts[0]);
      ActionKeepsStored(s, acts[0]);
      ActionKeepsDocs(s, acts[0]);
      RunKeepsDocs(Apply(s, acts[0]), acts[1..]);
    }
  }

  /** When no insert fails, every stream document that carries a version matches an event already stored with the
      same stream id, type, version and data, at every moment of every interleaving. */
  lemma SnapshotsMatchEvents(acts: seq<Action>)
    requires Runs(START, acts) && NoInsertFails(START, acts)
    ensures DocsMatch(Exec(START, acts).db)
  {
    RunKeepsDocs(START, acts);
  }
}
