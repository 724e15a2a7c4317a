/** SaveOne as it is written, and what failure-free saves that do not overlap leave behind. */
module MongoEventStore {
  import opened Wrappers
  import opened MongoProtocol

  function Rank(pc: Pc): nat {
    match pc
    case Find => 6
    case Create => 5
    case CountAll => 4
    case CountType => 3
    case InsertEvent => 2
    case ReplaceStream => 1
    case _ => 0
  }

  /** A client that nobody interrupts, with the outcome of each of its operations. */
  function RunAlone(c: Collections, cl: Client, o: Pc -> Outcome): (Collections, Client)
    decreases Rank(cl.pc)
  {
    if cl.Active() then var r := Advance(c, cl, o(cl.pc)); RunAlone(r.0, r.1, o) else (c, cl)
  }

  class EventStore {
    var streams: map<string, StreamDoc>
    var counters: map<string, nat>
    var events: seq<EventDoc>

    function Contents(): Collections
      reads this
    {
      Collections(streams, counters, events)
    }

    constructor ()
      ensures Contents() == EMPTY
    {
      streams, counters, events := map[], map[], [];
    }

    /** find_one_and_update on a counter; nothing is returned when a string is thrown. */
    method GetNextSequenceValue(name: string, o: Outcome) returns (value: Option<int>)
      modifies this`counters
      ensures value.None? <==> o.Throws?
      ensures (Contents(), value.GetOr(-1)) == Counted(old(Contents()), name, o)
    {
      match o {
        case Throws =>
          value := None;
        case Fails =>
          value := Some(-1);
        case _ =>
          var next := (if name in counters then counters[name] else 0) + 1;
          counters := counters[name := next];
          value := Some(if o.Works? then next else -1);
      }
    }

    /** Find a stream of the type, or else create one under the given id. */
    method GetUid(typeName: string, uid: string, find: Outcome, create: Outcome) returns (id: Option<string>)
      requires find.Works? && HasType(Contents(), typeName) ==> find.pick in streams && streams[find.pick].streamType == typeName
      requires !create.Throws?
      modifies this`streams
      ensures var c := old(Contents());
        if find.Throws? then id == None && Contents() == c
        else if !find.Works? then id == Some("") && Contents() == c
        else if HasType(c, typeName) then id == Some(find.pick) && Contents() == c
        else if create.Fails? || uid in c.streams then id == Some("") && Contents() == c
        else id == Some(if create.Works? then uid else "") && Contents() == c.(streams := c.streams[uid := Reserved(typeName)])
    {
      if find.Throws? {
        return None;
      }
      id := Some("");
      if find.Works? {
        if exists k :: k in streams && streams[k].streamType == typeName {
          id := Some(find.pick);
        } else if !create.Fails? && uid !in streams {
          streams := streams[uid := Reserved(typeName)];
          id := Some(if create.Works? then uid else "");
        }
      }
    }

    method InsertOne(e: EventDoc, o: Outcome) returns (rc: Option<nat>)
      modifies this`events
      ensures events == if o.Fails? || o.Throws? then old(events) else old(events) + [e]
      ensures rc == if o.Throws? then None else Some(if o.Works? then 1 else 0)
    {
      if o.Throws? {
        return None;
      }
      if !o.Fails? {
        events := events + [e];
      }
      rc := Some(if o.Works? then 1 else 0);
    }

    /** replace_one with the upsert option: the document is replaced, or created under the id. */
    method UpsertOne(d: StreamDoc, id: string, o: Outcome) returns (rc: Option<nat>)
      modifies this`streams
      ensures streams == if o.Fails? || o.Throws? then old(streams) else old(streams)[id := d]
      ensures rc == if o.Throws? then None else Some(if o.Works? then 1 else 0)
    {
      if o.Throws? {
        return None;
      }
      if !o.Fails? {
        streams := streams[id := d];
      }
      rc := Some(if o.Works? then 1 else 0);
    }

    /** Insert the event and replace the stream document. */
    method Store(cl: Client, o: Pc -> Outcome) returns (rc: Option<nat>)
      requires cl.pc.InsertEvent? && cl.rc == 0 && !cl.stored
      modifies this`events, this`streams
      ensures var r := RunAlone(old(Contents()), cl, o);
        Contents() == r.0 && rc == (if r.1.pc.Done? then Some(r.1.rc) else None) && (r.1.pc.Done? || r.1.pc.Stopped?)
    {
      ghost var c0 := Contents();
      var inserted := InsertOne(EventOf(cl), o(InsertEvent));
      if inserted.None? {
        return None;
      }
      ghost var c1, cl1 := Contents(), cl.(pc := ReplaceStream, stored := !o(InsertEvent).Fails?, rc := inserted.value);
      RunStep(c0, cl, o, c1, cl1);
      var replaced := UpsertOne(DocOf(cl), cl.streamId, o(ReplaceStream));
      if replaced.None? {
        return None;
      }
      RunStep(c1, cl1, o, Contents(), cl1.(pc := Done, rc := inserted.value + replaced.value));
      rc := Some(inserted.value + replaced.value);
    }

    /** Draw the numbers of the event. */
    method Draw(cl: Client, o: Pc -> Outcome) returns (r: Option<Client>)
      requires cl.pc.CountAll?
      modifies this`counters
      ensures r.None? ==> RunAlone(old(Contents()), cl, o) == (Contents(), RunAlone(old(Contents()), cl, o).1)
      ensures r.None? ==> RunAlone(old(Contents()), cl, o).1.pc.Stopped?
      ensures r.Some? ==> r.value.pc.InsertEvent? && r.value.rc == cl.rc && r.value.stored == cl.stored
      ensures r.Some? ==> RunAlone(old(Contents()), cl, o) == RunAlone(Contents(), r.value, o)
    {
      ghost var c0 := Contents();
      var globalSeq := GetNextSequenceValue(ALL_EVENTS, o(CountAll));
      if globalSeq.None? {
        return None;
      }
      ghost var c1 := Contents();
      var cl1 := cl.(pc := CountType, seqId := globalSeq.value);
      RunStep(c0, cl, o, c1, cl1);
      var nextVer := GetNextSequenceValue(cl.streamType, o(CountType));
      if nextVer.None? {
        return None;
      }
      var cl2 := cl1.(pc := InsertEvent, version := nextVer.value);
      RunStep(c1, cl1, o, Contents(), cl2);
      r := Some(cl2);
    }

    /** Every combination of outcomes: nothing is returned when a string was thrown on the way. */
    method SaveOne(streamType: string, streamObj: string, newId: string, o: Pc -> Outcome) returns (rc: Option<nat>)
      requires Possible(Contents(), NewClient(streamType, streamObj, newId), o(Find)) && !o(Create).Throws?
      modifies this
      ensures var r := RunAlone(old(Contents()), NewClient(streamType, streamObj, newId), o);
        Contents() == r.0 && rc == (if r.1.pc.Done? then Some(r.1.rc) else None) && (r.1.pc.Done? || r.1.pc.Stopped?)
    {
      ghost var c0 := Contents();
      var cl := NewClient(streamType, streamObj, newId);
      var streamId := GetUid(streamType, newId, o(Find), o(Create));
      if streamId.None? {
        return None;
      }
      UidFound(c0, cl, o, Contents(), streamId.value);
      var drawn := Draw(cl.(pc := CountAll, streamId := streamId.value), o);
      if drawn.None? {
        return None;
      }
      rc := Store(drawn.value, o);
    }
  }

  lemma RunStep(c: Collections, cl: Client, o: Pc -> Outcome, c': Collections, cl': Client)
    requires cl.Active() && Advance(c, cl, o(cl.pc)) == (c', cl')
    ensures RunAlone(c, cl, o) == RunAlone(c', cl', o)
    ensures cl'.pc.Done? ==> RunAlone(c, cl, o) == (c', cl')
  {
  }

  lemma UidFound(c: Collections, cl: Client, o: Pc -> Outcome, c': Collections, id: string)
    requires cl.pc.Find? && cl.streamId == ""
    requires !o(Find).Throws? && !o(Create).Throws?
    requires if !o(Find).Works? then id == "" && c' == c
      else if HasType(c, cl.streamType) then id == o(Find).pick && c' == c
      else if o(Create).Fails? || cl.newId in c.streams then id == "" && c' == c
      else id == (if o(Create).Works? then cl.newId else "") && c' == c.(streams := c.streams[cl.newId := Reserved(cl.streamType)])
    ensures RunAlone(c, cl, o) == RunAlone(c', cl.(pc := CountAll, streamId := id), o)
  {
    if o(Find).Works? && !HasType(c, cl.streamType) {
      RunStep(c, cl, o, c, cl.(pc := Create));
      RunStep(c, cl.(pc := Create), o, c', cl.(pc := CountAll, streamId := id));
    }
  }

  // ---------------------------------------------------------------- what a save leaves, told by its outcomes

  /** The value a counter helper returns. */
  function Drawn(counters: map<string, nat>, name: string, o: Outcome): int {
    if o.Works? then (if name in counters then counters[name] else 0) + 1 else -1
  }

  function Bumped(counters: map<string, nat>, name: string, o: Outcome): map<string, nat> {
    if o.Fails? then counters else counters[name := (if name in counters then counters[name] else 0) + 1]
  }

  /** A client that has its stream id and is never without a connection: the numbers it draws, the event it inserts, the
      document it replaces, and the successes it counts. */
  lemma SavedFromId(c: Collections, cl: Client, o: Pc -> Outcome)
    requires cl.pc.CountAll? && cl.rc == 0 && !cl.stored && (forall pc :: !o(pc).Throws?)
    ensures var r := RunAlone(c, cl, o); var counters := Bumped(c.counters, "all_events", o(CountAll));
      var n, v := Drawn(c.counters, "all_events", o(CountAll)), Drawn(counters, cl.streamType, o(CountType));
      && r.1.pc.Done?
      && r.0.counters == Bumped(counters, cl.streamType, o(CountType))
      && r.0.events == (if o(InsertEvent).Fails? then c.events else c.events + [EventDoc(n, cl.streamId, cl.streamType, v, cl.data)])
      && r.0.streams == (if o(ReplaceStream).Fails? then c.streams else c.streams[cl.streamId := Saved(cl.streamType, cl.streamId, v, cl.data)])
      && r.1.rc == (if o(InsertEvent).Works? then 1 else 0) + (if o(ReplaceStream).Works? then 1 else 0)
  {
    var r := DrawsNumbers(c, cl, o);
    StoresEvent(r.0, r.1, o);
  }

  lemma DrawsNumbers(c: Collections, cl: Client, o: Pc -> Outcome) returns (r: (Collections, Client))
    requires cl.pc.CountAll? && (forall pc :: !o(pc).Throws?)
    ensures RunAlone(c, cl, o) == RunAlone(r.0, r.1, o)
    ensures var counters := Bumped(c.counters, "all_events", o(CountAll));
      && r.0 == c.(counters := Bumped(counters, cl.streamType, o(CountType)))
      && r.1 == cl.(pc := InsertEvent, seqId := Drawn(c.counters, "all_events", o(CountAll)), version := Drawn(counters, cl.streamType, o(CountType)))
  {
    var r1 := Advance(c, cl, o(CountAll));
    RunStep(c, cl, o, r1.0, r1.1);
    r := Advance(r1.0, r1.1, o(CountType));
    RunStep(r1.0, r1.1, o, r.0, r.1);
  }

  lemma StoresEvent(c: Collections, cl: Client, o: Pc -> Outcome)
    requires cl.pc.InsertEvent? && cl.rc == 0 && !cl.stored && (forall pc :: !o(pc).Throws?)
    ensures var r := RunAlone(c, cl, o);
      && r.1.pc.Done? && r.0.counters == c.counters
      && r.0.events == (if o(InsertEvent).Fails? then c.events else c.events + [EventDoc(cl.seqId, cl.streamId, cl.streamType, cl.version, cl.data)])
      && r.0.streams == (if o(ReplaceStream).Fails? then c.streams else c.streams[cl.streamId := Saved(cl.streamType, cl.streamId, cl.version, cl.data)])
      && r.1.rc == (if o(InsertEvent).Works? then 1 else 0) + (if o(ReplaceStream).Works? then 1 else 0)
  {
    var r1 := Advance(c, cl, o(InsertEvent));
    RunStep(c, cl, o, r1.0, r1.1);
    var r2 := Advance(r1.0, r1.1, o(ReplaceStream));
    RunStep(r1.0, r1.1, o, r2.0, r2.1);
  }

  /** How a save comes by its stream id: "" if its find fails, or its insert fails, hits a used id, or goes unanswered; the
      document found, if the type has one; else the new id, under which a document of the type is created. */
  lemma StreamIdFound(c: Collections, streamType: string, data: string, newId: string, o: Pc -> Outcome)
    requires !o(Find).Throws? && !o(Create).Throws?
    ensures var found := exists k :: k in c.streams && c.streams[k].streamType == streamType;
      var made := o(Find).Works? && !found && !o(Create).Fails? && newId !in c.streams;
      var id := if o(Find).Works? && found then o(Find).pick else if made && o(Create).Works? then newId else "";
      RunAlone(c, NewClient(streamType, data, newId), o)
      == RunAlone(if made then c.(streams := c.streams[newId := Reserved(streamType)]) else c,
                  NewClient(streamType, data, newId).(pc := CountAll, streamId := id), o)
  {
    var found := exists k :: k in c.streams && c.streams[k].streamType == streamType;
    var made := o(Find).Works? && !found && !o(Create).Fails? && newId !in c.streams;
    var id := if o(Find).Works? && found then o(Find).pick else if made && o(Create).Works? then newId else "";
    assert found == HasType(c, streamType);
    UidFound(c, NewClient(streamType, data, newId), o, if made then c.(streams := c.streams[newId := Reserved(streamType)]) else c, id);
  }

  /** A thrown string ends the save where it is. */
  lemma ThrownEnds(c: Collections, cl: Client, o: Pc -> Outcome)
    requires cl.Active() && o(cl.pc).Throws?
    ensures RunAlone(c, cl, o) == (c, cl.(pc := Stopped))
  {
  }

  // ---------------------------------------------------------------- failure-free serial saves

  /** `pick` is the stream document the find would return; `newId` the freshly generated id. */
  datatype Save = Save(streamType: string, data: string, newId: string, pick: string)

  function AllWork(pick: string): Pc -> Outcome {
    pc => Works(pick)
  }

  ghost function SaveAll(saves: seq<Save>): Collections {
    if saves == [] then EMPTY
    else
      var s := saves[|saves| - 1];
      RunAlone(SaveAll(saves[..|saves| - 1]), NewClient(s.streamType, s.data, s.newId), AllWork(s.pick)).0
  }

  ghost predicate Acceptable(c: Collections, s: Save) {
    && s.streamType != ALL_EVENTS
    && s.newId !in c.streams
    && (HasType(c, s.streamType) ==> s.pick in c.streams && c.streams[s.pick].streamType == s.streamType)
  }

  ghost predicate AllAcceptable(saves: seq<Save>) {
    saves == [] || (AllAcceptable(saves[..|saves| - 1]) && Acceptable(SaveAll(saves[..|saves| - 1]), saves[|saves| - 1]))
  }

  /** The number of saves of a type. */
  function Count(saves: seq<Save>, streamType: string): nat {
    if saves == [] then 0
    else Count(saves[..|saves| - 1], streamType) + if saves[|saves| - 1].streamType == streamType then 1 else 0
  }

  /** The data of the last save of a type. */
  function LastData(saves: seq<Save>, streamType: string): string {
    if saves == [] then ""
    else if saves[|saves| - 1].streamType == streamType then saves[|saves| - 1].data
    else LastData(saves[..|saves| - 1], streamType)
  }

  function StreamIdFor(c: Collections, s: Save): string {
    if HasType(c, s.streamType) then s.pick else s.newId
  }

  /** The collections after a failure-free save that gets the stream id, sequence id and version given. */
  function Extended(c: Collections, s: Save, id: string, n: nat, v: nat): Collections {
    Collections(c.streams[id := Saved(s.streamType, id, v, s.data)],
                c.counters[ALL_EVENTS := n][s.streamType := v],
                c.events + [EventDoc(n, id, s.streamType, v, s.data)])
  }

  function After(c: Collections, s: Save): Collections {
    Extended(c, s, StreamIdFor(c, s), CounterOf(c, ALL_EVENTS) + 1, CounterOf(c, s.streamType) + 1)
  }

  lemma SaveHasId(c: Collections, s: Save)
    requires Acceptable(c, s)
    ensures var id := StreamIdFor(c, s); var cl := NewClient(s.streamType, s.data, s.newId);
      RunAlone(c, cl, AllWork(s.pick))
      == RunAlone(if HasType(c, s.streamType) then c else c.(streams := c.streams[s.newId := Reserved(s.streamType)]),
                  cl.(pc := CountAll, streamId := id), AllWork(s.pick))
  {
    var c1 := if HasType(c, s.streamType) then c else c.(streams := c.streams[s.newId := Reserved(s.streamType)]);
    UidFound(c, NewClient(s.streamType, s.data, s.newId), AllWork(s.pick), c1, StreamIdFor(c, s));
  }

  lemma SaveFromId(c: Collections, cl: Client, o: Pc -> Outcome)
    requires cl.pc.CountAll? && cl.streamType != ALL_EVENTS && (forall pc :: o(pc).Works?)
    ensures var n := CounterOf(c, ALL_EVENTS) + 1; var v := CounterOf(c, cl.streamType) + 1;
      RunAlone(c, cl, o).0
      == Collections(c.streams[cl.streamId := Saved(cl.streamType, cl.streamId, v, cl.data)],
                     c.counters[ALL_EVENTS := n][cl.streamType := v],
                     c.events + [EventDoc(n, cl.streamId, cl.streamType, v, cl.data)])
  {
    var n, v := CounterOf(c, ALL_EVENTS) + 1, CounterOf(c, cl.streamType) + 1;
    var c1, cl1 := Increment(c, ALL_EVENTS), cl.(pc := CountType, seqId := n);
    RunStep(c, cl, o, c1, cl1);
    var c2, cl2 := Increment(c1, cl.streamType), cl1.(pc := InsertEvent, version := v);
    RunStep(c1, cl1, o, c2, cl2);
    var c3, cl3 := c2.(events := c2.events + [EventOf(cl2)]), cl2.(pc := ReplaceStream, stored := true, rc := cl.rc + 1);
    RunStep(c2, cl2, o, c3, cl3);
    RunStep(c3, cl3, o, c3.(streams := c3.streams[cl.streamId := DocOf(cl3)]), cl3.(pc := Done, rc := cl.rc + 2));
  }

  /** One failure-free save, all operations together. */
  lemma SaveAlone(c: Collections, s: Save)
    requires Acceptable(c, s)
    ensures RunAlone(c, NewClient(s.streamType, s.data, s.newId), AllWork(s.pick)).0 == After(c, s)
  {
    var id := StreamIdFor(c, s);
    var c1 := if HasType(c, s.streamType) then c else c.(streams := c.streams[s.newId := Reserved(s.streamType)]);
    SaveHasId(c, s);
    SaveFromId(c1, NewClient(s.streamType, s.data, s.newId).(pc := CountAll, streamId := id), AllWork(s.pick));
    assert c1.streams[id := Saved(s.streamType, id, 0, "")] == c.streams[id := Saved(s.streamType, id, 0, "")];
    var v := CounterOf(c, s.streamType) + 1;
    assert c1.streams[id := Saved(s.streamType, id, v, s.data)] == c.streams[id := Saved(s.streamType, id, v, s.data)];
  }

  /** Event k is the k-th save, with sequence id k + 1 and numbered within its type. */
  ghost predicate NumberedAt(events: seq<EventDoc>, saves: seq<Save>, k: nat)
    requires k < |events| == |saves|
  {
    && events[k].seqId == k + 1
    && events[k].streamType == saves[k].streamType && events[k].data == saves[k].data
    && events[k].version == Count(saves[..k + 1], saves[k].streamType)
  }

  ghost predicate NumberedInOrder(events: seq<EventDoc>, saves: seq<Save>) {
    |events| == |saves| && forall k :: 0 <= k < |saves| ==> NumberedAt(events, saves, k)
  }

  ghost predicate CountersOk(c: Collections, saves: seq<Save>) {
    CounterOf(c, ALL_EVENTS) == |saves| && forall t :: t != ALL_EVENTS ==> CounterOf(c, t) == Count(saves, t)
  }

  ghost predicate StreamOk(id: string, d: StreamDoc, saves: seq<Save>) {
    d.streamType != ALL_EVENTS && d == Saved(d.streamType, id, Count(saves, d.streamType), LastData(saves, d.streamType))
  }

  /** One stream document for each type, with the number of saves as version and the last data as snapshot. */
  ghost predicate StreamsOk(streams: map<string, StreamDoc>, saves: seq<Save>) {
    && (forall id :: id in streams ==> StreamOk(id, streams[id], saves))
    && (forall a, b :: a in streams && b in streams && a != b ==> streams[a].streamType != streams[b].streamType)
  }

  /** Every event refers to the stream document of its type. */
  ghost predicate EventsRefer(c: Collections) {
    forall k :: 0 <= k < |c.events| ==>
      c.events[k].streamId in c.streams && c.streams[c.events[k].streamId].streamType == c.events[k].streamType
  }

  /** Failure-free saves that do not overlap: sequence ids 1, 2, ... in save order over all types, versions 1, 2, ...
      within each type, one stream document for each type, which all its events share and which holds the number
      and the data of the last of them. */
  lemma {:induction false} SerialSaves(saves: seq<Save>)
    requires AllAcceptable(saves)
    ensures var c := SaveAll(saves);
      NumberedInOrder(c.events, saves) && CountersOk(c, saves) && StreamsOk(c.streams, saves) && EventsRefer(c)
  {
    if saves != [] {
      var init, s := saves[..|saves| - 1], saves[|saves| - 1];
      var c := SaveAll(init);
      SerialSaves(init);
      SaveAlone(c, s);
      assert saves == init + [s];
      OneMoreCounted(c, init, s);
      OneMoreNumbered(c, init, s);
      OneMoreStream(c, init, s);
      OneMoreRefers(c, s);
    }
  }

  lemma CountSnoc(saves: seq<Save>, s: Save, t: string)
    ensures Count(saves + [s], t) == Count(saves, t) + if s.streamType == t then 1 else 0
    ensures LastData(saves + [s], t) == if s.streamType == t then s.data else LastData(saves, t)
  {
    assert (saves + [s])[..|saves|] == saves;
  }

  lemma OneMoreCounted(c: Collections, saves: seq<Save>, s: Save)
    requires Acceptable(c, s) && CountersOk(c, saves)
    ensures CountersOk(After(c, s), saves + [s])
  {
    forall t | t != ALL_EVENTS ensures CounterOf(After(c, s), t) == Count(saves + [s], t) {
      CountSnoc(saves, s, t);
    }
  }

  lemma OneMoreNumbered(c: Collections, saves: seq<Save>, s: Save)
    requires Acceptable(c, s) && NumberedInOrder(c.events, saves) && CountersOk(c, saves)
    ensures NumberedInOrder(After(c, s).events, saves + [s])
  {
    var events', saves' := After(c, s).events, saves + [s];
    forall k | 0 <= k < |saves'| ensures NumberedAt(events', saves', k) {
      if k < |saves| {
        assert NumberedAt(c.events, saves, k);
        assert saves'[..k + 1] == saves[..k + 1];
      } else {
        assert saves'[..k + 1] == saves';
        CountSnoc(saves, s, s.streamType);
      }
    }
  }

  lemma OneMoreStream(c: Collections, saves: seq<Save>, s: Save)
    requires Acceptable(c, s) && CountersOk(c, saves) && StreamsOk(c.streams, saves)
    ensures StreamsOk(After(c, s).streams, saves + [s])
  {
    var id, streams' := StreamIdFor(c, s), After(c, s).streams;
    forall k | k in streams' ensures StreamOk(k, streams'[k], saves + [s]) {
      CountSnoc(saves, s, streams'[k].streamType);
      if k != id {
        assert StreamOk(k, c.streams[k], saves);
      }
    }
  }

  lemma OneMoreRefers(c: Collections, s: Save)
    requires Acceptable(c, s) && EventsRefer(c)
    ensures EventsRefer(After(c, s))
  {
  }

  /** Hence all events of a type share one stream id, and that stream document is the only one of the type. */
  lemma TypeHasOneStream(saves: seq<Save>, j: nat, k: nat, id: string)
    requires AllAcceptable(saves) && j < |saves| && k < |saves| && saves[j].streamType == saves[k].streamType
    requires id in SaveAll(saves).streams && SaveAll(saves).streams[id].streamType == saves[j].streamType
    ensures |SaveAll(saves).events| == |saves|
    ensures SaveAll(saves).events[j].streamId == SaveAll(saves).events[k].streamId == id
  {
    SerialSaves(saves);
    var c := SaveAll(saves);
    assert NumberedAt(c.events, saves, j) && NumberedAt(c.events, saves, k);
  }
}
