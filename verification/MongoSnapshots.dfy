/**
 When the snapshot of a stream is the newest: in runs without failures in which every client has finished, a stream
 document is at least as new as every event of its type exactly when the last client to replace it is the last one to
 draw a version of the type.
 */
module MongoSnapshots {
  import opened Wrappers
  import opened MongoProtocol
  import opened MongoStreams

  /** No stored event of the document's type has a greater version. */
  ghost predicate UpToDate(c: Collections, id: string)
    requires id in c.streams
  {
    var d := c.streams[id];
    d.Saved? && forall k :: 0 <= k < |c.events| && c.events[k].streamType == d.streamType ==> c.events[k].version <= d.version
  }

  /** One replacement: the document is up to date exactly when the client's version is the greatest one stored. */
  lemma ReplaceUpToDateIff(s: System, i: nat, o: Outcome)
    requires Enabled(s, Step(i, o)) && s.clients[i].pc.ReplaceStream? && !o.Fails? && !o.Throws?
    ensures var cl, c' := s.clients[i], Apply(s, Step(i, o)).db;
      && cl.streamId in c'.streams
      && (UpToDate(c', cl.streamId)
          <==> forall k :: 0 <= k < |s.db.events| && s.db.events[k].streamType == cl.streamType ==> s.db.events[k].version <= cl.version)
  {
  }

  // ---------------------------------------------------------------- who drew and who replaced last

  predicate Draws(s: System, a: Action, streamType: string)
    requires Enabled(s, a)
  {
    a.Step? && s.clients[a.i].pc.CountType? && s.clients[a.i].streamType == streamType
  }

  predicate Replaces(s: System, a: Action, id: string)
    requires Enabled(s, a)
  {
    a.Step? && s.clients[a.i].pc.ReplaceStream? && s.clients[a.i].streamId == id
  }

  function LastDrawer(s: System, acts: seq<Action>, streamType: string, last: Option<nat>): Option<nat>
    requires Runs(s, acts)
    decreases acts
  {
    if acts == [] then last
    else LastDrawer(Apply(s, acts[0]), acts[1..], streamType, if Draws(s, acts[0], streamType) then Some(acts[0].i) else last)
  }

  function LastReplacer(s: System, acts: seq<Action>, id: string, last: Option<nat>): Option<nat>
    requires Runs(s, acts)
    decreases acts
  {
    if acts == [] then last
    else LastReplacer(Apply(s, acts[0]), acts[1..], id, if Replaces(s, acts[0], id) then Some(acts[0].i) else last)
  }

  predicate HasDrawn(cl: Client) {
    cl.pc.InsertEvent? || cl.pc.ReplaceStream? || cl.pc.Done?
  }

  /** d drew last: its version is the greatest drawn, and no event of the type has a greater one. */
  ghost predicate DrawnLast(s: System, streamType: string, d: Option<nat>) {
    && (d.Some? ==> d.value < |s.clients| && HasDrawn(s.clients[d.value]) && s.clients[d.value].streamType == streamType
                    && s.clients[d.value].version <= CounterOf(s.db, streamType))
    && (forall j :: 0 <= j < |s.clients| && HasDrawn(s.clients[j]) && s.clients[j].streamType == streamType ==>
          d.Some? && (j == d.value || s.clients[j].version < s.clients[d.value].version))
    && (forall k :: 0 <= k < |s.db.events| && s.db.events[k].streamType == streamType ==>
          d.Some? && s.db.events[k].version <= s.clients[d.value].version)
  }

  /** r replaced last: the document is the one it saved. */
  ghost predicate ReplacedLast(s: System, id: string, r: Option<nat>) {
    && (r.Some? ==> r.value < |s.clients| && s.clients[r.value].pc.Done? && id in s.db.streams && s.db.streams[id] == DocOf(s.clients[r.value]))
    && (r.None? && id in s.db.streams ==> s.db.streams[id].Reserved?)
  }

  /** Without failures a client that is past its insert has stored its event. */
  ghost predicate AllStored(s: System) {
    forall i :: 0 <= i < |s.clients| && (s.clients[i].pc.ReplaceStream? || s.clients[i].pc.Done?) ==> s.clients[i].stored
  }

  lemma StepKeepsAllStored(s: System, a: Action)
    requires AllStored(s) && Enabled(s, a) && StepWorks(s, a)
    ensures AllStored(Apply(s, a))
  {
  }

  lemma StepKeepsReplacedLast(s: System, a: Action, id: string, r: Option<nat>)
    requires ReplacedLast(s, id, r) && Enabled(s, a) && StepWorks(s, a)
    ensures ReplacedLast(Apply(s, a), id, if Replaces(s, a, id) then Some(a.i) else r)
  {
  }

  lemma DrawKeepsDrawnLast(s: System, a: Action, streamType: string, d: Option<nat>)
    requires DrawnLast(s, streamType, d) && Enabled(s, a) && StepWorks(s, a) && Draws(s, a, streamType)
    ensures DrawnLast(Apply(s, a), streamType, Some(a.i))
  {
    var s' := Apply(s, a);
    assert s'.clients[a.i].version == CounterOf(s.db, streamType) + 1;
    forall j | 0 <= j < |s.clients| && j != a.i ensures s'.clients[j] == s.clients[j] {
    }
  }

  lemma InsertKeepsDrawnLast(s: System, a: Action, streamType: string, d: Option<nat>)
    requires DrawnLast(s, streamType, d) && Enabled(s, a) && StepWorks(s, a) && a.Step? && s.clients[a.i].pc.InsertEvent?
    ensures DrawnLast(Apply(s, a), streamType, d)
  {
    var s', cl := Apply(s, a), s.clients[a.i];
    forall k | 0 <= k < |s'.db.events| && s'.db.events[k].streamType == streamType
      ensures d.Some? && s'.db.events[k].version <= s.clients[d.value].version
    {
      if k == |s.db.events| {
        assert s'.db.events[k] == EventOf(cl);
      }
    }
  }

  lemma OtherKeepsDrawnLast(s: System, a: Action, streamType: string, d: Option<nat>)
    requires DrawnLast(s, streamType, d) && Enabled(s, a) && StepWorks(s, a) && !Draws(s, a, streamType)
    requires a.Step? ==> !s.clients[a.i].pc.InsertEvent?
    ensures DrawnLast(Apply(s, a), streamType, d)
  {
  }

  lemma StepKeepsDrawnLast(s: System, a: Action, streamType: string, d: Option<nat>)
    requires DrawnLast(s, streamType, d) && Enabled(s, a) && StepWorks(s, a)
    ensures DrawnLast(Apply(s, a), streamType, if Draws(s, a, streamType) then Some(a.i) else d)
  {
    if Draws(s, a, streamType) {
      DrawKeepsDrawnLast(s, a, streamType, d);
    } else if a.Step? && s.clients[a.i].pc.InsertEvent? {
      InsertKeepsDrawnLast(s, a, streamType, d);
    } else {
      OtherKeepsDrawnLast(s, a, streamType, d);
    }
  }

  ghost predicate Tracked(s: System, streamType: string, id: string, d: Option<nat>, r: Option<nat>) {
    Inv(s) && AllStoredThere(s) && AllStored(s) && DrawnLast(s, streamType, d) && ReplacedLast(s, id, r)
  }

  lemma {:induction false} RunKeepsTracked(s: System, acts: seq<Action>, streamType: string, id: string, d: Option<nat>, r: Option<nat>)
    requires Runs(s, acts) && AllStepsWork(s, acts) && Tracked(s, streamType, id, d, r)
    ensures Tracked(Exec(s, acts), streamType, id, LastDrawer(s, acts, streamType, d), LastReplacer(s, acts, id, r))
    decreases acts
  {
    if acts != [] {
      ActionKeepsInv(s, acts[0]);
      ActionKeepsStored(s, acts[0]);
      StepKeepsAllStored(s, acts[0]);
      StepKeepsDrawnLast(s, acts[0], streamType, d);
      StepKeepsReplacedLast(s, acts[0], id, r);
      RunKeepsTracked(Apply(s, acts[0]), acts[1..], streamType, id,
                      if Draws(s, acts[0], streamType) then Some(acts[0].i) else d,
                      if Replaces(s, acts[0], id) then Some(acts[0].i) else r);
    }
  }

  ghost predicate AllDone(s: System) {
    forall i :: 0 <= i < |s.clients| ==> s.clients[i].pc.Done?
  }

  lemma TrackedEndIff(s: System, streamType: string, id: string, d: Option<nat>, r: Option<nat>)
    requires Tracked(s, streamType, id, d, r) && AllDone(s) && id in s.db.streams && s.db.streams[id].streamType == streamType
    ensures UpToDate(s.db, id) <==> r.Some? && r == d
  {
    if r.Some? {
      assert HasDrawn(s.clients[r.value]) && s.clients[r.value].streamType == streamType;
      assert StoredIsThere(s.db, s.clients[d.value]);
      var k :| 0 <= k < |s.db.events| && s.db.events[k] == EventOf(s.clients[d.value]);
      assert s.db.events[k].streamType == streamType;
    }
  }

  /** Over every run without failures in which every client has finished: a stream document is at least as new as every
      stored event of its type if and only if the last client to replace it is the last one to draw a version of the
      type. */
  lemma UpToDateIff(acts: seq<Action>, id: string)
    requires Runs(START, acts) && AllStepsWork(START, acts) && AllDone(Exec(START, acts)) && id in Exec(START, acts).db.streams
    ensures var c := Exec(START, acts).db; var r := LastReplacer(START, acts, id, None);
      UpToDate(c, id) <==> r.Some? && r == LastDrawer(START, acts, c.streams[id].streamType, None)
  {
    var t := Exec(START, acts).db.streams[id].streamType;
    RunKeepsTracked(START, acts, t, id, None, None);
    TrackedEndIff(Exec(START, acts), t, id, LastDrawer(START, acts, t, None), LastReplacer(START, acts, id, None));
  }
}
