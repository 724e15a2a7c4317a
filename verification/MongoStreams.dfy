/**
 How many stream documents a type has: in any run, with any failures, when there is never more than one, and in runs
 without failures when there is one at the end.
 */
module MongoStreams {
  import opened MongoProtocol

  ghost predicate OnePerType(c: Collections) {
    forall a, b :: a in c.streams && b in c.streams && a != b ==> c.streams[a].streamType != c.streams[b].streamType
  }

  /** The step inserts a stream document. */
  predicate Creates(s: System, a: Action)
    requires Enabled(s, a)
  {
    a.Step? && s.clients[a.i].pc.Create? && !a.o.Fails? && s.clients[a.i].newId !in s.db.streams
  }

  /** The step replaces the document under "", which a client carries that was told of no stream id. */
  predicate ReplacesUnnamed(s: System, a: Action)
    requires Enabled(s, a)
  {
    a.Step? && s.clients[a.i].pc.ReplaceStream? && !a.o.Fails? && !a.o.Throws? && s.clients[a.i].streamId == ""
  }

  predicate HasNamed(c: Collections, streamType: string) {
    exists id :: id in c.streams && id != "" && c.streams[id].streamType == streamType
  }

  /** The step gives a type a further document: it creates one although the type has one, or it replaces the one under
      "" although the type has another. */
  predicate Doubles(s: System, a: Action)
    requires Enabled(s, a)
  {
    || (Creates(s, a) && HasType(s.db, s.clients[a.i].streamType))
    || (ReplacesUnnamed(s, a) && HasNamed(s.db, s.clients[a.i].streamType))
  }

  /** A named client works on a document of its own type. */
  ghost predicate NamedOk(c: Collections, cl: Client) {
    && cl.newId != ""
    && (cl.Active() && !cl.pc.Find? && !cl.pc.Create? && cl.streamId != "" ==>
          cl.streamId in c.streams && c.streams[cl.streamId].streamType == cl.streamType)
  }

  ghost predicate Named(s: System) {
    forall i :: 0 <= i < |s.clients| ==> NamedOk(s.db, s.clients[i])
  }

  /** Generated ids are not empty. */
  predicate IdsGiven(acts: seq<Action>) {
    forall k :: 0 <= k < |acts| && acts[k].Start? ==> acts[k].newId != ""
  }

  lemma AdvanceKeepsNamed(c: Collections, cl: Client, o: Outcome, other: Client)
    requires cl.Active() && Possible(c, cl, o) && NamedOk(c, cl) && NamedOk(c, other)
    ensures NamedOk(Advance(c, cl, o).0, other)
  {
  }

  lemma AdvanceKeepsOwnNamed(c: Collections, cl: Client, o: Outcome)
    requires cl.Active() && Possible(c, cl, o) && NamedOk(c, cl)
    ensures NamedOk(Advance(c, cl, o).0, Advance(c, cl, o).1)
  {
  }

  lemma ActionKeepsNamed(s: System, a: Action)
    requires Named(s) && Enabled(s, a) && (a.Start? ==> a.newId != "")
    ensures Named(Apply(s, a))
  {
    if a.Step? {
      AdvanceKeepsOwnNamed(s.db, s.clients[a.i], a.o);
      forall j | 0 <= j < |s.clients| && j != a.i ensures NamedOk(Apply(s, a).db, s.clients[j]) {
        AdvanceKeepsNamed(s.db, s.clients[a.i], a.o, s.clients[j]);
      }
    }
  }

  lemma OtherTypeThere(c: Collections, id: string, d: StreamDoc)
    requires OnePerType(c) && forall k :: k in c.streams && k != id ==> c.streams[k].streamType != d.streamType
    ensures OnePerType(c.(streams := c.streams[id := d]))
  {
  }

  lemma SameTypeThere(c: Collections, id: string, d: StreamDoc, k: string)
    requires k in c.streams && k != id && c.streams[k].streamType == d.streamType
    ensures !OnePerType(c.(streams := c.streams[id := d]))
  {
    var c' := c.(streams := c.streams[id := d]);
    assert k in c'.streams && id in c'.streams;
  }

  /** One step: there is still one document per type exactly when the step does not double one. */
  lemma StepKeepsOneIff(s: System, a: Action)
    requires Named(s) && Enabled(s, a) && OnePerType(s.db)
    ensures OnePerType(Apply(s, a).db) <==> !Doubles(s, a)
  {
    if Creates(s, a) {
      CreateKeepsOneIff(s, a);
    } else if a.Step? && s.clients[a.i].pc.ReplaceStream? && !a.o.Fails? && !a.o.Throws? {
      ReplaceKeepsOneIff(s, a);
    }
  }

  /** Creating a document keeps one per type exactly when its type has none yet. */
  lemma CreateKeepsOneIff(s: System, a: Action)
    requires Enabled(s, a) && OnePerType(s.db) && Creates(s, a)
    ensures OnePerType(Apply(s, a).db) <==> !HasType(s.db, s.clients[a.i].streamType)
  {
    var cl := s.clients[a.i];
    if HasType(s.db, cl.streamType) {
      var k :| k in s.db.streams && s.db.streams[k].streamType == cl.streamType;
      SameTypeThere(s.db, cl.newId, Reserved(cl.streamType), k);
    } else {
      OtherTypeThere(s.db, cl.newId, Reserved(cl.streamType));
    }
  }

  /** Replacing one keeps it, but for the path of a client that was told of no stream id: then exactly when its type
      has no document under a name. */
  lemma ReplaceKeepsOneIff(s: System, a: Action)
    requires Named(s) && Enabled(s, a) && OnePerType(s.db)
    requires a.Step? && s.clients[a.i].pc.ReplaceStream? && !a.o.Fails? && !a.o.Throws?
    ensures OnePerType(Apply(s, a).db) <==> (s.clients[a.i].streamId == "" ==> !HasNamed(s.db, s.clients[a.i].streamType))
  {
    var cl := s.clients[a.i];
    assert NamedOk(s.db, cl);
    if cl.streamId == "" && HasNamed(s.db, cl.streamType) {
      var k :| k in s.db.streams && k != "" && s.db.streams[k].streamType == cl.streamType;
      SameTypeThere(s.db, "", DocOf(cl), k);
    } else {
      OtherTypeThere(s.db, cl.streamId, DocOf(cl));
    }
  }

  ghost predicate AlwaysOnePerType(s: System, acts: seq<Action>)
    requires Runs(s, acts)
    decreases acts
  {
    OnePerType(s.db) && (acts != [] ==> AlwaysOnePerType(Apply(s, acts[0]), acts[1..]))
  }

  predicate NeverDoubles(s: System, acts: seq<Action>)
    requires Runs(s, acts)
    decreases acts
  {
    acts == [] || (!Doubles(s, acts[0]) && NeverDoubles(Apply(s, acts[0]), acts[1..]))
  }

  lemma {:induction false} AlwaysOneFromIff(s: System, acts: seq<Action>)
    requires Named(s) && OnePerType(s.db) && Runs(s, acts) && IdsGiven(acts)
    ensures AlwaysOnePerType(s, acts) <==> NeverDoubles(s, acts)
    decreases acts
  {
    if acts != [] {
      StepKeepsOneIff(s, acts[0]);
      ActionKeepsNamed(s, acts[0]);
      if OnePerType(Apply(s, acts[0]).db) {
        AlwaysOneFromIff(Apply(s, acts[0]), acts[1..]);
      } else if acts[1..] != [] {
        assert !AlwaysOnePerType(Apply(s, acts[0]), acts[1..]);
      }
    }
  }

  /** Over every run, with any failures: there is never more than one document per type exactly when no step doubles
      one. */
  lemma AlwaysOnePerTypeIff(acts: seq<Action>)
    requires Runs(START, acts) && IdsGiven(acts)
    ensures AlwaysOnePerType(START, acts) <==> NeverDoubles(START, acts)
  {
    AlwaysOneFromIff(START, acts);
  }

  // ---------------------------------------------------------------- the path of a failed find

  /** A client that finds nothing because of a failure goes on with the stream id "". */
  lemma FailedFindIsUnnamed(s: System, a: Action)
    requires Enabled(s, a) && a.Step? && s.clients[a.i].pc.Find? && !a.o.Works? && !a.o.Throws?
    ensures var cl := Apply(s, a).clients[a.i]; cl.pc.CountAll? && cl.streamId == ""
  {
  }

  /** Unnamed clients stay so, and what they store is under "". */
  lemma UnnamedStaysUnnamed(c: Collections, cl: Client, o: Outcome)
    requires cl.Active() && !cl.pc.Find? && !cl.pc.Create? && cl.streamId == ""
    ensures Advance(c, cl, o).1.streamId == ""
    ensures forall id :: id in Advance(c, cl, o).0.streams && id !in c.streams ==> id == ""
    ensures cl.pc.InsertEvent? && !o.Fails? && !o.Throws? ==> Advance(c, cl, o).0.events[|c.events|].streamId == ""
  {
  }

  // ---------------------------------------------------------------- runs without failures

  /** Everything works, and generated ids are new. */
  predicate StepWorks(s: System, a: Action)
    requires Enabled(s, a)
  {
    a.Step? ==> a.o.Works? && (s.clients[a.i].pc.Create? ==> s.clients[a.i].newId !in s.db.streams)
  }

  predicate AllStepsWork(s: System, acts: seq<Action>)
    requires Runs(s, acts)
    decreases acts
  {
    acts == [] || (StepWorks(s, acts[0]) && AllStepsWork(Apply(s, acts[0]), acts[1..]))
  }

  /** No document and no client has the id "". */
  ghost predicate NoUnnamed(s: System) {
    && "" !in s.db.streams
    && forall i :: 0 <= i < |s.clients| && !s.clients[i].pc.Find? && !s.clients[i].pc.Create? ==> s.clients[i].streamId != ""
  }

  lemma WorkingStepKeepsNamed(s: System, a: Action)
    requires Named(s) && NoUnnamed(s) && Enabled(s, a) && StepWorks(s, a) && (a.Start? ==> a.newId != "")
    ensures NoUnnamed(Apply(s, a))
  {
    if a.Step? {
      assert NamedOk(s.db, s.clients[a.i]);
    }
  }

  lemma WorkingReplace(s: System, a: Action)
    requires Named(s) && NoUnnamed(s) && Enabled(s, a) && StepWorks(s, a)
    ensures forall id :: id in s.db.streams ==> id in Apply(s, a).db.streams && Apply(s, a).db.streams[id].streamType == s.db.streams[id].streamType
  {
    if a.Step? {
      assert NamedOk(s.db, s.clients[a.i]);
    }
  }

  /** Two documents of a type stay two. */
  lemma WorkingStepKeepsTwo(s: System, a: Action)
    requires Named(s) && NoUnnamed(s) && Enabled(s, a) && StepWorks(s, a) && !OnePerType(s.db)
    ensures !OnePerType(Apply(s, a).db)
  {
    WorkingReplace(s, a);
    var x, y :| x in s.db.streams && y in s.db.streams && x != y && s.db.streams[x].streamType == s.db.streams[y].streamType;
    assert x in Apply(s, a).db.streams && y in Apply(s, a).db.streams;
  }

  /** Every document was created while its type had none. */
  predicate CreatesAlone(s: System, acts: seq<Action>)
    requires Runs(s, acts)
    decreases acts
  {
    acts == []
    || ((Creates(s, acts[0]) ==> !HasType(s.db, s.clients[acts[0].i].streamType)) && CreatesAlone(Apply(s, acts[0]), acts[1..]))
  }

  lemma {:induction false} TwoStayTwo(s: System, acts: seq<Action>)
    requires Named(s) && NoUnnamed(s) && Runs(s, acts) && IdsGiven(acts) && AllStepsWork(s, acts) && !OnePerType(s.db)
    ensures !OnePerType(Exec(s, acts).db)
    decreases acts
  {
    if acts != [] {
      WorkingStepKeepsTwo(s, acts[0]);
      ActionKeepsNamed(s, acts[0]);
      WorkingStepKeepsNamed(s, acts[0]);
      TwoStayTwo(Apply(s, acts[0]), acts[1..]);
    }
  }

  lemma {:induction false} OneAtTheEndFromIff(s: System, acts: seq<Action>)
    requires Named(s) && NoUnnamed(s) && OnePerType(s.db) && Runs(s, acts) && IdsGiven(acts) && AllStepsWork(s, acts)
    ensures OnePerType(Exec(s, acts).db) <==> CreatesAlone(s, acts)
    decreases acts
  {
    if acts != [] {
      var s' := Apply(s, acts[0]);
      StepKeepsOneIff(s, acts[0]);
      ActionKeepsNamed(s, acts[0]);
      WorkingStepKeepsNamed(s, acts[0]);
      assert !ReplacesUnnamed(s, acts[0]);
      if OnePerType(s'.db) {
        OneAtTheEndFromIff(s', acts[1..]);
      } else {
        TwoStayTwo(s', acts[1..]);
      }
    }
  }

  /** Over every run without failures, of any number of clients: at the end every type has at most one stream document
      if and only if every document was created while its type had none. */
  lemma OneAtTheEndIff(acts: seq<Action>)
    requires Runs(START, acts) && IdsGiven(acts) && AllStepsWork(START, acts)
    ensures OnePerType(Exec(START, acts).db) <==> CreatesAlone(START, acts)
  {
    OneAtTheEndFromIff(START, acts);
  }
}
