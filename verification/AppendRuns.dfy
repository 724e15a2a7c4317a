/** Every run of mt_append_event: the committed tables are serial and gap free, stale calls never commit, and a call that
    runs alone commits; and what a call without events can do. */
module AppendRuns {
  import opened AppendProtocol

  /** Committing keeps the invariant exactly when the call carries an event or its read is not stale. */
  lemma CommitKeepsInvIff(s: System, i: nat)
    requires Inv(s) && Enabled(s, Step(i)) && s.txs[i].pc.Finish?
    ensures s.txs[i].call.ids == [] && s.txs[i].base != VersionOf(s.tables, s.txs[i].call.stream)
        ==> !GapFree(Apply(s, Step(i)).tables)
    ensures Inv(Apply(s, Step(i)))
       <==> (|s.txs[i].call.ids| >= 1 || s.txs[i].base == VersionOf(s.tables, s.txs[i].call.stream))
  {
    var t := s.txs[i];
    if t.base == VersionOf(s.tables, t.call.stream) {
      FreshCommitKeepsInv(s, i);
    } else {
      var s' := Apply(s, Step(i));
      assert GapFreeAt(s.tables, t.call.stream);
      assert s'.tables.events == s.tables.events;
      assert !GapFreeAt(s'.tables, t.call.stream);
    }
  }

  // ---------------------------------------------------------------- all runs

  ghost predicate AllNonEmpty(s: System) {
    forall i :: 0 <= i < |s.txs| ==> |s.txs[i].call.ids| >= 1
  }

  lemma ActionKeepsNonEmpty(s: System, a: Action)
    requires AllNonEmpty(s) && Enabled(s, a) && (a.Begin? ==> |a.call.ids| >= 1)
    ensures AllNonEmpty(Apply(s, a))
  {
  }

  lemma StepOrCommitKeepsInv(s: System, i: nat)
    requires Inv(s) && Enabled(s, Step(i)) && |s.txs[i].call.ids| >= 1
    ensures Inv(Apply(s, Step(i)))
  {
    if s.txs[i].pc.Finish? {
      CommitKeepsInvIff(s, i);
    } else {
      StepKeepsInv(s, i);
    }
  }

  lemma ActionKeepsInv(s: System, a: Action)
    requires Inv(s) && AllNonEmpty(s) && Enabled(s, a) && (a.Begin? ==> |a.call.ids| >= 1)
    ensures Inv(Apply(s, a)) && AllNonEmpty(Apply(s, a))
  {
    ActionKeepsNonEmpty(s, a);
    match a
    case Begin(c) => BeginKeepsInv(s, c);
    case Rollback(i) => RollbackKeepsInv(s, i);
    case Step(i) => StepOrCommitKeepsInv(s, i);
  }

  lemma {:induction false} RunKeepsInv(s: System, acts: seq<Action>)
    requires Inv(s) && AllNonEmpty(s) && Runs(s, acts) && NonEmptyCalls(acts)
    ensures Inv(Exec(s, acts)) && AllNonEmpty(Exec(s, acts))
    decreases acts
  {
    if acts != [] {
      ActionKeepsInv(s, acts[0]);
      RunKeepsInv(Apply(s, acts[0]), acts[1..]);
    }
  }

  lemma StartKeepsInv()
    ensures Inv(START) && AllNonEmpty(START)
  {
    assert forall s: string :: GapFreeAt(NO_TABLES, s);
  }

  /** Serializability: whatever the interleaving, the committed tables are those of the committed calls
      run one after the other in commit order. */
  lemma Serializable(acts: seq<Action>)
    requires Runs(START, acts) && NonEmptyCalls(acts)
    ensures var s := Exec(START, acts); WellFormed(s.history) && s.tables == Replay(s.history)
  {
    StartKeepsInv();
    RunKeepsInv(START, acts);
  }

  /** The committed events of a stream carry exactly the versions 1..mt_streams.version, in log order,
      and no two committed events share a primary key, an id or a (stream, version) pair. */
  lemma VersionsGapFree(acts: seq<Action>, stream: string)
    requires Runs(START, acts) && NonEmptyCalls(acts)
    ensures var t := Exec(START, acts).tables;
      && |StreamLog(t.events, stream)| == VersionOf(t, stream)
      && (forall k :: 0 <= k < VersionOf(t, stream) ==> StreamLog(t.events, stream)[k].version == k + 1)
      && KeysDistinct(t.events)
  {
    StartKeepsInv();
    RunKeepsInv(START, acts);
    assert GapFreeAt(Exec(START, acts).tables, stream);
  }

  /** What the procedure returns: the version its call ends with, then the drawn sequence values. */
  function ReturnValue(t: Tx): (r: seq<nat>)
    requires t.call.ids != []
    ensures |r| == 1 + |t.seqs|
  {
    [t.base + |t.call.ids|] + t.seqs
  }

  lemma StoredRowInLog(t: Tables, r: Row)
    requires GapFree(t) && KeysDistinct(t.events) && r in t.events && 1 <= r.version
    ensures r.version <= VersionOf(t, r.stream) == |StreamLog(t.events, r.stream)|
    ensures StreamLog(t.events, r.stream)[r.version - 1] == r
  {
    assert GapFreeAt(t, r.stream);
    var log := StreamLog(t.events, r.stream);
    assert r in log;
    var k :| 0 <= k < |log| && log[k] == r;
  }

  ghost predicate InLogAt(log: seq<Row>, base: nat, rows: seq<Row>) {
    base + |rows| <= |log| && forall k :: 0 <= k < |rows| ==> log[base + k] == rows[k]
  }

  lemma CommittedShape(s: System, i: nat)
    requires Inv(s) && i < |s.txs| && s.txs[i].pc.Committed?
    ensures var t := s.txs[i]; Complete(t.call) && |t.seqs| == |t.call.ids| && t.rows == RowsOf(t.call, t.base, t.seqs)
  {
    var t := s.txs[i];
    assert Shape(t, s.nextSeq);
    assert t.rows == RowsOf(t.call, t.base, t.seqs);
  }

  ghost predicate RowAt(log: seq<Row>, base: nat, rows: seq<Row>, k: nat) {
    k < |rows| && base + k < |log| && log[base + k] == rows[k]
  }

  lemma RowsInLog(log: seq<Row>, base: nat, rows: seq<Row>)
    requires rows != [] && forall k: nat :: k < |rows| ==> RowAt(log, base, rows, k)
    ensures InLogAt(log, base, rows)
  {
    assert RowAt(log, base, rows, |rows| - 1);
    forall k | 0 <= k < |rows| ensures log[base + k] == rows[k] {
      assert RowAt(log, base, rows, k);
    }
  }

  lemma NumberedRowsInLog(t: Tables, stream: string, base: nat, rows: seq<Row>)
    requires GapFree(t) && KeysDistinct(t.events) && rows != []
    requires forall k :: 0 <= k < |rows| ==> rows[k] in t.events && rows[k].stream == stream && rows[k].version == base + k + 1
    ensures InLogAt(StreamLog(t.events, stream), base, rows)
  {
    forall k: nat | k < |rows| ensures RowAt(StreamLog(t.events, stream), base, rows, k) {
      StoredRowInLog(t, rows[k]);
    }
    RowsInLog(StreamLog(t.events, stream), base, rows);
  }

  lemma CommittedRowsInLog(s: System, i: nat)
    requires Inv(s) && i < |s.txs| && s.txs[i].pc.Committed? && s.txs[i].rows != []
    ensures InLogAt(StreamLog(s.tables.events, s.txs[i].call.stream), s.txs[i].base, s.txs[i].rows)
  {
    var t := s.txs[i];
    assert Shape(t, s.nextSeq) && TxOk(s.tables, t);
    NumberedRowsInLog(s.tables, t.call.stream, t.base, t.rows);
  }

  /** A committed call returned [old version + n, s1..sn]. Its rows stand in the stream's log right after
      the old version, in call order; the s increase and no other call, whatever its fate, drew one of them. */
  lemma CommittedCall(acts: seq<Action>, i: nat)
    requires Runs(START, acts) && NonEmptyCalls(acts)
    requires i < |Exec(START, acts).txs| && Exec(START, acts).txs[i].pc.Committed?
    ensures Exec(START, acts).txs[i].call.ids != []
    ensures var s := Exec(START, acts); var t := s.txs[i]; var r := ReturnValue(t);
      && Complete(t.call) && |r| == 1 + |t.call.ids| && Increasing(r[1..])
      && InLogAt(StreamLog(s.tables.events, t.call.stream), r[0] - |t.call.ids|, RowsOf(t.call, r[0] - |t.call.ids|, r[1..]))
      && forall j :: 0 <= j < |s.txs| && j != i ==> forall x :: x in r[1..] ==> x !in s.txs[j].seqs
  {
    StartKeepsInv();
    RunKeepsInv(START, acts);
    var s := Exec(START, acts);
    CommittedShape(s, i);
    CommittedRowsInLog(s, i);
    var t := s.txs[i];
    assert ReturnValue(t)[1..] == t.seqs;
    forall j | 0 <= j < |s.txs| && j != i ensures forall x :: x in t.seqs ==> x !in s.txs[j].seqs {
      assert Apart(t, s.txs[j]);
    }
  }

  // ---------------------------------------------------------------- stale reads

  /** The transaction's read no longer describes the committed stream. */
  predicate Stale(tables: Tables, t: Tx) {
    t.Active() && !t.pc.Read?
    && if t.pc.Create? then t.call.stream in tables.streams else t.base < VersionOf(tables, t.call.stream)
  }

  lemma StaleStaysStale(s: System, a: Action, i: nat)
    requires Inv(s) && AllNonEmpty(s) && Enabled(s, a) && (a.Begin? ==> |a.call.ids| >= 1)
    requires i < |s.txs| && (Stale(s.tables, s.txs[i]) || s.txs[i].pc.Aborted?)
    ensures var s' := Apply(s, a); i < |s'.txs| && (Stale(s'.tables, s'.txs[i]) || s'.txs[i].pc.Aborted?)
  {
    var t := s.txs[i];
    if a.Step? && t.Active() {
      if a.i == i {
        if t.pc.Insert? && Advance(s.tables, s.nextSeq, t).Active() {
          FirstInsertIsFresh(s.tables, s.nextSeq, t);
        }
      } else if s.txs[a.i].pc.Finish? {
        CommitKeepsInvIff(s, a.i);
      }
    }
  }

  /** A call that read a stale version never commits: no continuation of the run saves it. */
  lemma {:induction false} StaleNeverCommits(s: System, acts: seq<Action>, i: nat)
    requires Inv(s) && AllNonEmpty(s) && Runs(s, acts) && NonEmptyCalls(acts)
    requires i < |s.txs| && (Stale(s.tables, s.txs[i]) || s.txs[i].pc.Aborted?)
    ensures i < |Exec(s, acts).txs| && !Exec(s, acts).txs[i].pc.Committed?
    decreases acts
  {
    if acts != [] {
      StaleStaysStale(s, acts[0], i);
      ActionKeepsInv(s, acts[0]);
      StaleNeverCommits(Apply(s, acts[0]), acts[1..], i);
    }
  }

  /** What ends a stale call: its first insert, or its insert of the stream row, hits a committed key. */
  lemma StaleInsertAborts(s: System, i: nat)
    requires Inv(s) && i < |s.txs| && Stale(s.tables, s.txs[i]) && (s.txs[i].pc.Create? || s.txs[i].pc.Insert?)
    ensures !Blocked(s, i) && Apply(s, Step(i)).txs[i].pc.Aborted?
  {
    var t := s.txs[i];
    if t.pc.Insert? && HasNextValues(t) && !Clashes(NextRow(t), s.tables.events) {
      FirstInsertIsFresh(s.tables, s.nextSeq, t);
    }
  }

  // ---------------------------------------------------------------- a call that runs alone

  lemma {:induction false} ExecConcat(s: System, a: seq<Action>, b: seq<Action>)
    requires Runs(s, a) && Runs(Exec(s, a), b)
    ensures Runs(s, a + b) && Exec(s, a + b) == Exec(Exec(s, a), b)
    decreases a
  {
    if a == [] {
      assert a + b == b;
    } else {
      assert (a + b)[1..] == a[1..] + b;
      ExecConcat(Apply(s, a[0]), a[1..], b);
    }
  }

  lemma ExecSnoc(s: System, acts: seq<Action>, a: Action)
    requires Runs(s, acts) && Enabled(Exec(s, acts), a)
    ensures Runs(s, acts + [a]) && Exec(s, acts + [a]) == Apply(Exec(s, acts), a)
  {
    var s' := Exec(s, acts);
    assert Runs(Apply(s', a), []);
    assert [a][1..] == [];
    assert Exec(s', [a]) == Apply(s', a);
    ExecConcat(s, acts, [a]);
  }

  function Counting(first: nat, n: nat): seq<nat> {
    seq(n, k => first + k)
  }

  /** No transaction holds a key that could make another wait. */
  predicate Quiet(s: System) {
    forall i :: 0 <= i < |s.txs| && s.txs[i].Active() ==> s.txs[i].rows == [] && !s.txs[i].created && !s.txs[i].pc.Finish?
  }

  /** The first k events of the call can be inserted: the procedure finds a type and a body for each, no id
      is repeated or already stored, and the numbers fit into 32 bits. */
  predicate AcceptableUpTo(tables: Tables, nextSeq: nat, c: Call, k: nat) {
    && k <= |c.ids| && k <= |c.types| && k <= |c.bodies|
    && (forall a, b :: 0 <= a < b < k ==> c.ids[a] != c.ids[b])
    && (forall a, e :: 0 <= a < k && 0 <= e < |tables.events| ==> tables.events[e].id != c.ids[a])
    && (k > 0 ==> nextSeq + k <= MAX_INT4 + 1 && VersionOf(tables, c.stream) + k <= MAX_INT4)
  }

  predicate Acceptable(tables: Tables, nextSeq: nat, c: Call) {
    AcceptableUpTo(tables, nextSeq, c, |c.ids|)
  }

  /** Inserting event k collides with a key exactly when its id is repeated or already stored. */
  lemma InsertClashesIff(tables: Tables, nextSeq: nat, c: Call, k: nat, r: Row)
    requires GapFree(tables) && KeysDistinct(tables.events) && Issued(tables.events, nextSeq)
    requires k < |c.ids| && k < |c.types| && k < |c.bodies|
    requires r == Row(nextSeq + k, c.ids[k], c.stream, VersionOf(tables, c.stream) + k + 1, c.bodies[k], c.types[k])
    ensures Clashes(r, tables.events) <==> exists e :: 0 <= e < |tables.events| && tables.events[e].id == c.ids[k]
    ensures Clashes(r, RowsOf(c, VersionOf(tables, c.stream), Counting(nextSeq, k))) <==> exists a :: 0 <= a < k && c.ids[a] == c.ids[k]
  {
    var own := RowsOf(c, VersionOf(tables, c.stream), Counting(nextSeq, k));
    forall e | 0 <= e < |tables.events| ensures Conflict(r, tables.events[e]) <==> tables.events[e].id == c.ids[k] {
      var x := tables.events[e];
      if x.stream == r.stream && x.version == r.version {
        StoredRowInLog(tables, x);
      }
    }
    assert forall a :: 0 <= a < k ==> (Conflict(r, own[a]) <==> c.ids[a] == c.ids[k]);
  }

  /** The state of a lone call when k of its events are inserted. */
  function AloneAt(s: System, c: Call, k: nat): System
    requires k <= |c.ids| && k <= |c.types| && k <= |c.bodies|
  {
    var base := VersionOf(s.tables, c.stream);
    var seqs := Counting(s.nextSeq, k);
    var t := Tx(c, if k < |c.ids| then Draw else Update, base, base + k, c.stream !in s.tables.streams, seqs, RowsOf(c, base, seqs));
    System(s.tables, s.nextSeq + k, s.txs + [t], s.history)
  }

  lemma AloneStarts(s: System, c: Call) returns (acts: seq<Action>)
    requires Inv(s) && Quiet(s) && !Overflows(VersionOf(s.tables, c.stream), c)
    ensures Runs(s, acts) && Exec(s, acts) == AloneAt(s, c, 0) && forall a :: a in acts && a.Begin? ==> a.call == c
  {
    var i := |s.txs|;
    acts := [];
    ExecSnoc(s, acts, Begin(c));
    acts := acts + [Begin(c)];
    assert Counting(s.nextSeq, 0) == [];
    ExecSnoc(s, acts, Step(i));
    acts := acts + [Step(i)];
    if c.stream !in s.tables.streams {
      assert !Blocked(Exec(s, acts), i);
      ExecSnoc(s, acts, Step(i));
      acts := acts + [Step(i)];
    }
    assert Exec(s, acts).txs == AloneAt(s, c, 0).txs;
  }

  lemma AloneInserts(s: System, c: Call, k: nat)
    requires Inv(s) && Quiet(s) && k < |c.ids| && AcceptableUpTo(s.tables, s.nextSeq, c, k + 1)
    ensures Enabled(AloneAt(s, c, k), Step(|s.txs|))
    ensures var s1 := Apply(AloneAt(s, c, k), Step(|s.txs|));
      Enabled(s1, Step(|s.txs|)) && Apply(s1, Step(|s.txs|)) == AloneAt(s, c, k + 1)
  {
    var i := |s.txs|;
    var s0 := AloneAt(s, c, k);
    var s1 := Apply(s0, Step(i));
    var t1 := s1.txs[i];
    InsertClashesIff(s.tables, s.nextSeq, c, k, NextRow(t1));
    assert Counting(s.nextSeq, k + 1) == Counting(s.nextSeq, k) + [s.nextSeq + k];
    assert Apply(s1, Step(i)).txs[i].rows == AloneAt(s, c, k + 1).txs[i].rows;
    assert Apply(s1, Step(i)).txs == AloneAt(s, c, k + 1).txs;
  }

  lemma AloneNext(s: System, c: Call, k: nat, acts: seq<Action>)
    requires Inv(s) && Quiet(s) && k < |c.ids| && AcceptableUpTo(s.tables, s.nextSeq, c, k + 1)
    requires Runs(s, acts) && Exec(s, acts) == AloneAt(s, c, k)
    ensures var more := acts + [Step(|s.txs|)] + [Step(|s.txs|)]; Runs(s, more) && Exec(s, more) == AloneAt(s, c, k + 1)
  {
    AloneInserts(s, c, k);
    ExecSnoc(s, acts, Step(|s.txs|));
    ExecSnoc(s, acts + [Step(|s.txs|)], Step(|s.txs|));
  }

  lemma {:induction false} AloneReaches(s: System, c: Call, k: nat) returns (acts: seq<Action>)
    requires Inv(s) && Quiet(s) && !Overflows(VersionOf(s.tables, c.stream), c) && AcceptableUpTo(s.tables, s.nextSeq, c, k)
    ensures Runs(s, acts) && Exec(s, acts) == AloneAt(s, c, k) && forall a :: a in acts && a.Begin? ==> a.call == c
  {
    if k == 0 {
      acts := AloneStarts(s, c);
    } else {
      acts := AloneReaches(s, c, k - 1);
      AloneNext(s, c, k - 1, acts);
      acts := acts + [Step(|s.txs|)] + [Step(|s.txs|)];
    }
  }

  /** Progress: an acceptable call that nobody disturbs commits, and its effect is the serial one. */
  lemma CallAloneCommits(s: System, c: Call) returns (acts: seq<Action>)
    requires Inv(s) && Quiet(s) && Acceptable(s.tables, s.nextSeq, c)
    ensures Runs(s, acts) && forall a :: a in acts && a.Begin? ==> a.call == c
    ensures var s' := Exec(s, acts); var seqs := Counting(s.nextSeq, |c.ids|);
      && s'.tables == AppendAtomically(s.tables, c, seqs)
      && s'.nextSeq == s.nextSeq + |c.ids|
      && |s'.txs| == |s.txs| + 1 && s'.txs[..|s.txs|] == s.txs
      && s'.txs[|s.txs|].pc.Committed? && s'.txs[|s.txs|].call == c
      && (c.ids != [] ==> ReturnValue(s'.txs[|s.txs|]) == [VersionOf(s'.tables, c.stream)] + seqs)
  {
    var i := |s.txs|;
    acts := AloneReaches(s, c, |c.ids|);
    var s1 := Exec(s, acts);
    ExecSnoc(s, acts, Step(i));
    acts := acts + [Step(i)];
    var s2 := Exec(s, acts);
    ExecSnoc(s, acts, Step(i));
    acts := acts + [Step(i)];
    assert s2.txs[i].rows == RowsOf(c, VersionOf(s.tables, c.stream), Counting(s.nextSeq, |c.ids|));
  }

  // ---------------------------------------------------------------- a call without events

  const FIRST := Call("s", "t", [7], ["e"], ["b"])
  const SECOND := Call("s", "t", [8], ["e"], ["b"])
  const NO_EVENT := Call("s", "t", [], [], [])

  const EMPTY_READER := Tx(NO_EVENT, Update, 1, 1, false, [], [])

  /** FIRST has committed version 1 and the empty call has read it. */
  ghost predicate EmptyCallHasRead(s: System) {
    && Quiet(s) && s.nextSeq == 2 && |s.txs| == 2 && s.txs[0].pc.Committed? && s.txs[1] == EMPTY_READER
    && VersionOf(s.tables, "s") == 1 && |StreamLog(s.tables.events, "s")| == 1
    && s.tables.events == RowsOf(FIRST, 0, [1])
  }

  ghost predicate FirstHasCommitted(s: System) {
    && s.nextSeq == 2 && |s.txs| == 1 && s.txs[0].pc.Committed?
    && VersionOf(s.tables, "s") == 1 && |StreamLog(s.tables.events, "s")| == 1
    && s.tables.events == RowsOf(FIRST, 0, [1])
  }

  lemma FirstTables(t: Tables)
    requires t == AppendAtomically(NO_TABLES, FIRST, [1])
    ensures VersionOf(t, "s") == 1 && |StreamLog(t.events, "s")| == 1 && t.events == RowsOf(FIRST, 0, [1])
  {
    AppendExtendsLog(NO_TABLES, FIRST, [1], "s");
  }

  lemma FirstCommits() returns (acts: seq<Action>)
    ensures Runs(START, acts) && Inv(Exec(START, acts)) && FirstHasCommitted(Exec(START, acts))
  {
    StartKeepsInv();
    acts := CallAloneCommits(START, FIRST);
    RunKeepsInv(START, acts);
    assert Counting(1, 1) == [1];
    FirstTables(Exec(START, acts).tables);
  }

  lemma ReadNowKeepsInv(s: System, c: Call)
    requires Inv(s)
    ensures var s' := Apply(s, Begin(c)); Enabled(s', Step(|s.txs|)) && Inv(Apply(s', Step(|s.txs|)))
  {
    BeginKeepsInv(s, c);
    StepKeepsInv(Apply(s, Begin(c)), |s.txs|);
  }

  lemma ReadNow(s: System, c: Call)
    requires c.stream in s.tables.streams && c.ids == []
    ensures Enabled(Apply(s, Begin(c)), Step(|s.txs|))
    ensures var v := VersionOf(s.tables, c.stream);
      Apply(Apply(s, Begin(c)), Step(|s.txs|)) == s.(txs := s.txs + [Tx(c, Update, v, v, false, [], [])])
  {
    var s1 := Apply(s, Begin(c));
    var v := VersionOf(s.tables, c.stream);
    assert s1.txs[|s.txs| := Tx(c, Update, v, v, false, [], [])] == s.txs + [Tx(c, Update, v, v, false, [], [])];
  }

  lemma EmptyCallReads(s: System)
    requires FirstHasCommitted(s)
    ensures var s' := Apply(s, Begin(NO_EVENT)); Enabled(s', Step(1)) && EmptyCallHasRead(Apply(s', Step(1)))
  {
    ReadNow(s, NO_EVENT);
  }

  lemma EmptyCallCommitsLast(s: System)
    requires |s.txs| == 3 && !s.txs[0].Active() && !s.txs[2].Active() && s.txs[1] == EMPTY_READER
    ensures Enabled(s, Step(1)) && Enabled(Apply(s, Step(1)), Step(1))
    ensures var t := Apply(Apply(s, Step(1)), Step(1)).tables; VersionOf(t, "s") == 1 && t.events == s.tables.events
  {
  }

  lemma ExecTwo(s: System, acts: seq<Action>, a: Action, b: Action)
    requires Runs(s, acts) && Enabled(Exec(s, acts), a) && Enabled(Apply(Exec(s, acts), a), b)
    ensures Runs(s, acts + [a] + [b]) && Exec(s, acts + [a] + [b]) == Apply(Apply(Exec(s, acts), a), b)
  {
    ExecSnoc(s, acts, a);
    ExecSnoc(s, acts + [a], b);
  }

  lemma SecondCommits(s: System) returns (acts: seq<Action>)
    requires Inv(s) && EmptyCallHasRead(s)
    ensures Runs(s, acts)
    ensures var s' := Exec(s, acts);
      && |s'.txs| == 3 && !s'.txs[0].Active() && !s'.txs[2].Active() && s'.txs[1] == EMPTY_READER
      && |StreamLog(s'.tables.events, "s")| == 2
  {
    acts := CallAloneCommits(s, SECOND);
    AppendExtendsLog(s.tables, SECOND, Counting(2, 1), "s");
    var s' := Exec(s, acts);
    assert s'.txs[..2][0] == s.txs[0] && s'.txs[..2][1] == s.txs[1];
  }

  lemma EmptyCallRace() returns (acts: seq<Action>)
    ensures Runs(START, acts)
    ensures var t := Exec(START, acts).tables; VersionOf(t, "s") == 1 && |StreamLog(t.events, "s")| == 2
  {
    acts := FirstCommits();
    EmptyCallReads(Exec(START, acts));
    ReadNowKeepsInv(Exec(START, acts), NO_EVENT);
    ExecTwo(START, acts, Begin(NO_EVENT), Step(1));
    acts := acts + [Begin(NO_EVENT)] + [Step(1)];
    var more := SecondCommits(Exec(START, acts));
    ExecConcat(START, acts, more);
    acts := acts + more;
    EmptyCallCommitsLast(Exec(START, acts));
    ExecTwo(START, acts, Step(1), Step(1));
    acts := acts + [Step(1)] + [Step(1)];
  }

  /** Why the calls must carry an event: an empty call reads, lets another call commit, and then writes the
      old version back over the new one. */
  lemma EmptyCallBreaksVersions()
    ensures exists acts :: Runs(START, acts) && !GapFree(Exec(START, acts).tables)
  {
    var acts := EmptyCallRace();
    assert !GapFreeAt(Exec(START, acts).tables, "s");
  }
}
