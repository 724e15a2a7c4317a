/**
 The stored procedure mt_append_event, run by any number of concurrent transactions.

 Every call is a transaction of its own: it reads the version of its stream without a lock, creates
 the stream row when there is none, draws a sequence value and inserts a row for each event, writes the
 version back as an absolute value, and commits. An action lets one transaction take its next atomic
 statement. A transaction sees the committed tables and its own rows (READ COMMITTED). A statement
 that collides with a committed key aborts the transaction; one that collides with a key held by a
 transaction still running is blocked, that is, not enabled. Any transaction may also be rolled back
 from outside at any time (lost connection, deadlock victim). The sequence is never rolled back.
 */
module AppendProtocol {

  const MAX_INT4: nat := 0x7fff_ffff

  datatype Call = Call(stream: string, streamType: string, ids: seq<nat>, types: seq<string>, bodies: seq<string>)

  datatype Row = Row(seqId: nat, id: nat, stream: string, version: nat, body: string, eventType: string)

  datatype StreamRow = StreamRow(streamType: string, version: nat)

  /** The committed contents of mt_streams and mt_events; events are listed in commit order. */
  datatype Tables = Tables(streams: map<string, StreamRow>, events: seq<Row>)

  datatype Pc = Read | Create | Draw | Insert | Update | Finish | Committed | Aborted

  /** `base` is the version the call read, `version` the procedure's event_version, `seqs` the tail of
      its return value, `rows` its uncommitted inserts and `created` its uncommitted stream row. */
  datatype Tx = Tx(call: Call, pc: Pc, base: nat, version: nat, created: bool, seqs: seq<nat>, rows: seq<Row>) {
    predicate Active() {
      !pc.Committed? && !pc.Aborted?
    }
  }

  datatype Commit = Commit(call: Call, seqs: seq<nat>)

  /** `history` records the committed calls in commit order. */
  datatype System = System(tables: Tables, nextSeq: nat, txs: seq<Tx>, history: seq<Commit>)

  datatype Action = Begin(call: Call) | Step(i: nat) | Rollback(i: nat)

  const NO_TABLES := Tables(map[], [])
  const START := System(NO_TABLES, 1, [], [])

  // ---------------------------------------------------------------- the serial meaning of a call

  function VersionOf(t: Tables, stream: string): nat {
    if stream in t.streams then t.streams[stream].version else 0
  }

  predicate Complete(c: Call) {
    |c.ids| <= |c.types| && |c.ids| <= |c.bodies|
  }

  function RowsOf(c: Call, base: nat, seqs: seq<nat>): (rows: seq<Row>)
    requires |seqs| <= |c.ids| && |seqs| <= |c.types| && |seqs| <= |c.bodies|
    ensures |rows| == |seqs|
  {
    seq(|seqs|, k requires 0 <= k < |seqs| => Row(seqs[k], c.ids[k], c.stream, base + k + 1, c.bodies[k], c.types[k]))
  }

  /** The effect of a call that runs alone. */
  function AppendAtomically(t: Tables, c: Call, seqs: seq<nat>): Tables
    requires Complete(c) && |seqs| == |c.ids|
  {
    var base := VersionOf(t, c.stream);
    var streamType := if c.stream in t.streams then t.streams[c.stream].streamType else c.streamType;
    Tables(t.streams[c.stream := StreamRow(streamType, base + |c.ids|)], t.events + RowsOf(c, base, seqs))
  }

  predicate WellFormed(history: seq<Commit>) {
    forall k :: 0 <= k < |history| ==> Complete(history[k].call) && |history[k].seqs| == |history[k].call.ids|
  }

  /** The calls of a history, one after the other, starting from empty tables. */
  function Replay(history: seq<Commit>): Tables
    requires WellFormed(history)
  {
    if history == [] then NO_TABLES
    else
      var last := history[|history| - 1];
      AppendAtomically(Replay(history[..|history| - 1]), last.call, last.seqs)
  }

  /** The committed rows of one stream, in commit order. */
  function StreamLog(rows: seq<Row>, stream: string): (log: seq<Row>)
    ensures forall r :: r in log <==> r in rows && r.stream == stream
  {
    if rows == [] then []
    else
      var last := rows[|rows| - 1];
      StreamLog(rows[..|rows| - 1], stream) + if last.stream == stream then [last] else []
  }

  /** Each stream's log carries the versions 1, 2, ..., mt_streams.version, in this order. */
  ghost predicate GapFree(t: Tables) {
    forall s: string :: GapFreeAt(t, s)
  }

  ghost predicate GapFreeAt(t: Tables, s: string) {
    |StreamLog(t.events, s)| == VersionOf(t, s)
    && forall k :: 0 <= k < VersionOf(t, s) ==> StreamLog(t.events, s)[k].version == k + 1
  }

  // ---------------------------------------------------------------- the concurrent protocol

  /** Two rows that the primary key or one of the unique constraints of mt_events keeps apart. */
  predicate Conflict(a: Row, b: Row) {
    a.seqId == b.seqId || a.id == b.id || (a.stream == b.stream && a.version == b.version)
  }

  predicate Clashes(r: Row, rows: seq<Row>) {
    exists k :: 0 <= k < |rows| && Conflict(r, rows[k])
  }

  function LoopHead(t: Tx): Pc {
    if |t.rows| < |t.call.ids| then Draw else Update
  }

  /** The head of the return value, the version the call would end with, does not fit into 32 bits; for an empty
      array it is NULL. */
  predicate Overflows(version: nat, c: Call) {
    c.ids != [] && version + |c.ids| > MAX_INT4
  }

  /** Before the loop the return value is initialized. */
  function EnterLoop(t: Tx): Tx {
    t.(pc := if Overflows(t.version, t.call) then Aborted else LoopHead(t))
  }

  predicate HasNextValues(t: Tx) {
    |t.rows| < |t.call.ids| && |t.rows| < |t.call.types| && |t.rows| < |t.call.bodies| && t.seqs != []
  }

  function NextRow(t: Tx): Row
    requires HasNextValues(t)
  {
    var k := |t.rows|;
    Row(t.seqs[|t.seqs| - 1], t.call.ids[k], t.call.stream, t.version, t.call.bodies[k], t.call.types[k])
  }

  /** The next statement of transaction i would wait for a key held by another running transaction. */
  predicate Blocked(s: System, i: nat)
    requires i < |s.txs|
  {
    var t := s.txs[i];
    exists j ::
      && 0 <= j < |s.txs| && j != i && s.txs[j].Active()
      && match t.pc
         case Create => t.call.stream !in s.tables.streams && s.txs[j].created && s.txs[j].call.stream == t.call.stream
         case Insert => HasNextValues(t) && !Clashes(NextRow(t), s.tables.events) && Clashes(NextRow(t), s.txs[j].rows)
         case Update => s.txs[j].pc.Finish? && s.txs[j].call.stream == t.call.stream
         case _ => false
  }

  predicate Enabled(s: System, a: Action) {
    match a
    case Begin(_) => true
    case Step(i) => i < |s.txs| && s.txs[i].Active() && !Blocked(s, i)
    case Rollback(i) => i < |s.txs| && s.txs[i].Active()
  }

  function StreamTypeOf(t: Tables, c: Call): string {
    if c.stream in t.streams then t.streams[c.stream].streamType else c.streamType
  }

  /** Commit makes the transaction's own rows visible, whatever the tables now hold. */
  function Publish(tables: Tables, t: Tx): Tables {
    Tables(tables.streams[t.call.stream := StreamRow(StreamTypeOf(tables, t.call), t.version)], tables.events + t.rows)
  }

  /** The next statement of a transaction that is not blocked and does not commit. */
  function Advance(tables: Tables, nextSeq: nat, t: Tx): Tx
    requires t.Active() && !t.pc.Finish?
  {
    match t.pc
    case Read =>
      if t.call.stream in tables.streams
      then var v := tables.streams[t.call.stream].version; EnterLoop(t.(base := v, version := v))
      else t.(pc := Create, base := 0, version := 0)
    case Create =>
      if t.call.stream in tables.streams then t.(pc := Aborted) else EnterLoop(t.(created := true))
    case Draw =>
      if nextSeq > MAX_INT4 || t.version + 1 > MAX_INT4 then t.(pc := Aborted)
      else t.(pc := Insert, seqs := t.seqs + [nextSeq], version := t.version + 1)
    case Insert =>
      if !HasNextValues(t) || Clashes(NextRow(t), tables.events) || Clashes(NextRow(t), t.rows) then t.(pc := Aborted)
      else
        var u := t.(rows := t.rows + [NextRow(t)]);
        u.(pc := LoopHead(u))
    case Update => t.(pc := Finish)
  }

  function Apply(s: System, a: Action): System
    requires Enabled(s, a)
  {
    match a
    case Begin(c) => s.(txs := s.txs + [Tx(c, Read, 0, 0, false, [], [])])
    case Rollback(i) => s.(txs := s.txs[i := s.txs[i].(pc := Aborted)])
    case Step(i) =>
      var t := s.txs[i];
      if t.pc.Finish? then
        System(Publish(s.tables, t), s.nextSeq, s.txs[i := t.(pc := Committed)], s.history + [Commit(t.call, t.seqs)])
      else
        System(s.tables, if t.pc.Draw? then s.nextSeq + 1 else s.nextSeq,
               s.txs[i := Advance(s.tables, s.nextSeq, t)], s.history)
  }

  predicate Runs(s: System, acts: seq<Action>)
    decreases acts
  {
    acts == [] || (Enabled(s, acts[0]) && Runs(Apply(s, acts[0]), acts[1..]))
  }

  function Exec(s: System, acts: seq<Action>): System
    requires Runs(s, acts)
    decreases acts
  {
    if acts == [] then s else Exec(Apply(s, acts[0]), acts[1..])
  }

  /** Save only calls the procedure for the non-empty groups that groupBy makes. */
  predicate NonEmptyCalls(acts: seq<Action>) {
    forall k :: 0 <= k < |acts| && acts[k].Begin? ==> |acts[k].call.ids| >= 1
  }

  // ---------------------------------------------------------------- the invariant

  predicate Increasing(xs: seq<nat>) {
    forall j, k :: 0 <= j < k < |xs| ==> xs[j] < xs[k]
  }

  ghost predicate Shape(t: Tx, nextSeq: nat) {
    && Increasing(t.seqs) && (forall x :: x in t.seqs ==> x < nextSeq)
    && (!t.pc.Aborted? ==>
          && |t.seqs| == |t.rows| + (if t.pc.Insert? then 1 else 0)
          && |t.rows| <= |t.call.ids| && |t.rows| <= |t.call.types| && |t.rows| <= |t.call.bodies|
          && t.version == t.base + |t.seqs|
          && (t.pc.Draw? || t.pc.Insert? ==> |t.rows| < |t.call.ids|)
          && (t.pc.Update? || t.pc.Finish? || t.pc.Committed? ==> |t.rows| == |t.call.ids|)
          && (t.pc.Read? || t.pc.Create? ==> t.rows == [] && !t.created && t.base == 0)
          && (forall k :: 0 <= k < |t.rows| ==>
                t.rows[k] == Row(t.seqs[k], t.call.ids[k], t.call.stream, t.base + k + 1, t.call.bodies[k], t.call.types[k])))
  }

  ghost predicate TxOk(tables: Tables, t: Tx) {
    (t.pc.Committed? ==> forall k :: 0 <= k < |t.rows| ==> t.rows[k] in tables.events)
    && (t.Active() ==>
      && (t.created ==> t.base == 0 && t.call.stream !in tables.streams)
      && (!t.created && !t.pc.Read? && !t.pc.Create? ==> t.call.stream in tables.streams && t.base <= VersionOf(tables, t.call.stream))
      && (t.rows != [] ==> t.base == VersionOf(tables, t.call.stream))
      && (forall a :: 0 <= a < |t.rows| ==> !Clashes(t.rows[a], tables.events))
      && (forall a, b :: 0 <= a < b < |t.rows| ==> !Conflict(t.rows[a], t.rows[b])))
  }

  ghost predicate Apart(t: Tx, u: Tx) {
    && (forall x :: x in t.seqs ==> x !in u.seqs)
    && (t.Active() && u.Active() ==>
          && (t.created && u.created ==> t.call.stream != u.call.stream)
          && (forall a :: 0 <= a < |t.rows| ==> !Clashes(t.rows[a], u.rows)))
  }

  ghost predicate KeysDistinct(rows: seq<Row>) {
    forall a, b :: 0 <= a < b < |rows| ==> !Conflict(rows[a], rows[b])
  }

  ghost predicate Issued(rows: seq<Row>, nextSeq: nat) {
    forall k :: 0 <= k < |rows| ==> rows[k].seqId < nextSeq && 1 <= rows[k].version
  }

  ghost predicate Inv(s: System) {
    && GapFree(s.tables)
    && KeysDistinct(s.tables.events) && Issued(s.tables.events, s.nextSeq)
    && WellFormed(s.history) && s.tables == Replay(s.history)
    && (forall i :: 0 <= i < |s.txs| ==> Shape(s.txs[i], s.nextSeq) && TxOk(s.tables, s.txs[i]))
    && (forall i, j :: 0 <= i < |s.txs| && 0 <= j < |s.txs| && i != j ==> Apart(s.txs[i], s.txs[j]))
  }

  // ---------------------------------------------------------------- lemmas about the tables

  lemma {:induction false} StreamLogConcat(a: seq<Row>, b: seq<Row>, stream: string)
    ensures StreamLog(a + b, stream) == StreamLog(a, stream) + StreamLog(b, stream)
  {
    if b == [] {
      assert a + b == a;
    } else {
      var c := b[..|b| - 1];
      assert (a + b)[..|a + b| - 1] == a + c;
      StreamLogConcat(a, c, stream);
    }
  }

  lemma {:induction false} StreamLogOfOneStream(rows: seq<Row>, owner: string, stream: string)
    requires forall k :: 0 <= k < |rows| ==> rows[k].stream == owner
    ensures StreamLog(rows, stream) == if stream == owner then rows else []
  {
    if rows != [] {
      var init, last := rows[..|rows| - 1], rows[|rows| - 1];
      assert rows == init + [last];
      StreamLogOfOneStream(init, owner, stream);
      assert init + [] == init;
    }
  }

  lemma VersionIsStored(t: Tables, stream: string, v: nat)
    requires GapFree(t) && 1 <= v <= VersionOf(t, stream)
    ensures exists k :: 0 <= k < |t.events| && t.events[k].stream == stream && t.events[k].version == v
  {
    assert GapFreeAt(t, stream);
    var r := StreamLog(t.events, stream)[v - 1];
    assert r in StreamLog(t.events, stream);
    assert r in t.events;
  }

  lemma RowsExtendLog(events: seq<Row>, rows: seq<Row>, owner: string, stream: string)
    requires forall k :: 0 <= k < |rows| ==> rows[k].stream == owner
    ensures StreamLog(events + rows, stream) == StreamLog(events, stream) + if stream == owner then rows else []
  {
    StreamLogConcat(events, rows, stream);
    StreamLogOfOneStream(rows, owner, stream);
  }

  lemma AppendExtendsLog(t: Tables, c: Call, seqs: seq<nat>, stream: string)
    requires Complete(c) && |seqs| == |c.ids|
    ensures StreamLog(AppendAtomically(t, c, seqs).events, stream)
         == StreamLog(t.events, stream) + if stream == c.stream then RowsOf(c, VersionOf(t, stream), seqs) else []
    ensures VersionOf(AppendAtomically(t, c, seqs), stream)
         == VersionOf(t, stream) + if stream == c.stream then |c.ids| else 0
  {
    RowsExtendLog(t.events, RowsOf(c, VersionOf(t, c.stream), seqs), c.stream, stream);
  }

  lemma NumberedFurther(t: Tables, stream: string, log: seq<Row>, rows: seq<Row>)
    requires StreamLog(t.events, stream) == log + rows && VersionOf(t, stream) == |log| + |rows|
    requires forall k :: 0 <= k < |log| ==> log[k].version == k + 1
    requires forall k :: 0 <= k < |rows| ==> rows[k].version == |log| + k + 1
    ensures GapFreeAt(t, stream)
  {
  }

  lemma AppendKeepsGapFreeAt(t: Tables, c: Call, seqs: seq<nat>, stream: string)
    requires GapFreeAt(t, stream) && Complete(c) && |seqs| == |c.ids|
    ensures GapFreeAt(AppendAtomically(t, c, seqs), stream)
  {
    AppendExtendsLog(t, c, seqs, stream);
    NumberedFurther(AppendAtomically(t, c, seqs), stream, StreamLog(t.events, stream),
                    if stream == c.stream then RowsOf(c, VersionOf(t, stream), seqs) else []);
  }

  lemma AppendKeepsGapFree(t: Tables, c: Call, seqs: seq<nat>)
    requires GapFree(t) && Complete(c) && |seqs| == |c.ids|
    ensures GapFree(AppendAtomically(t, c, seqs))
  {
    forall s: string ensures GapFreeAt(AppendAtomically(t, c, seqs), s) {
      assert GapFreeAt(t, s);
      AppendKeepsGapFreeAt(t, c, seqs, s);
    }
  }

  lemma ReplayAppend(history: seq<Commit>, c: Commit)
    requires WellFormed(history) && Complete(c.call) && |c.seqs| == |c.call.ids|
    ensures WellFormed(history + [c])
    ensures Replay(history + [c]) == AppendAtomically(Replay(history), c.call, c.seqs)
  {
    assert (history + [c])[..|history|] == history;
  }

  // ---------------------------------------------------------------- one step of one transaction

  lemma ApartSymmetric(t: Tx, u: Tx)
    requires Apart(t, u)
    ensures Apart(u, t)
  {
  }

  lemma DrawShape(tables: Tables, nextSeq: nat, t: Tx)
    requires t.pc.Draw? && Shape(t, nextSeq)
    ensures Shape(Advance(tables, nextSeq, t), nextSeq + 1)
  {
    forall k | 0 <= k < |t.seqs| ensures t.seqs[k] < nextSeq {
      assert t.seqs[k] in t.seqs;
    }
  }

  lemma InsertShape(tables: Tables, nextSeq: nat, t: Tx)
    requires t.pc.Insert? && Shape(t, nextSeq)
    ensures Shape(Advance(tables, nextSeq, t), nextSeq)
  {
  }

  lemma AdvanceShape(tables: Tables, nextSeq: nat, t: Tx)
    requires t.Active() && !t.pc.Finish? && Shape(t, nextSeq)
    ensures Shape(Advance(tables, nextSeq, t), if t.pc.Draw? then nextSeq + 1 else nextSeq)
  {
    if t.pc.Draw? {
      DrawShape(tables, nextSeq, t);
    } else if t.pc.Insert? {
      InsertShape(tables, nextSeq, t);
    }
  }

  /** A transaction whose first insert gets through has read the current version. */
  lemma FirstInsertIsFresh(tables: Tables, nextSeq: nat, t: Tx)
    requires GapFree(tables) && t.pc.Insert? && Shape(t, nextSeq) && TxOk(tables, t)
    requires HasNextValues(t) && !Clashes(NextRow(t), tables.events)
    ensures t.base == VersionOf(tables, t.call.stream)
  {
    if t.rows == [] && t.base < VersionOf(tables, t.call.stream) {
      VersionIsStored(tables, t.call.stream, t.base + 1);
    }
  }

  lemma AdvanceTxOk(tables: Tables, nextSeq: nat, t: Tx)
    requires GapFree(tables) && t.Active() && !t.pc.Finish? && Shape(t, nextSeq) && TxOk(tables, t)
    ensures TxOk(tables, Advance(tables, nextSeq, t))
  {
    var t' := Advance(tables, nextSeq, t);
    if t.pc.Insert? && t'.Active() {
      FirstInsertIsFresh(tables, nextSeq, t);
      forall a, b | 0 <= a < b < |t'.rows| ensures !Conflict(t'.rows[a], t'.rows[b]) {
        if b == |t.rows| {
          assert !Conflict(NextRow(t), t.rows[a]);
        }
      }
    }
  }

  lemma AdvanceApart(s: System, i: nat, j: nat)
    requires i < |s.txs| && j < |s.txs| && i != j
    requires s.txs[i].Active() && !s.txs[i].pc.Finish? && !Blocked(s, i)
    requires Shape(s.txs[j], s.nextSeq) && Apart(s.txs[i], s.txs[j])
    requires TxOk(s.tables, s.txs[i])
    ensures Apart(Advance(s.tables, s.nextSeq, s.txs[i]), s.txs[j])
  {
    var t, u := s.txs[i], s.txs[j];
    var t' := Advance(s.tables, s.nextSeq, t);
    if t.pc.Insert? && t'.Active() && u.Active() {
      forall a | 0 <= a < |t'.rows| ensures !Clashes(t'.rows[a], u.rows) {
        if a < |t.rows| {
          assert !Clashes(t.rows[a], u.rows);
        } else {
          assert t'.rows[a] == NextRow(t);
        }
      }
    }
  }

  lemma StepKeepsApart(s: System, i: nat, j: nat)
    requires Inv(s) && Enabled(s, Step(i)) && !s.txs[i].pc.Finish? && j < |s.txs| && j != i
    ensures Apart(Advance(s.tables, s.nextSeq, s.txs[i]), s.txs[j]) && Apart(s.txs[j], Advance(s.tables, s.nextSeq, s.txs[i]))
  {
    AdvanceApart(s, i, j);
    ApartSymmetric(Advance(s.tables, s.nextSeq, s.txs[i]), s.txs[j]);
  }

  lemma StepKeepsInv(s: System, i: nat)
    requires Inv(s) && Enabled(s, Step(i)) && !s.txs[i].pc.Finish?
    ensures Inv(Apply(s, Step(i)))
  {
    AdvanceShape(s.tables, s.nextSeq, s.txs[i]);
    AdvanceTxOk(s.tables, s.nextSeq, s.txs[i]);
    forall j | 0 <= j < |s.txs| && j != i
      ensures Apart(Advance(s.tables, s.nextSeq, s.txs[i]), s.txs[j]) && Apart(s.txs[j], Advance(s.tables, s.nextSeq, s.txs[i]))
    {
      StepKeepsApart(s, i, j);
    }
  }

  lemma RollbackKeepsInv(s: System, i: nat)
    requires Inv(s) && Enabled(s, Rollback(i))
    ensures Inv(Apply(s, Rollback(i)))
  {
  }

  lemma BeginKeepsInv(s: System, c: Call)
    requires Inv(s)
    ensures Inv(Apply(s, Begin(c)))
  {
  }

  // ---------------------------------------------------------------- commit

  /** A committing transaction that read the current version publishes exactly its serial effect. */
  lemma PublishIsSerial(tables: Tables, nextSeq: nat, t: Tx)
    requires t.pc.Finish? && Shape(t, nextSeq) && t.base == VersionOf(tables, t.call.stream)
    ensures Complete(t.call) && |t.seqs| == |t.call.ids|
    ensures Publish(tables, t) == AppendAtomically(tables, t.call, t.seqs)
  {
    assert t.rows == RowsOf(t.call, t.base, t.seqs);
  }

  lemma SameVersionsClash(t: Tx, u: Tx, nextSeq: nat)
    requires Shape(t, nextSeq) && Shape(u, nextSeq) && !t.pc.Aborted? && !u.pc.Aborted?
    requires t.rows != [] && u.rows != [] && t.call.stream == u.call.stream && t.base == u.base
    ensures Clashes(u.rows[0], t.rows)
  {
    assert Conflict(u.rows[0], t.rows[0]);
  }

  /** Nobody else has rows in the stream, or the stream row, of a transaction that may commit. */
  lemma CommitKeepsOtherTx(s: System, i: nat, j: nat)
    requires Inv(s) && i < |s.txs| && j < |s.txs| && i != j
    requires s.txs[i].pc.Finish? && s.txs[i].base == VersionOf(s.tables, s.txs[i].call.stream)
    ensures TxOk(Publish(s.tables, s.txs[i]), s.txs[j])
  {
    var t, u := s.txs[i], s.txs[j];
    var tables' := Publish(s.tables, t);
    assert Apart(t, u) && Apart(u, t);
    if u.Active() {
      if u.call.stream == t.call.stream && u.rows != [] && t.rows != [] {
        SameVersionsClash(t, u, s.nextSeq);
      }
      forall a | 0 <= a < |u.rows| ensures !Clashes(u.rows[a], tables'.events) {
        assert !Clashes(u.rows[a], t.rows) && !Clashes(u.rows[a], s.tables.events);
      }
    }
  }

  lemma CommitKeepsKeys(s: System, i: nat)
    requires Inv(s) && i < |s.txs| && s.txs[i].pc.Finish?
    ensures KeysDistinct(Publish(s.tables, s.txs[i]).events)
  {
    var t := s.txs[i];
    var n := |s.tables.events|;
    var events := Publish(s.tables, t).events;
    forall a, b | 0 <= a < b < |events| ensures !Conflict(events[a], events[b]) {
      if a < n <= b {
        assert !Clashes(t.rows[b - n], s.tables.events);
        assert !Conflict(t.rows[b - n], s.tables.events[a]);
      }
    }
  }

  lemma CommitKeepsIssued(s: System, i: nat)
    requires Inv(s) && i < |s.txs| && s.txs[i].pc.Finish?
    ensures Issued(Publish(s.tables, s.txs[i]).events, s.nextSeq)
  {
    var t := s.txs[i];
    forall k | 0 <= k < |t.rows| ensures t.rows[k].seqId < s.nextSeq {
      assert t.seqs[k] in t.seqs;
    }
  }

  lemma CommitKeepsTx(s: System, i: nat, j: nat)
    requires Inv(s) && Enabled(s, Step(i)) && s.txs[i].pc.Finish? && j < |s.txs|
    requires s.txs[i].base == VersionOf(s.tables, s.txs[i].call.stream)
    ensures var s' := Apply(s, Step(i)); Shape(s'.txs[j], s'.nextSeq) && TxOk(s'.tables, s'.txs[j])
  {
    if j != i {
      CommitKeepsOtherTx(s, i, j);
    }
  }

  lemma CommitKeepsApart(s: System, i: nat, a: nat, b: nat)
    requires Inv(s) && Enabled(s, Step(i)) && s.txs[i].pc.Finish? && a < |s.txs| && b < |s.txs| && a != b
    ensures Apart(Apply(s, Step(i)).txs[a], Apply(s, Step(i)).txs[b])
  {
    assert Apart(s.txs[a], s.txs[b]);
  }

  lemma FreshCommitKeepsInv(s: System, i: nat)
    requires Inv(s) && Enabled(s, Step(i)) && s.txs[i].pc.Finish?
    requires s.txs[i].base == VersionOf(s.tables, s.txs[i].call.stream)
    ensures Inv(Apply(s, Step(i)))
    ensures Apply(s, Step(i)).tables == AppendAtomically(s.tables, s.txs[i].call, s.txs[i].seqs)
  {
    var t := s.txs[i];
    var s' := Apply(s, Step(i));
    PublishIsSerial(s.tables, s.nextSeq, t);
    AppendKeepsGapFree(s.tables, t.call, t.seqs);
    ReplayAppend(s.history, Commit(t.call, t.seqs));
    CommitKeepsKeys(s, i);
    CommitKeepsIssued(s, i);
    forall j | 0 <= j < |s'.txs| ensures Shape(s'.txs[j], s'.nextSeq) && TxOk(s'.tables, s'.txs[j]) {
      CommitKeepsTx(s, i, j);
    }
    forall a, b | 0 <= a < |s'.txs| && 0 <= b < |s'.txs| && a != b ensures Apart(s'.txs[a], s'.txs[b]) {
      CommitKeepsApart(s, i, a, b);
    }
  }
}
