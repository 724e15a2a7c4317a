/**
 The Cassandra change poller for one environment, store, type and purpose. A poll takes the uid of the newest
 processed row as its cursor, fetches the oldest modified rows above it, keeps the latest row of each id, gives it
 to the handler and records what the handler returns.

 The tables are clustered so that "limit 1" on the processed table reads the row with the greatest uid and
 "limit n" on the modified table the rows with the least uids. What is proved of runs assumes that modified rows arrive
 with growing uid and start time, and that the handler keeps the id and the uid of a row.
 */
module ResourcePoller {
  import opened GroupBy

  datatype Row = Row(uid: nat, startTime: int, id: string, current: string)

  function IdOf(r: Row): string {
    r.id
  }

  ghost predicate Growing(rows: seq<Row>) {
    forall i, j :: 0 <= i < j < |rows| ==> rows[i].uid < rows[j].uid && rows[i].startTime < rows[j].startTime
  }

  ghost predicate KeepsKeys(handler: Row -> Row) {
    forall r: Row :: handler(r).uid == r.uid && handler(r).id == r.id
  }

  function MaxUid(rows: seq<Row>): (m: nat)
    requires rows != []
    ensures exists r :: r in rows && r.uid == m
    ensures forall r :: r in rows ==> r.uid <= m
  {
    if |rows| == 1 then rows[0].uid
    else
      var m := MaxUid(rows[1..]);
      assert rows[0] in rows && forall r :: r in rows[1..] ==> r in rows;
      if rows[0].uid > m then rows[0].uid else m
  }

  /** Where a poll starts: the newest processed row, or the given default (two days ago) if there is none. */
  function Cursor(processed: seq<Row>, default: nat): nat {
    if processed == [] then default else MaxUid(processed)
  }

  /** The modified rows above the cursor, oldest first. */
  function Backlog(modified: seq<Row>, cursor: nat): (rows: seq<Row>)
    ensures |rows| <= |modified| && rows == modified[|modified| - |rows|..]
    ensures forall k :: 0 <= k < |modified| - |rows| ==> modified[k].uid <= cursor
    ensures rows != [] ==> rows[0].uid > cursor
  {
    if modified == [] || modified[0].uid > cursor then modified else Backlog(modified[1..], cursor)
  }

  function Fetched(modified: seq<Row>, cursor: nat, limit: nat): seq<Row> {
    var rows := Backlog(modified, cursor);
    if |rows| <= limit then rows else rows[..limit]
  }

  /** The row of a group with the greatest start time; the head of the sorted group. */
  predicate IsLatest(group: seq<Row>, r: Row) {
    r in group && forall k :: 0 <= k < |group| ==> group[k].startTime <= r.startTime
  }

  function LastOf(batch: seq<Row>, key: string): Row
    requires Select(batch, IdOf, key) != []
  {
    var g := Select(batch, IdOf, key); g[|g| - 1]
  }

  ghost predicate GroupsExist(batch: seq<Row>, keys: seq<string>) {
    forall k :: 0 <= k < |keys| ==> Select(batch, IdOf, keys[k]) != []
  }

  /** What is recorded for the ids given: the last fetched row of each, handled. */
  function RecordsOf(batch: seq<Row>, keys: seq<string>, handler: Row -> Row): (rows: seq<Row>)
    requires GroupsExist(batch, keys)
    ensures |rows| == |keys|
  {
    seq(|keys|, k requires 0 <= k < |keys| => handler(LastOf(batch, keys[k])))
  }

  lemma BatchGroupsExist(batch: seq<Row>)
    ensures GroupsExist(batch, Keys(batch, IdOf))
  {
    forall k | 0 <= k < |Keys(batch, IdOf)| ensures Select(batch, IdOf, Keys(batch, IdOf)[k]) != [] {
      GroupsAreNotEmpty(batch, IdOf, Keys(batch, IdOf)[k]);
    }
  }

  ghost function Records(batch: seq<Row>, handler: Row -> Row): seq<Row> {
    BatchGroupsExist(batch);
    RecordsOf(batch, Keys(batch, IdOf), handler)
  }

  // ---------------------------------------------------------------- rows in growing order

  lemma {:induction false} SelectGrows(batch: seq<Row>, key: string)
    requires Growing(batch)
    ensures Growing(Select(batch, IdOf, key))
  {
    if batch != [] {
      var init, last := batch[..|batch| - 1], batch[|batch| - 1];
      SelectGrows(init, key);
      var g := Select(init, IdOf, key);
      forall i | 0 <= i < |g| ensures g[i].uid < last.uid && g[i].startTime < last.startTime {
        assert g[i] in init;
      }
    }
  }

  /** In growing rows the sorted group is headed by its last row. */
  lemma LatestIsLast(batch: seq<Row>, key: string, r: Row)
    requires Growing(batch) && IsLatest(Select(batch, IdOf, key), r)
    ensures r == LastOf(batch, key)
  {
    SelectGrows(batch, key);
    var g := Select(batch, IdOf, key);
    var k :| 0 <= k < |g| && g[k] == r;
    assert g[|g| - 1].startTime <= r.startTime;
  }

  lemma RowWithin(rows: seq<Row>, m: Row)
    requires Growing(rows) && m in rows
    ensures rows[0].uid <= m.uid <= rows[|rows| - 1].uid
  {
    var k :| 0 <= k < |rows| && rows[k] == m;
  }

  lemma LastIsNewest(batch: seq<Row>, key: string)
    requires Growing(batch) && Select(batch, IdOf, key) != []
    ensures LastOf(batch, key) in batch && LastOf(batch, key).id == key
    ensures forall k :: 0 <= k < |batch| && batch[k].id == key ==> batch[k].uid <= LastOf(batch, key).uid
  {
    SelectGrows(batch, key);
    var g := Select(batch, IdOf, key);
    assert g[|g| - 1] in g;
    forall k | 0 <= k < |batch| && batch[k].id == key ensures batch[k].uid <= g[|g| - 1].uid {
      RowWithin(g, batch[k]);
    }
  }

  // ---------------------------------------------------------------- the manager

  datatype Fault = NoFault | ReadFails | WriteFails

  class CaResourceManager {
    var modified: seq<Row>
    var processed: seq<Row>
    const limit: nat
    const handler: Row -> Row

    constructor (limit: nat, handler: Row -> Row)
      ensures modified == [] && processed == [] && this.limit == limit && this.handler == handler
    {
      modified, processed := [], [];
      this.limit, this.handler := limit, handler;
    }

    /** Sort the group by falling start time and handle the head: whichever way ties are sorted, the head has the
        greatest start time. */
    method HandleGroup(l: seq<Row>) returns (c2: Row)
      requires l != []
      ensures IsRecordFor(l, c2, handler)
    {
      LatestExists(l);
      var head :| head in l && IsLatest(l, head);
      c2 := handler(head);
    }

    method HandleLatest(unprocessed: seq<Row>) returns (handled: seq<Row>)
      ensures RecordsFor(unprocessed, Keys(unprocessed, IdOf), handled, handler)
    {
      var grouped := GroupBy.GroupBy(unprocessed, [IdOf]);
      ghost var keys := Keys(unprocessed, IdOf);
      handled := [];
      for k := 0 to |grouped.entries|
        invariant |grouped.entries| == |keys|
        invariant RecordsFor(unprocessed, keys[..k], handled, handler)
      {
        GroupAt(unprocessed, IdOf, k);
        GroupsAreNotEmpty(unprocessed, IdOf, keys[k]);
        var c2 := HandleGroup(grouped.entries[k].group.items);
        RecordsForNext(unprocessed, keys, k, handled, c2, handler);
        handled := handled + [c2];
      }
      assert keys[..|keys|] == keys;
    }

    /** The rows of a result, one after the other. */
    method ReadRows(result: seq<Row>) returns (unprocessed: seq<Row>)
      ensures unprocessed == result
    {
      unprocessed := [];
      for i := 0 to |result|
        invariant unprocessed == result[..i]
      {
        unprocessed := unprocessed + [result[i]];
      }
    }

    method FetchNextTasks(default: nat, fault: Fault)
      modifies this`processed
      ensures !fault.NoFault? ==> processed == old(processed)
      ensures var batch := Fetched(modified, Cursor(old(processed), default), limit);
        fault.NoFault? ==> exists recs :: RecordsFor(batch, Keys(batch, IdOf), recs, handler) && processed == old(processed) + recs
      ensures Growing(modified) ==> processed == Polled(old(processed), modified, limit, handler, default, fault)
    {
      if fault.ReadFails? {
        return;
      }
      var uid := Cursor(processed, default);
      var unprocessed := ReadRows(Fetched(modified, uid, limit));
      var handled := HandleLatest(unprocessed);
      if Growing(modified) {
        FetchedGrows(modified, uid, limit);
        RecordsInGrowingRows(unprocessed, handled, handler);
      }
      if fault.NoFault? {
        processed := processed + handled;
      }
    }
  }

  /** The record is what the handler makes of a row of the group with the greatest start time. */
  ghost predicate IsRecordFor(group: seq<Row>, rec: Row, handler: Row -> Row) {
    exists r :: IsLatest(group, r) && rec == handler(r)
  }

  /** One record for each id. */
  ghost predicate RecordsFor(batch: seq<Row>, keys: seq<string>, recs: seq<Row>, handler: Row -> Row) {
    |recs| == |keys| && forall k :: 0 <= k < |keys| ==> IsRecordFor(Select(batch, IdOf, keys[k]), recs[k], handler)
  }

  lemma RecordsForNext(batch: seq<Row>, keys: seq<string>, k: nat, recs: seq<Row>, rec: Row, handler: Row -> Row)
    requires k < |keys| && RecordsFor(batch, keys[..k], recs, handler) && IsRecordFor(Select(batch, IdOf, keys[k]), rec, handler)
    ensures RecordsFor(batch, keys[..k + 1], recs + [rec], handler)
  {
    forall i | 0 <= i < k + 1 ensures IsRecordFor(Select(batch, IdOf, keys[..k + 1][i]), (recs + [rec])[i], handler) {
      if i < k {
        assert keys[..k + 1][i] == keys[..k][i];
      }
    }
  }

  lemma {:induction false} LatestExists(group: seq<Row>)
    requires group != []
    ensures exists r :: r in group && IsLatest(group, r)
  {
    if |group| == 1 {
      assert IsLatest(group, group[0]);
    } else {
      var init, last := group[..|group| - 1], group[|group| - 1];
      LatestExists(init);
      var r :| r in init && IsLatest(init, r);
      assert group == init + [last];
      assert IsLatest(group, if last.startTime > r.startTime then last else r);
    }
  }

  /** In growing rows there is only one way to record a batch. */
  lemma RecordsInGrowingRows(batch: seq<Row>, recs: seq<Row>, handler: Row -> Row)
    requires Growing(batch) && RecordsFor(batch, Keys(batch, IdOf), recs, handler)
    ensures recs == Records(batch, handler)
  {
    var keys := Keys(batch, IdOf);
    BatchGroupsExist(batch);
    forall k | 0 <= k < |keys| ensures recs[k] == handler(LastOf(batch, keys[k])) {
      var r :| IsLatest(Select(batch, IdOf, keys[k]), r) && recs[k] == handler(r);
      LatestIsLast(batch, keys[k], r);
    }
  }

  lemma SliceGrows(rows: seq<Row>, slice: seq<Row>, b: nat)
    requires Growing(rows) && b + |slice| <= |rows| && slice == rows[b..b + |slice|]
    ensures Growing(slice)
  {
    forall i, j | 0 <= i < j < |slice| ensures slice[i].uid < slice[j].uid && slice[i].startTime < slice[j].startTime {
      assert slice[i] == rows[b + i] && slice[j] == rows[b + j];
    }
  }

  lemma BacklogGrows(modified: seq<Row>, cursor: nat)
    requires Growing(modified)
    ensures Growing(Backlog(modified, cursor))
  {
    SliceGrows(modified, Backlog(modified, cursor), |modified| - |Backlog(modified, cursor)|);
  }

  lemma FetchedGrows(modified: seq<Row>, cursor: nat, limit: nat)
    requires Growing(modified)
    ensures Growing(Fetched(modified, cursor, limit))
  {
    BacklogGrows(modified, cursor);
    SliceGrows(Backlog(modified, cursor), Fetched(modified, cursor, limit), 0);
  }

  /** The processed table after a poll; a failing read or write leaves it as it was. */
  ghost function Polled(processed: seq<Row>, modified: seq<Row>, limit: nat, handler: Row -> Row, default: nat, fault: Fault): seq<Row> {
    if fault.NoFault? then processed + Records(Fetched(modified, Cursor(processed, default), limit), handler) else processed
  }

  // ---------------------------------------------------------------- every run of producer and poller

  datatype Op = Produce(row: Row) | Poll(default: nat, fault: Fault)

  /** `start` is the cursor of the poll that recorded first. */
  datatype State = State(modified: seq<Row>, processed: seq<Row>, start: nat)

  ghost predicate Possible(s: State, op: Op) {
    op.Produce? ==> Growing(s.modified + [op.row])
  }

  ghost function Do(s: State, op: Op, limit: nat, handler: Row -> Row): State {
    match op
    case Produce(row) => s.(modified := s.modified + [row])
    case Poll(default, fault) =>
      var processed := Polled(s.processed, s.modified, limit, handler, default, fault);
      State(s.modified, processed, if s.processed == [] && processed != [] then default else s.start)
  }

  ghost function DoAll(ops: seq<Op>, limit: nat, handler: Row -> Row): State {
    if ops == [] then State([], [], 0) else Do(DoAll(ops[..|ops| - 1], limit, handler), ops[|ops| - 1], limit, handler)
  }

  ghost predicate AllPossible(ops: seq<Op>, limit: nat, handler: Row -> Row) {
    ops == [] || (AllPossible(ops[..|ops| - 1], limit, handler) && Possible(DoAll(ops[..|ops| - 1], limit, handler), ops[|ops| - 1]))
  }

  /** The record of a modified row. */
  ghost predicate RecordOf(p: Row, m: Row) {
    p.uid == m.uid && p.id == m.id
  }

  ghost predicate Distinct(rows: seq<Row>) {
    forall i, j :: 0 <= i < j < |rows| ==> rows[i].uid != rows[j].uid
  }

  /** Some record of the row's id is at least as new as the row. */
  ghost predicate Covered(processed: seq<Row>, m: Row) {
    exists p :: p in processed && p.id == m.id && p.uid >= m.uid
  }

  ghost predicate Inv(s: State) {
    && Growing(s.modified)
    && Distinct(s.processed)
    && AllRecorded(s.processed, s.modified, s.start)
    && AllCovered(s.processed, s.modified, s.start)
  }

  lemma AboveIsInSuffix(modified: seq<Row>, b: nat, cursor: nat, m: Row)
    requires b <= |modified| && m in modified && m.uid > cursor && forall k :: 0 <= k < b ==> modified[k].uid <= cursor
    ensures m in modified[b..]
  {
    var k :| 0 <= k < |modified| && modified[k] == m;
    assert modified[b..][k - b] == m;
  }

  lemma BacklogIsAllAbove(modified: seq<Row>, cursor: nat)
    requires Growing(modified)
    ensures forall m :: m in Backlog(modified, cursor) <==> m in modified && m.uid > cursor
    ensures Growing(Backlog(modified, cursor))
  {
    var rows := Backlog(modified, cursor);
    BacklogGrows(modified, cursor);
    if rows != [] {
      AllAbove(rows, cursor);
    }
    forall m | m in modified && m.uid > cursor ensures m in rows {
      AboveIsInSuffix(modified, |modified| - |rows|, cursor, m);
    }
  }

  lemma AllAbove(modified: seq<Row>, cursor: nat)
    requires Growing(modified) && modified != [] && modified[0].uid > cursor
    ensures forall m :: m in modified ==> m.uid > cursor
  {
    forall k | 0 <= k < |modified| ensures modified[k].uid > cursor {
    }
  }

  /** A batch: growing rows above the cursor, and every modified row between the cursor and its last row. */
  ghost predicate IsBatch(batch: seq<Row>, modified: seq<Row>, cursor: nat) {
    && Growing(batch)
    && (forall m :: m in batch ==> m in modified && m.uid > cursor)
    && (batch != [] ==> forall m :: m in modified && cursor < m.uid <= batch[|batch| - 1].uid ==> m in batch)
  }

  lemma TakenIsClosed(rows: seq<Row>, n: nat, m: Row)
    requires Growing(rows) && 0 < n <= |rows| && m in rows && m.uid <= rows[n - 1].uid
    ensures m in rows[..n]
  {
    var k :| 0 <= k < |rows| && rows[k] == m;
    assert k < n;
  }

  lemma FetchedFromBacklog(rows: seq<Row>, batch: seq<Row>, modified: seq<Row>, cursor: nat)
    requires Growing(rows) && batch <= rows
    requires forall m :: m in rows <==> m in modified && m.uid > cursor
    ensures IsBatch(batch, modified, cursor)
  {
    assert batch == rows[..|batch|];
    forall m | m in modified && batch != [] && cursor < m.uid <= batch[|batch| - 1].uid ensures m in batch {
      TakenIsClosed(rows, |batch|, m);
    }
  }

  lemma FetchedIsBatch(modified: seq<Row>, cursor: nat, limit: nat)
    requires Growing(modified)
    ensures IsBatch(Fetched(modified, cursor, limit), modified, cursor)
    ensures limit > 0 && (exists m :: m in modified && m.uid > cursor) ==> Fetched(modified, cursor, limit) != []
  {
    BacklogIsAllAbove(modified, cursor);
    FetchedFromBacklog(Backlog(modified, cursor), Fetched(modified, cursor, limit), modified, cursor);
  }

  /** What a batch leaves in the processed table: records of its rows, with different uids, covering every row, the
      last one included. */
  ghost predicate RecordsBatch(recs: seq<Row>, batch: seq<Row>) {
    && Distinct(recs)
    && (forall p :: p in recs ==> exists m :: m in batch && RecordOf(p, m))
    && (forall m :: m in batch ==> Covered(recs, m))
  }

  lemma BatchIsRecorded(batch: seq<Row>, handler: Row -> Row)
    requires Growing(batch) && KeepsKeys(handler)
    ensures RecordsBatch(Records(batch, handler), batch)
  {
    var keys, recs := Keys(batch, IdOf), Records(batch, handler);
    BatchGroupsExist(batch);
    KeysAscend(batch, IdOf);
    forall k | 0 <= k < |recs| ensures recs[k].id == keys[k] && RecordOf(recs[k], LastOf(batch, keys[k])) && LastOf(batch, keys[k]) in batch {
      LastIsNewest(batch, keys[k]);
    }
    forall i, j | 0 <= i < j < |recs| ensures recs[i].uid != recs[j].uid {
      LessIrreflexive(keys[i]);
      if recs[i].uid == recs[j].uid {
        SameUidSameRow(batch, LastOf(batch, keys[i]), LastOf(batch, keys[j]));
      }
    }
    forall m | m in batch ensures Covered(recs, m) {
      MemberIsCovered(batch, handler, m);
    }
  }

  lemma SameUidSameRow(rows: seq<Row>, a: Row, b: Row)
    requires Growing(rows) && a in rows && b in rows && a.uid == b.uid
    ensures a == b
  {
    var i :| 0 <= i < |rows| && rows[i] == a;
    var j :| 0 <= j < |rows| && rows[j] == b;
  }

  lemma MemberIsCovered(batch: seq<Row>, handler: Row -> Row, m: Row)
    requires Growing(batch) && KeepsKeys(handler) && m in batch
    ensures Covered(Records(batch, handler), m)
  {
    var keys, recs := Keys(batch, IdOf), Records(batch, handler);
    BatchGroupsExist(batch);
    KeysAreTheKeyValues(batch, IdOf);
    var i :| 0 <= i < |batch| && batch[i] == m;
    assert IdOf(batch[i]) in keys;
    var k :| 0 <= k < |keys| && keys[k] == m.id;
    LastIsNewest(batch, m.id);
    assert recs[k] in recs;
  }

  lemma RecordWithin(recs: seq<Row>, batch: seq<Row>, p: Row)
    requires Growing(batch) && batch != [] && RecordsBatch(recs, batch) && p in recs
    ensures batch[0].uid <= p.uid <= batch[|batch| - 1].uid
  {
    var m :| m in batch && RecordOf(p, m);
    RowWithin(batch, m);
  }

  lemma RecordsUpToLast(recs: seq<Row>, batch: seq<Row>)
    requires Growing(batch) && batch != [] && RecordsBatch(recs, batch)
    ensures forall p :: p in recs ==> batch[0].uid <= p.uid <= batch[|batch| - 1].uid
  {
    forall p | p in recs ensures batch[0].uid <= p.uid <= batch[|batch| - 1].uid {
      RecordWithin(recs, batch, p);
    }
  }

  lemma LastIsRecorded(recs: seq<Row>, batch: seq<Row>) returns (q: Row)
    requires Growing(batch) && batch != [] && RecordsBatch(recs, batch)
    ensures q in recs && q.uid == batch[|batch| - 1].uid
  {
    var last := batch[|batch| - 1];
    RecordsUpToLast(recs, batch);
    assert Covered(recs, last);
    q :| q in recs && q.id == last.id && q.uid >= last.uid;
  }

  lemma MaxUidIs(rows: seq<Row>, q: Row)
    requires q in rows && forall r :: r in rows ==> r.uid <= q.uid
    ensures rows != [] && MaxUid(rows) == q.uid
  {
  }

  /** Records of a batch above every processed row move the cursor to the last row of the batch. */
  lemma CursorMovesToLast(processed: seq<Row>, recs: seq<Row>, batch: seq<Row>)
    requires Growing(batch) && batch != [] && RecordsBatch(recs, batch)
    requires forall p :: p in processed ==> p.uid < batch[0].uid
    ensures processed + recs != [] && MaxUid(processed + recs) == batch[|batch| - 1].uid
  {
    var q := LastIsRecorded(recs, batch);
    RecordsUpToLast(recs, batch);
    assert batch[0].uid <= batch[|batch| - 1].uid;
    MaxUidIs(processed + recs, q);
  }

  lemma MoreCovered(processed: seq<Row>, recs: seq<Row>, m: Row)
    requires Covered(processed, m) || Covered(recs, m)
    ensures Covered(processed + recs, m)
  {
    if Covered(processed, m) {
      var p :| p in processed && p.id == m.id && p.uid >= m.uid;
      assert p in processed + recs;
    } else {
      var p :| p in recs && p.id == m.id && p.uid >= m.uid;
      assert p in processed + recs;
    }
  }

  ghost predicate AllRecorded(processed: seq<Row>, modified: seq<Row>, start: nat) {
    forall p :: p in processed ==> start < p.uid && exists m :: m in modified && RecordOf(p, m)
  }

  ghost predicate AllCovered(processed: seq<Row>, modified: seq<Row>, start: nat) {
    processed != [] ==> forall m :: m in modified && start < m.uid <= MaxUid(processed) ==> Covered(processed, m)
  }

  lemma BatchKeepsDistinct(processed: seq<Row>, recs: seq<Row>, cursor: nat)
    requires Distinct(processed) && Distinct(recs)
    requires (forall p :: p in processed ==> p.uid <= cursor) && (forall p :: p in recs ==> p.uid > cursor)
    ensures Distinct(processed + recs)
  {
    var all := processed + recs;
    forall i, j | 0 <= i < j < |all| ensures all[i].uid != all[j].uid {
      if i < |processed| <= j {
        assert all[i] in processed && all[j] in recs;
      }
    }
  }

  lemma BatchKeepsRecorded(processed: seq<Row>, modified: seq<Row>, start: nat, cursor: nat, batch: seq<Row>, recs: seq<Row>)
    requires IsBatch(batch, modified, cursor) && RecordsBatch(recs, batch) && start <= cursor
    requires AllRecorded(processed, modified, start)
    ensures AllRecorded(processed + recs, modified, start)
    ensures forall p :: p in recs ==> p.uid > cursor
  {
    forall p | p in recs ensures p.uid > cursor && exists m :: m in modified && RecordOf(p, m) {
      var m :| m in batch && RecordOf(p, m);
      assert m in modified;
    }
  }

  lemma BatchKeepsCovered(processed: seq<Row>, modified: seq<Row>, start: nat, cursor: nat, batch: seq<Row>, recs: seq<Row>)
    requires IsBatch(batch, modified, cursor) && RecordsBatch(recs, batch) && batch != []
    requires cursor == Cursor(processed, start) && AllCovered(processed, modified, start)
    requires processed + recs != [] && MaxUid(processed + recs) == batch[|batch| - 1].uid
    ensures AllCovered(processed + recs, modified, start)
  {
    forall m | m in modified && start < m.uid <= MaxUid(processed + recs) ensures Covered(processed + recs, m) {
      if m.uid <= cursor {
        assert Covered(processed, m);
      } else {
        assert m in batch;
      }
      MoreCovered(processed, recs, m);
    }
  }

  lemma CursorIsAbove(processed: seq<Row>, modified: seq<Row>, start: nat)
    requires AllRecorded(processed, modified, start)
    ensures start <= Cursor(processed, start)
    ensures forall p :: p in processed ==> p.uid <= Cursor(processed, start)
  {
  }

  /** A batch above the cursor keeps the records distinct and every row up to the new cursor covered. */
  lemma BatchKeepsTables(processed: seq<Row>, modified: seq<Row>, start: nat, cursor: nat, batch: seq<Row>, recs: seq<Row>)
    requires IsBatch(batch, modified, cursor) && RecordsBatch(recs, batch) && batch != []
    requires cursor == Cursor(processed, start) && Distinct(processed)
    requires AllRecorded(processed, modified, start) && AllCovered(processed, modified, start)
    ensures Distinct(processed + recs) && AllRecorded(processed + recs, modified, start) && AllCovered(processed + recs, modified, start)
    ensures processed + recs != [] && MaxUid(processed + recs) == batch[|batch| - 1].uid > cursor
  {
    assert batch[0] in batch && batch[|batch| - 1] in batch;
    CursorIsAbove(processed, modified, start);
    CursorMovesToLast(processed, recs, batch);
    BatchKeepsRecorded(processed, modified, start, cursor, batch, recs);
    BatchKeepsDistinct(processed, recs, cursor);
    BatchKeepsCovered(processed, modified, start, cursor, batch, recs);
  }

  // ---------------------------------------------------------------- the invariant of every run

  lemma ProduceKeepsInv(s: State, row: Row)
    requires Inv(s) && Possible(s, Produce(row))
    ensures Inv(s.(modified := s.modified + [row]))
  {
    var modified := s.modified + [row];
    forall p | p in s.processed ensures s.start < p.uid < row.uid && exists m :: m in modified && RecordOf(p, m) {
      var m :| m in s.modified && RecordOf(p, m);
      var k :| 0 <= k < |s.modified| && s.modified[k] == m;
      assert modified[k].uid < modified[|s.modified|].uid;
      assert m in modified;
    }
  }

  lemma EmptyBatch(handler: Row -> Row)
    ensures Records([], handler) == []
  {
    assert Keys([], IdOf) == [];
  }

  /** A fault or an empty batch leaves the tables and the starting cursor as they were. */
  lemma IdlePoll(s: State, default: nat, fault: Fault, limit: nat, handler: Row -> Row)
    requires !fault.NoFault? || Fetched(s.modified, Cursor(s.processed, default), limit) == []
    ensures Do(s, Poll(default, fault), limit, handler) == s
  {
    EmptyBatch(handler);
  }

  lemma BatchKeepsInv(s: State, default: nat, batch: seq<Row>, recs: seq<Row>)
    requires Inv(s) && IsBatch(batch, s.modified, Cursor(s.processed, default)) && batch != [] && RecordsBatch(recs, batch)
    ensures Inv(State(s.modified, s.processed + recs, if s.processed == [] then default else s.start)) && s.processed + recs != []
  {
    BatchKeepsTables(s.processed, s.modified, if s.processed == [] then default else s.start, Cursor(s.processed, default), batch, recs);
  }

  lemma PollKeepsInv(s: State, default: nat, fault: Fault, limit: nat, handler: Row -> Row)
    requires Inv(s) && KeepsKeys(handler)
    ensures Inv(Do(s, Poll(default, fault), limit, handler))
  {
    var batch := Fetched(s.modified, Cursor(s.processed, default), limit);
    if fault.NoFault? && batch != [] {
      FetchedIsBatch(s.modified, Cursor(s.processed, default), limit);
      BatchIsRecorded(batch, handler);
      BatchKeepsInv(s, default, batch, Records(batch, handler));
    } else {
      IdlePoll(s, default, fault, limit, handler);
    }
  }

  lemma {:induction false} RunKeepsInv(ops: seq<Op>, limit: nat, handler: Row -> Row)
    requires KeepsKeys(handler) && AllPossible(ops, limit, handler)
    ensures Inv(DoAll(ops, limit, handler))
  {
    if ops != [] {
      var init, op := ops[..|ops| - 1], ops[|ops| - 1];
      RunKeepsInv(init, limit, handler);
      match op
      case Produce(row) => ProduceKeepsInv(DoAll(init, limit, handler), row);
      case Poll(default, fault) => PollKeepsInv(DoAll(init, limit, handler), default, fault, limit, handler);
    }
  }

  /** Over every run, with any batch limit: no row is recorded twice, every record is that of a modified row above the
      starting cursor, and every modified row up to the cursor has a record at least as new as itself. */
  lemma NothingTwiceNothingMissed(ops: seq<Op>, limit: nat, handler: Row -> Row)
    requires KeepsKeys(handler) && AllPossible(ops, limit, handler)
    ensures var s := DoAll(ops, limit, handler);
      Distinct(s.processed) && AllRecorded(s.processed, s.modified, s.start) && AllCovered(s.processed, s.modified, s.start)
  {
    RunKeepsInv(ops, limit, handler);
  }

  /** The row is the newest of its id. */
  ghost predicate Newest(modified: seq<Row>, m: Row) {
    m in modified && forall n :: n in modified && n.id == m.id ==> n.uid <= m.uid
  }

  /** Nothing is left above the cursor. */
  ghost predicate Drained(s: State) {
    s.processed != [] && Backlog(s.modified, MaxUid(s.processed)) == []
  }

  ghost predicate ProcessedFor(s: State, m: Row) {
    exists p :: p in s.processed && RecordOf(p, m)
  }

  /** Once nothing is left above the cursor, the newest row of every id that has rows above the starting cursor has
      been processed. */
  lemma DrainedMeansNewestProcessed(ops: seq<Op>, limit: nat, handler: Row -> Row, m: Row)
    requires KeepsKeys(handler) && AllPossible(ops, limit, handler) && Drained(DoAll(ops, limit, handler))
    requires Newest(DoAll(ops, limit, handler).modified, m) && DoAll(ops, limit, handler).start < m.uid
    ensures ProcessedFor(DoAll(ops, limit, handler), m)
  {
    RunKeepsInv(ops, limit, handler);
    var s := DoAll(ops, limit, handler);
    BacklogIsAllAbove(s.modified, MaxUid(s.processed));
    assert m !in Backlog(s.modified, MaxUid(s.processed));
    assert Covered(s.processed, m);
    var p :| p in s.processed && p.id == m.id && p.uid >= m.uid;
    var n :| n in s.modified && RecordOf(p, n);
  }

  /** Progress: a poll that meets no fault moves the cursor up as long as rows wait above it. */
  lemma CursorIncreases(ops: seq<Op>, limit: nat, handler: Row -> Row, default: nat)
    requires KeepsKeys(handler) && AllPossible(ops, limit, handler) && limit >= 1
    requires var s := DoAll(ops, limit, handler); exists m :: m in s.modified && m.uid > Cursor(s.processed, default)
    ensures var s := DoAll(ops, limit, handler);
      Cursor(Polled(s.processed, s.modified, limit, handler, default, NoFault), default) > Cursor(s.processed, default)
  {
    RunKeepsInv(ops, limit, handler);
    var s := DoAll(ops, limit, handler);
    var cursor := Cursor(s.processed, default);
    var batch := Fetched(s.modified, cursor, limit);
    FetchedIsBatch(s.modified, cursor, limit);
    BatchIsRecorded(batch, handler);
    BatchKeepsTables(s.processed, s.modified, if s.processed == [] then default else s.start, cursor, batch, Records(batch, handler));
  }

  // ---------------------------------------------------------------- the limit of one row the queries use

  function Handled(rows: seq<Row>, handler: Row -> Row): (r: seq<Row>)
    ensures |r| == |rows|
  {
    seq(|rows|, k requires 0 <= k < |rows| => handler(rows[k]))
  }

  /** The processed rows are the handled rows above the starting cursor, oldest first, without a hole. */
  ghost predicate InOrder(s: State, handler: Row -> Row) {
    var rows := Backlog(s.modified, s.start);
    |s.processed| <= |rows| && s.processed == Handled(rows[..|s.processed|], handler)
  }

  lemma BacklogExtends(modified: seq<Row>, row: Row, cursor: nat)
    ensures Backlog(modified, cursor) <= Backlog(modified + [row], cursor)
  {
    var rows := Backlog(modified, cursor);
    var a := |modified| - |rows|;
    if rows != [] {
      assert modified[a] == rows[0];
      BacklogIs(modified + [row], cursor, a);
      assert (modified + [row])[a..] == rows + [row];
    }
  }

  lemma BacklogIs(modified: seq<Row>, cursor: nat, a: nat)
    requires a <= |modified| && forall k :: 0 <= k < a ==> modified[k].uid <= cursor
    requires a < |modified| ==> modified[a].uid > cursor
    ensures Backlog(modified, cursor) == modified[a..]
  {
    assert |modified| - |Backlog(modified, cursor)| == a;
  }

  lemma BacklogAbove(modified: seq<Row>, a: nat, uid: nat, rest: seq<Row>)
    requires Growing(modified) && 0 < a <= |modified| && uid == modified[a - 1].uid && rest == modified[a..]
    ensures Backlog(modified, uid) == rest
  {
    BacklogIs(modified, uid, a);
  }

  lemma AfterSuffix(modified: seq<Row>, rows: seq<Row>, b: nat, n: nat)
    requires Growing(modified) && b <= |modified| && rows == modified[b..] && 0 < n <= |rows|
    ensures Backlog(modified, rows[n - 1].uid) == rows[n..]
  {
    SuffixOf(modified, rows, b, n);
    BacklogAbove(modified, b + n, rows[n - 1].uid, rows[n..]);
  }

  lemma SuffixOf(all: seq<Row>, rows: seq<Row>, b: nat, n: nat)
    requires b <= |all| && rows == all[b..] && 0 < n <= |rows|
    ensures rows[n - 1] == all[b + n - 1] && rows[n..] == all[b + n..]
  {
  }

  lemma HandledMax(rows: seq<Row>, handler: Row -> Row)
    requires Growing(rows) && rows != [] && KeepsKeys(handler)
    ensures MaxUid(Handled(rows, handler)) == rows[|rows| - 1].uid
  {
    var all := Handled(rows, handler);
    forall r | r in all ensures r.uid <= all[|rows| - 1].uid {
      var k :| 0 <= k < |all| && all[k] == r;
      RowWithin(rows, rows[k]);
    }
    MaxUidIs(all, all[|rows| - 1]);
  }

  lemma OneRecord(row: Row, handler: Row -> Row)
    ensures Records([row], handler) == [handler(row)]
  {
    var keys := Keys([row], IdOf);
    KeysAreTheKeyValues([row], IdOf);
    KeysAscend([row], IdOf);
    assert IdOf([row][0]) in keys;
    assert keys == [row.id] by {
      if |keys| > 1 {
        assert keys[0] in keys && keys[1] in keys;
        LessIrreflexive(row.id);
      }
    }
    BatchGroupsExist([row]);
    LastIsNewest([row], row.id);
  }

  lemma BacklogIsSuffix(modified: seq<Row>, cursor: nat)
    ensures var rows := Backlog(modified, cursor); |rows| <= |modified| && rows == modified[|modified| - |rows|..]
  {
  }

  lemma PrefixGrows(rows: seq<Row>, n: nat)
    requires Growing(rows) && n <= |rows|
    ensures Growing(rows[..n])
  {
    SliceGrows(rows, rows[..n], 0);
  }

  lemma NextFrom(modified: seq<Row>, rows: seq<Row>, b: nat, processed: seq<Row>, handler: Row -> Row)
    requires Growing(modified) && KeepsKeys(handler) && b <= |modified| && rows == modified[b..]
    requires 0 < |processed| <= |rows| && processed == Handled(rows[..|processed|], handler)
    ensures Backlog(modified, MaxUid(processed)) == rows[|processed|..]
  {
    SliceGrows(modified, rows, b);
    PrefixGrows(rows, |processed|);
    HandledMax(rows[..|processed|], handler);
    AfterSuffix(modified, rows, b, |processed|);
  }

  /** The next poll starts right after the rows processed so far. */
  lemma NextBacklog(s: State, default: nat, handler: Row -> Row)
    requires Growing(s.modified) && KeepsKeys(handler) && InOrder(s, handler)
    ensures var start := if s.processed == [] then default else s.start;
      |s.processed| <= |Backlog(s.modified, start)| &&
      Backlog(s.modified, Cursor(s.processed, default)) == Backlog(s.modified, start)[|s.processed|..]
  {
    if s.processed != [] {
      BacklogIsSuffix(s.modified, s.start);
      var rows := Backlog(s.modified, s.start);
      NextFrom(s.modified, rows, |s.modified| - |rows|, s.processed, handler);
    }
  }

  /** A poll that meets no fault handles the oldest row above the cursor. */
  lemma PollOne(s: State, default: nat, handler: Row -> Row, rest: seq<Row>)
    requires rest == Backlog(s.modified, Cursor(s.processed, default)) && rest != []
    ensures Polled(s.processed, s.modified, 1, handler, default, NoFault) == s.processed + [handler(rest[0])]
  {
    OneRecord(rest[0], handler);
    assert Fetched(s.modified, Cursor(s.processed, default), 1) == [rest[0]];
  }

  lemma HandledNext(rows: seq<Row>, processed: seq<Row>, handler: Row -> Row)
    requires |processed| < |rows| && processed == Handled(rows[..|processed|], handler)
    ensures processed + [handler(rows[|processed|])] == Handled(rows[..|processed| + 1], handler)
  {
  }

  lemma NextInOrder(s: State, rows: seq<Row>, start: nat, handler: Row -> Row)
    requires rows == Backlog(s.modified, start) && |s.processed| < |rows|
    requires s.processed == Handled(rows[..|s.processed|], handler)
    ensures InOrder(State(s.modified, s.processed + [handler(rows[|s.processed|])], start), handler)
  {
    HandledNext(rows, s.processed, handler);
  }

  lemma PollOneState(s: State, default: nat, handler: Row -> Row, rest: seq<Row>)
    requires rest == Backlog(s.modified, Cursor(s.processed, default)) && rest != []
    ensures Do(s, Poll(default, NoFault), 1, handler) == State(s.modified, s.processed + [handler(rest[0])], if s.processed == [] then default else s.start)
  {
    PollOne(s, default, handler, rest);
  }

  lemma BusyPollKeepsOrder(s: State, default: nat, handler: Row -> Row, rows: seq<Row>, rest: seq<Row>)
    requires rows == Backlog(s.modified, if s.processed == [] then default else s.start)
    requires |s.processed| <= |rows| && s.processed == Handled(rows[..|s.processed|], handler)
    requires rest == Backlog(s.modified, Cursor(s.processed, default)) == rows[|s.processed|..] && rest != []
    ensures InOrder(Do(s, Poll(default, NoFault), 1, handler), handler)
  {
    PollOneState(s, default, handler, rest);
    NextInOrder(s, rows, if s.processed == [] then default else s.start, handler);
  }

  lemma PollKeepsOrder(s: State, default: nat, fault: Fault, handler: Row -> Row)
    requires Growing(s.modified) && KeepsKeys(handler) && InOrder(s, handler)
    ensures InOrder(Do(s, Poll(default, fault), 1, handler), handler)
  {
    var rest := Backlog(s.modified, Cursor(s.processed, default));
    if fault.NoFault? && rest != [] {
      NextBacklog(s, default, handler);
      BusyPollKeepsOrder(s, default, handler, Backlog(s.modified, if s.processed == [] then default else s.start), rest);
    } else {
      IdlePoll(s, default, fault, 1, handler);
    }
  }

  lemma ProduceKeepsOrder(s: State, row: Row, handler: Row -> Row)
    requires InOrder(s, handler)
    ensures InOrder(s.(modified := s.modified + [row]), handler)
  {
    BacklogExtends(s.modified, row, s.start);
    var rows, more := Backlog(s.modified, s.start), Backlog(s.modified + [row], s.start);
    assert more[..|s.processed|] == rows[..|s.processed|];
  }

  /** With the limit of one row, the processed table of every run is exactly the handled modified rows above the
      starting cursor, in uid order and without a hole. */
  lemma {:induction false} OneRowAtATime(ops: seq<Op>, handler: Row -> Row)
    requires KeepsKeys(handler) && AllPossible(ops, 1, handler)
    ensures InOrder(DoAll(ops, 1, handler), handler)
  {
    if ops != [] {
      var init, op := ops[..|ops| - 1], ops[|ops| - 1];
      OneRowAtATime(init, handler);
      RunKeepsInv(init, 1, handler);
      match op
      case Produce(row) => ProduceKeepsOrder(DoAll(init, 1, handler), row, handler);
      case Poll(default, fault) => PollKeepsOrder(DoAll(init, 1, handler), default, fault, handler);
    }
  }

  lemma OldestFirst(rows: seq<Row>, modified: seq<Row>, cursor: nat, r: Row, x: Row)
    requires IsBatch(rows, modified, cursor) && r in rows && x in modified && x !in rows && x.uid > cursor
    ensures r.uid < x.uid
  {
    RowWithin(rows, r);
  }

  lemma FewerAreAll(modified: seq<Row>, cursor: nat, limit: nat)
    requires Growing(modified) && |Fetched(modified, cursor, limit)| < limit
    ensures forall r :: r in modified && r.uid > cursor ==> r in Fetched(modified, cursor, limit)
  {
    BacklogIsAllAbove(modified, cursor);
  }

  /** What a poll fetches: at most `limit` rows above the cursor, the oldest ones, and all of them if there are fewer. */
  lemma FetchedAre(modified: seq<Row>, cursor: nat, limit: nat)
    requires Growing(modified)
    ensures |Fetched(modified, cursor, limit)| <= limit
    ensures forall r :: r in Fetched(modified, cursor, limit) ==> r in modified && r.uid > cursor
    ensures |Fetched(modified, cursor, limit)| < limit ==> forall r :: r in modified && r.uid > cursor ==> r in Fetched(modified, cursor, limit)
    ensures forall r, x :: r in Fetched(modified, cursor, limit) && x in modified && x !in Fetched(modified, cursor, limit) && x.uid > cursor ==> r.uid < x.uid
  {
    var rows := Fetched(modified, cursor, limit);
    FetchedIsBatch(modified, cursor, limit);
    if |rows| < limit {
      FewerAreAll(modified, cursor, limit);
    }
    forall r, x | r in rows && x in modified && x !in rows && x.uid > cursor ensures r.uid < x.uid {
      OldestFirst(rows, modified, cursor, r, x);
    }
  }

  /** Where a poll starts: at the greatest processed uid, or at the default if nothing is processed. */
  lemma CursorIs(processed: seq<Row>, default: nat)
    ensures processed == [] ==> Cursor(processed, default) == default
    ensures processed != [] ==> exists r :: r in processed && r.uid == Cursor(processed, default)
    ensures forall r :: r in processed ==> r.uid <= Cursor(processed, default)
  {
    if processed != [] {
      var k := MaxIsThere(processed);
      assert processed[k] in processed;
    }
  }

  lemma {:induction false} MaxIsThere(rows: seq<Row>) returns (k: nat)
    requires rows != []
    ensures k < |rows| && rows[k].uid == MaxUid(rows)
  {
    k := 0;
    if |rows| > 1 && MaxUid(rows[1..]) >= rows[0].uid {
      k := MaxIsThere(rows[1..]);
      k := k + 1;
    }
  }
}
