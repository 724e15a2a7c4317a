/** mt_append_event as the procedure is written, run on tables nobody else is using. */
module AppendProcedure {
  import opened Wrappers
  import opened AppendProtocol
  import opened AppendRuns
  import opened AppendOutcomes

  /** return_value: its head is array_length(event_ids) past the old version, NULL for an empty array. */
  datatype Reply = Reply(lastVersion: Option<nat>, seqs: seq<nat>)

  ghost predicate TablesOk(t: Tables, nextSeq: nat) {
    GapFree(t) && KeysDistinct(t.events) && Issued(t.events, nextSeq)
  }

  /** How many sequence values the call draws, its first k events having been inserted. */
  function Drawn(t: Tables, first: nat, c: Call, k: nat): (n: nat)
    requires AcceptableUpTo(t, first, c, k)
    ensures k <= n <= |c.ids|
    ensures Acceptable(t, first, c) ==> n == |c.ids|
    decreases |c.ids| - k
  {
    if k == |c.ids| then k else if AcceptableUpTo(t, first, c, k + 1) then Drawn(t, first, c, k + 1) else k + 1
  }

  /** How many sequence values the call draws: none if its return value cannot even be initialized. */
  function DrawnBy(t: Tables, first: nat, c: Call): (n: nat)
    ensures n <= |c.ids| && (Acceptable(t, first, c) ==> n == |c.ids|)
  {
    if Overflows(VersionOf(t, c.stream), c) then 0 else Drawn(t, first, c, 0)
  }

  class Database {
    var streams: map<string, StreamRow>
    var events: seq<Row>
    var nextSeq: nat

    /** Every value nextval has returned, whatever became of the call. */
    ghost var drawn: seq<nat>

    ghost predicate Valid()
      reads this
    {
      TablesOk(Contents(), nextSeq) && forall x :: x in drawn ==> x < nextSeq
    }

    function Contents(): Tables
      reads this
    {
      Tables(streams, events)
    }

    constructor ()
      ensures Valid() && Contents() == NO_TABLES && nextSeq == 1 && drawn == []
    {
      streams, events, nextSeq, drawn := map[], [], 1, [];
      new;
      assert forall s: string :: GapFreeAt(NO_TABLES, s);
    }

    /** The body of the loop, for event k of the call: draw a sequence value and insert the row. The insert
        raises an error exactly when the first k + 1 events are not acceptable, given that the first k were. */
    method InsertEvent(c: Call, k: nat, version: nat, ghost before: Tables, ghost first: nat) returns (next: Option<nat>)
      requires TablesOk(before, first) && k < |c.ids| && AcceptableUpTo(before, first, c, k)
      requires version == VersionOf(before, c.stream) + k && nextSeq == first + k
      requires events == before.events + RowsOf(c, VersionOf(before, c.stream), Counting(first, k))
      modifies this`events, this`nextSeq, this`drawn
      ensures nextSeq == first + k + 1 && drawn == old(drawn) + [first + k]
      ensures next.Some? <==> AcceptableUpTo(before, first, c, k + 1)
      ensures next.Some? ==> next.value == first + k
      ensures next.Some? ==> events == before.events + RowsOf(c, VersionOf(before, c.stream), Counting(first, k + 1))
    {
      var value := nextSeq;
      nextSeq := nextSeq + 1;
      drawn := drawn + [value];
      if value > MAX_INT4 || version + 1 > MAX_INT4 || k >= |c.types| || k >= |c.bodies| {
        return None;
      }
      var row := Row(value, c.ids[k], c.stream, version + 1, c.bodies[k], c.types[k]);
      InsertClashesIff(before, first, c, k, row);
      ClashesConcat(row, before.events, RowsOf(c, VersionOf(before, c.stream), Counting(first, k)));
      if Clashes(row, events) {
        return None;
      }
      RowsOfNext(c, VersionOf(before, c.stream), first, k);
      events := events + [row];
      next := Some(value);
    }

    /** The foreach loop: it stops at the first event that cannot be inserted. */
    method InsertEvents(c: Call, base: nat, ghost before: Tables, ghost first: nat) returns (seqs: Option<seq<nat>>)
      requires TablesOk(before, first) && events == before.events && nextSeq == first && base == VersionOf(before, c.stream)
      modifies this`events, this`nextSeq, this`drawn
      ensures seqs.Some? <==> Acceptable(before, first, c)
      ensures nextSeq >= first && drawn == old(drawn) + Counting(first, nextSeq - first)
      ensures seqs.Some? ==> seqs.value == Counting(first, |c.ids|) && nextSeq == first + |c.ids|
      ensures seqs.Some? ==> events == before.events + RowsOf(c, base, seqs.value)
      ensures nextSeq == first + Drawn(before, first, c, 0)
    {
      var version, values := base, [];
      for k := 0 to |c.ids|
        invariant version == base + k && nextSeq == first + k && values == Counting(first, k)
        invariant drawn == old(drawn) + Counting(first, k)
        invariant AcceptableUpTo(before, first, c, k) && Drawn(before, first, c, 0) == Drawn(before, first, c, k)
        invariant events == before.events + RowsOf(c, base, Counting(first, k))
      {
        CountingNext(first, k);
        var next := InsertEvent(c, k, version, before, first);
        if next.None? {
          NotAcceptableFurther(before, first, c, k + 1);
          return None;
        }
        values := values + [next.value];
        version := version + 1;
      }
      seqs := Some(values);
    }

    /** The call succeeds exactly when it is acceptable, and then has its serial effect; otherwise an error rolls
        the tables back, but not the sequence. The return value is initialized before the loop draws anything. */
    method AppendEvent(c: Call) returns (r: Option<Reply>)
      requires Valid()
      modifies this
      ensures Valid()
      ensures r.Some? <==> old(Acceptable(Contents(), nextSeq, c))
      ensures r.Some? ==>
        && Contents() == AppendAtomically(old(Contents()), c, Counting(old(nextSeq), |c.ids|))
        && r.value == Reply(if c.ids == [] then None else Some(VersionOf(Contents(), c.stream)), Counting(old(nextSeq), |c.ids|))
      ensures r.None? ==> Contents() == old(Contents())
      ensures nextSeq == old(nextSeq) + old(DrawnBy(Contents(), nextSeq, c))
      ensures old(TooLong(Contents(), c)) ==> r.None? && nextSeq == old(nextSeq)
      ensures forall k: nat :: old(!TooLong(Contents(), c) && FirstRejected(Contents(), nextSeq, c, k)) ==> r.None? && nextSeq == old(nextSeq) + k + 1
      ensures drawn == old(drawn) + Counting(old(nextSeq), nextSeq - old(nextSeq))
      ensures r.Some? ==> forall x, y :: x in old(drawn) && y in r.value.seqs ==> x < y
    {
      ghost var before, first := Contents(), nextSeq;
      DrawnIs(before, first, c);
      var oldStreams, oldEvents := streams, events;
      var version := 0;
      if c.stream in streams {
        version := streams[c.stream].version;
      } else {
        streams := streams[c.stream := StreamRow(c.streamType, 0)];
      }
      if c.ids != [] && version + |c.ids| > MAX_INT4 {
        streams := oldStreams;
        assert Contents() == before;
        return None;
      }
      var inserted := InsertEvents(c, version, before, first);
      if inserted.None? {
        streams, events := oldStreams, oldEvents;
        assert Contents() == before;
        IssuedLater(events, first, nextSeq);
        return None;
      }
      streams := streams[c.stream := streams[c.stream].(version := version + |c.ids|)];
      assert Contents() == AppendAtomically(before, c, inserted.value);
      AppendKeepsTablesOk(before, first, c);
      r := Some(Reply(if c.ids == [] then None else Some(version + |c.ids|), inserted.value));
    }
  }

  lemma CountingNext(first: nat, k: nat)
    ensures Counting(first, k + 1) == Counting(first, k) + [first + k]
  {
  }

  lemma {:induction false} DrawnFrom(t: Tables, first: nat, c: Call, j: nat, k: nat)
    requires !TooLong(t, c) && FirstRejected(t, first, c, k) && j <= k && AcceptableUpTo(t, first, c, j)
    ensures Drawn(t, first, c, j) == k + 1
    decreases k - j
  {
    NoneRejectedUpTo(t, first, c, j + 1);
    if j < k {
      DrawnFrom(t, first, c, j + 1, k);
    }
  }

  /** A call draws nothing if it is too long, and otherwise one value for each event up to the first rejected one. */
  lemma DrawnIs(t: Tables, first: nat, c: Call)
    ensures TooLong(t, c) ==> DrawnBy(t, first, c) == 0 && !Acceptable(t, first, c)
    ensures forall k: nat :: !TooLong(t, c) && FirstRejected(t, first, c, k) ==> DrawnBy(t, first, c) == k + 1 && !Acceptable(t, first, c)
  {
    forall k: nat | !TooLong(t, c) && FirstRejected(t, first, c, k) ensures DrawnBy(t, first, c) == k + 1 && !Acceptable(t, first, c) {
      DrawnFrom(t, first, c, 0, k);
      NoneRejectedUpTo(t, first, c, |c.ids|);
    }
  }

  lemma {:induction false} SomeRejected(t: Tables, first: nat, c: Call, n: nat) returns (k: nat)
    requires n <= |c.ids| && exists j :: 0 <= j < n && Rejects(t, first, c, j)
    ensures k < n && FirstRejected(t, first, c, k)
  {
    if exists j :: 0 <= j < n - 1 && Rejects(t, first, c, j) {
      k := SomeRejected(t, first, c, n - 1);
    } else {
      k := n - 1;
    }
  }

  /** The procedure run alone is the protocol run alone: whatever the call, some steps of its own transaction lead to
      the tables and the sequence that the procedure leaves, and commit exactly when the procedure replies. */
  lemma AloneAsProtocol(s: System, c: Call) returns (acts: seq<Action>)
    requires Inv(s) && Quiet(s)
    ensures Runs(s, acts) && forall a :: a in acts && a.Begin? ==> a.call == c
    ensures var s' := Exec(s, acts);
      && s'.tables == (if Acceptable(s.tables, s.nextSeq, c) then AppendAtomically(s.tables, c, Counting(s.nextSeq, |c.ids|)) else s.tables)
      && s'.nextSeq == s.nextSeq + DrawnBy(s.tables, s.nextSeq, c)
      && |s'.txs| == |s.txs| + 1 && (s'.txs[|s.txs|].pc.Committed? <==> Acceptable(s.tables, s.nextSeq, c))
  {
    DrawnIs(s.tables, s.nextSeq, c);
    if TooLong(s.tables, c) {
      acts := CallAloneTooLong(s, c);
    } else {
      NoneRejectedUpTo(s.tables, s.nextSeq, c, |c.ids|);
      if Acceptable(s.tables, s.nextSeq, c) {
        acts := CallAloneCommits(s, c);
      } else if exists j :: 0 <= j < |c.ids| && Rejects(s.tables, s.nextSeq, c, j) {
        var k := SomeRejected(s.tables, s.nextSeq, c, |c.ids|);
        acts := CallAloneRejected(s, c, k);
      }
    }
  }

  lemma NotAcceptableFurther(t: Tables, first: nat, c: Call, k: nat)
    requires k <= |c.ids| && !AcceptableUpTo(t, first, c, k)
    ensures !Acceptable(t, first, c)
  {
  }

  lemma IssuedLater(rows: seq<Row>, first: nat, next: nat)
    requires Issued(rows, first) && first <= next
    ensures Issued(rows, next)
  {
  }

  lemma ClashesConcat(r: Row, a: seq<Row>, b: seq<Row>)
    ensures Clashes(r, a + b) <==> Clashes(r, a) || Clashes(r, b)
  {
    if Clashes(r, a) {
      var k :| 0 <= k < |a| && Conflict(r, a[k]);
      assert Conflict(r, (a + b)[k]);
    }
    if Clashes(r, b) {
      var k :| 0 <= k < |b| && Conflict(r, b[k]);
      assert Conflict(r, (a + b)[|a| + k]);
    }
  }

  lemma RowsOfNext(c: Call, base: nat, first: nat, k: nat)
    requires k < |c.ids| && k < |c.types| && k < |c.bodies|
    ensures Counting(first, k + 1) == Counting(first, k) + [first + k]
    ensures RowsOf(c, base, Counting(first, k + 1))
         == RowsOf(c, base, Counting(first, k)) + [Row(first + k, c.ids[k], c.stream, base + k + 1, c.bodies[k], c.types[k])]
  {
  }

  lemma AppendKeepsTablesOk(t: Tables, first: nat, c: Call)
    requires TablesOk(t, first) && Acceptable(t, first, c)
    ensures TablesOk(AppendAtomically(t, c, Counting(first, |c.ids|)), first + |c.ids|)
  {
    AppendKeepsGapFree(t, c, Counting(first, |c.ids|));
    var base := VersionOf(t, c.stream);
    var own := RowsOf(c, base, Counting(first, |c.ids|));
    forall k, e | 0 <= k < |own| && 0 <= e < |t.events| ensures !Conflict(t.events[e], own[k]) {
      InsertClashesIff(t, first, c, k, own[k]);
    }
  }

  // ---------------------------------------------------------------- every run of calls, rejected ones included

  ghost function Run(calls: seq<Call>): (Tables, nat) {
    if calls == [] then (NO_TABLES, 1)
    else
      var r, c := Run(calls[..|calls| - 1]), calls[|calls| - 1];
      (if Acceptable(r.0, r.1, c) then AppendAtomically(r.0, c, Counting(r.1, |c.ids|)) else r.0, r.1 + DrawnBy(r.0, r.1, c))
  }

  lemma {:induction false} SequenceGrows(calls: seq<Call>, n: nat)
    requires n <= |calls|
    ensures Run(calls[..n]).1 <= Run(calls).1
    decreases |calls| - n
  {
    if n < |calls| {
      assert calls[..n + 1][..n] == calls[..n];
      SequenceGrows(calls, n + 1);
    } else {
      assert calls[..n] == calls;
    }
  }

  /** The sequence is never rolled back: every value an accepted call returns is greater than every value drawn by an
      earlier call, accepted, too long, or rejected at any event. */
  lemma RepliesAreLater(calls: seq<Call>, j: nat, k: nat)
    requires j < k < |calls|
    ensures var before, after := Run(calls[..j]), Run(calls[..j + 1]);
      && before.1 <= after.1 <= Run(calls[..k]).1
      && (TooLong(before.0, calls[j]) ==> after.1 == before.1)
      && (Acceptable(before.0, before.1, calls[j]) ==> after.1 == before.1 + |calls[j].ids|)
      && (forall e: nat :: !TooLong(before.0, calls[j]) && FirstRejected(before.0, before.1, calls[j], e) ==> after.1 == before.1 + e + 1)
  {
    assert calls[..j + 1][..j] == calls[..j];
    assert calls[..k][..j + 1] == calls[..j + 1];
    SequenceGrows(calls[..k], j + 1);
    DrawnIs(Run(calls[..j]).0, Run(calls[..j]).1, calls[j]);
  }
}
