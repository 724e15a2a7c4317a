/** What becomes of calls of mt_append_event: the rows and the type that committed ones leave, and how a lone call that
    cannot succeed ends. */
module AppendOutcomes {
  import opened AppendProtocol
  import opened AppendRuns

  /** Row k of a committed call, field by field: its own sequence value, the call's k-th id, body and type, and the
      k-th version after the one the call read. */
  lemma CommittedRow(acts: seq<Action>, i: nat, k: nat)
    requires Runs(START, acts) && NonEmptyCalls(acts)
    requires i < |Exec(START, acts).txs| && Exec(START, acts).txs[i].pc.Committed? && k < |Exec(START, acts).txs[i].call.ids|
    ensures var s := Exec(START, acts); var t := s.txs[i]; var c, r, log := t.call, ReturnValue(t), StreamLog(s.tables.events, t.call.stream);
      && Complete(c) && |r| == 1 + |c.ids| && |c.ids| <= r[0] <= |log|
      && var row := log[r[0] - |c.ids| + k];
         && row.seqId == r[1 + k] && row.id == c.ids[k] && row.stream == c.stream
         && row.version == r[0] - |c.ids| + k + 1 && row.body == c.bodies[k] && row.eventType == c.types[k]
  {
    CommittedCall(acts, i);
    var s := Exec(START, acts);
    var t := s.txs[i];
    var r := ReturnValue(t);
    assert RowsOf(t.call, r[0] - |t.call.ids|, r[1..])[k].seqId == r[1..][k];
  }

  /** A stream exists exactly when some call for it has committed, and it keeps the type that the first one gave it. */
  lemma {:induction false} StreamTypeIsTheFirst(history: seq<Commit>, stream: string)
    requires WellFormed(history)
    ensures stream in Replay(history).streams <==> exists k :: 0 <= k < |history| && history[k].call.stream == stream
    ensures forall k :: 0 <= k < |history| && history[k].call.stream == stream && (forall j :: 0 <= j < k ==> history[j].call.stream != stream) ==>
              Replay(history).streams[stream].streamType == history[k].call.streamType
  {
    if history != [] {
      var init, last := history[..|history| - 1], history[|history| - 1];
      StreamTypeIsTheFirst(init, stream);
      forall k | 0 <= k < |init| ensures history[k] == init[k] {
      }
      assert history[|init|] == last;
      if stream in Replay(init).streams {
        var k :| 0 <= k < |init| && init[k].call.stream == stream;
        assert history[k].call.stream == stream;
      }
    }
  }

  // ---------------------------------------------------------------- a call that is rejected when it runs alone

  /** Event k of the call raises an error: its id is stored or repeated, its sequence value does not fit into an
      integer, or it has no type or body. */
  predicate Rejects(t: Tables, nextSeq: nat, c: Call, k: nat) {
    k < |c.ids| &&
      (|| (exists e :: 0 <= e < |t.events| && t.events[e].id == c.ids[k])
       || (exists a :: 0 <= a < k && c.ids[a] == c.ids[k])
       || nextSeq + k > 2147483647 || k >= |c.types| || k >= |c.bodies|)
  }

  predicate FirstRejected(t: Tables, nextSeq: nat, c: Call, k: nat) {
    Rejects(t, nextSeq, c, k) && forall j :: 0 <= j < k ==> !Rejects(t, nextSeq, c, j)
  }

  /** The version that the call would end with does not fit. */
  predicate TooLong(t: Tables, c: Call) {
    c.ids != [] && VersionOf(t, c.stream) + |c.ids| > 2147483647
  }

  lemma {:induction false} NoneRejectedUpTo(t: Tables, nextSeq: nat, c: Call, k: nat)
    requires k <= |c.ids| && !TooLong(t, c)
    ensures AcceptableUpTo(t, nextSeq, c, k) <==> forall j :: 0 <= j < k ==> !Rejects(t, nextSeq, c, j)
  {
    if AcceptableUpTo(t, nextSeq, c, k) {
      forall j | 0 <= j < k ensures !Rejects(t, nextSeq, c, j) {
      }
    }
    if forall j :: 0 <= j < k ==> !Rejects(t, nextSeq, c, j) {
      NoneRejected(t, nextSeq, c, k);
    }
  }

  lemma NoneRejected(t: Tables, nextSeq: nat, c: Call, k: nat)
    requires k <= |c.ids| && !TooLong(t, c) && forall j :: 0 <= j < k ==> !Rejects(t, nextSeq, c, j)
    ensures AcceptableUpTo(t, nextSeq, c, k)
  {
    assert k > 0 ==> !Rejects(t, nextSeq, c, k - 1);
    forall a, b | 0 <= a < b < k ensures c.ids[a] != c.ids[b] {
      assert !Rejects(t, nextSeq, c, b);
    }
    forall a, e | 0 <= a < k && 0 <= e < |t.events| ensures t.events[e].id != c.ids[a] {
      assert !Rejects(t, nextSeq, c, a);
    }
  }

  /** The last two steps of a rejected call: it draws a value, and then fails. */
  lemma RejectedDraws(s: System, c: Call, k: nat)
    requires Inv(s) && Quiet(s) && !TooLong(s.tables, c) && FirstRejected(s.tables, s.nextSeq, c, k)
    requires AcceptableUpTo(s.tables, s.nextSeq, c, k)
    ensures var i := |s.txs|; var s1 := Apply(AloneAt(s, c, k), Step(i));
      && s1.tables == s.tables && s1.nextSeq == s.nextSeq + k + 1 && s1.txs[..i] == s.txs && |s1.txs| == i + 1
      && (s.nextSeq + k > 2147483647 ==> s1.txs[i].pc.Aborted?)
      && (s.nextSeq + k <= 2147483647 ==> s1.txs[i].pc.Insert? && Enabled(s1, Step(i)) && Apply(s1, Step(i)).txs[i].pc.Aborted?)
  {
    var i := |s.txs|;
    var s1 := Apply(AloneAt(s, c, k), Step(i));
    var t1 := s1.txs[i];
    if s.nextSeq + k <= 2147483647 && HasNextValues(t1) {
      InsertClashesIff(s.tables, s.nextSeq, c, k, NextRow(t1));
    }
  }

  /** A lone call whose event k is the first to raise an error aborts: the tables stay, and k + 1 sequence values are
      gone. */
  lemma CallAloneRejected(s: System, c: Call, k: nat) returns (acts: seq<Action>)
    requires Inv(s) && Quiet(s) && !TooLong(s.tables, c) && FirstRejected(s.tables, s.nextSeq, c, k)
    ensures Runs(s, acts) && forall a :: a in acts && a.Begin? ==> a.call == c
    ensures var s' := Exec(s, acts);
      && s'.tables == s.tables && s'.nextSeq == s.nextSeq + k + 1
      && |s'.txs| == |s.txs| + 1 && s'.txs[..|s.txs|] == s.txs && s'.txs[|s.txs|].pc.Aborted?
  {
    var i := |s.txs|;
    NoneRejectedUpTo(s.tables, s.nextSeq, c, k);
    acts := AloneReaches(s, c, k);
    RejectedDraws(s, c, k);
    ExecSnoc(s, acts, Step(i));
    acts := acts + [Step(i)];
    if s.nextSeq + k <= 2147483647 {
      ExecSnoc(s, acts, Step(i));
      acts := acts + [Step(i)];
    }
  }

  /** A lone call whose final version does not fit aborts before it draws anything. */
  lemma CallAloneTooLong(s: System, c: Call) returns (acts: seq<Action>)
    requires Inv(s) && Quiet(s) && TooLong(s.tables, c)
    ensures Runs(s, acts) && forall a :: a in acts && a.Begin? ==> a.call == c
    ensures var s' := Exec(s, acts);
      && s'.tables == s.tables && s'.nextSeq == s.nextSeq
      && |s'.txs| == |s.txs| + 1 && s'.txs[..|s.txs|] == s.txs && s'.txs[|s.txs|].pc.Aborted?
  {
    var i := |s.txs|;
    acts := [];
    ExecSnoc(s, acts, Begin(c));
    acts := acts + [Begin(c)];
    ExecSnoc(s, acts, Step(i));
    acts := acts + [Step(i)];
    if c.stream !in s.tables.streams {
      assert !Blocked(Exec(s, acts), i);
      ExecSnoc(s, acts, Step(i));
      acts := acts + [Step(i)];
    }
  }
}
