/** Events, the buffer an event store appends them to, and the projection getMaxEvent. */
module Events {
  import opened Wrappers
  import opened GroupBy

  /** A json object: its "id" member, if any, and its printed form. */
  datatype Json = Json(id: Option<string>, text: string)

  datatype Event = Event(seqId: int, id: string, streamId: string, eventType: string, version: int, data: Json, timestamp: int)

  function StreamIdOf(e: Event): string {
    e.streamId
  }

  function DataId(e: Event): string {
    e.data.id.GetOr("")
  }

  /** e is the first of the events with the given data id that no other of them exceeds. */
  ghost predicate FirstLatest(events: seq<Event>, dataId: string, e: Event) {
    exists i :: 0 <= i < |events| && events[i] == e && FirstLatestAt(events, dataId, i)
  }

  ghost predicate FirstLatestAt(events: seq<Event>, dataId: string, i: nat)
    requires i < |events|
  {
    && DataId(events[i]) == dataId
    && forall j :: 0 <= j < |events| && DataId(events[j]) == dataId ==>
         events[j].seqId <= events[i].seqId && (j < i ==> events[j].seqId < events[i].seqId)
  }

  /** m is the first maximum of the group above the base value -1, standing at `at`, or the base value. */
  ghost predicate Accumulated(group: seq<Event>, base: Event, m: Event, at: int) {
    && (forall j :: 0 <= j < |group| ==> group[j].seqId <= m.seqId)
    && if exists j :: 0 <= j < |group| && group[j].seqId >= 0
       then 0 <= at < |group| && group[at] == m && forall j :: 0 <= j < at ==> group[j].seqId < m.seqId
       else m == base
  }

  /** The accumulate loop. */
  method Latest(group: seq<Event>, base: Event) returns (m: Event, ghost at: int)
    requires base.seqId == -1
    ensures m == base || m in group
    ensures forall j :: 0 <= j < |group| ==> group[j].seqId <= m.seqId
    ensures Accumulated(group, base, m, at)
  {
    m, at := base, -1;
    for i := 0 to |group|
      invariant m.seqId >= -1 && (m.seqId == -1 ==> m == base) && (m == base || m in group)
      invariant Accumulated(group[..i], base, m, at)
    {
      if group[i].seqId > m.seqId {
        m, at := group[i], i;
      }
    }
    assert group[..|group|] == group;
  }

  /** The position in the input of the p-th selected element. */
  lemma {:induction false} SelectedFrom<T>(xs: seq<T>, f: T -> string, key: string, p: nat) returns (i: nat)
    requires p < |Select(xs, f, key)|
    ensures i < |xs| && xs[i] == Select(xs, f, key)[p] && f(xs[i]) == key
    ensures Select(xs[..i], f, key) == Select(xs, f, key)[..p]
  {
    var init := xs[..|xs| - 1];
    if p < |Select(init, f, key)| {
      i := SelectedFrom(init, f, key, p);
      assert init[..i] == xs[..i];
    } else {
      i := |xs| - 1;
    }
  }

  lemma FirstLatestInGroup(events: seq<Event>, dataId: string, p: nat)
    requires p < |Select(events, DataId, dataId)|
    requires var g := Select(events, DataId, dataId);
      forall j :: 0 <= j < |g| ==> g[j].seqId <= g[p].seqId && (j < p ==> g[j].seqId < g[p].seqId)
    ensures FirstLatest(events, dataId, Select(events, DataId, dataId)[p])
  {
    var g := Select(events, DataId, dataId);
    var i := SelectedFrom(events, DataId, dataId, p);
    forall j | 0 <= j < |events| && DataId(events[j]) == dataId
      ensures events[j].seqId <= events[i].seqId && (j < i ==> events[j].seqId < events[i].seqId)
    {
      assert events[j] in g;
      if j < i {
        assert events[..i][j] in Select(events[..i], DataId, dataId);
      }
    }
    assert FirstLatestAt(events, dataId, i);
  }

  /** The event getMaxEvent reports for a data id. */
  ghost predicate Reported(events: seq<Event>, dataId: string, base: Event, m: Event) {
    if exists e :: e in events && DataId(e) == dataId && e.seqId >= 0 then FirstLatest(events, dataId, m) else m == base
  }

  lemma LatestIsReported(events: seq<Event>, dataId: string, base: Event, m: Event, at: int)
    requires Accumulated(Select(events, DataId, dataId), base, m, at)
    ensures Reported(events, dataId, base, m)
  {
    var g := Select(events, DataId, dataId);
    if exists e :: e in events && DataId(e) == dataId && e.seqId >= 0 {
      var e :| e in events && DataId(e) == dataId && e.seqId >= 0;
      assert e in g;
      FirstLatestInGroup(events, dataId, at);
    }
  }

  ghost predicate ReportedFor(events: seq<Event>, base: Event, keys: seq<string>, latest: seq<Event>) {
    |latest| == |keys| && forall k :: 0 <= k < |keys| ==> Reported(events, keys[k], base, latest[k])
  }

  /** One event for each distinct data id, in ascending order of the ids: the first one with the greatest
      sequence id, or the base value for an id whose events all have negative sequence ids. */
  method GetMaxEvent(events: seq<Event>, base: Event) returns (latest: seq<Event>)
    requires base.seqId == -1
    ensures ReportedFor(events, base, Keys(events, DataId), latest)
    ensures (forall i :: 0 <= i < |events| ==> events[i].seqId >= 0) ==> OnePerId(events, latest)
  {
    ghost var keys := Keys(events, DataId);
    var streams := GroupBy.GroupBy(events, [DataId]);
    latest := [];
    for k := 0 to |streams.entries|
      invariant k <= |keys| && ReportedFor(events, base, keys[..k], latest)
    {
      GroupAt(events, DataId, k);
      var maxEvent, at := Latest(streams.entries[k].group.items, base);
      LatestIsReported(events, keys[k], base, maxEvent, at);
      ReportedNext(events, base, keys, k, latest, maxEvent);
      latest := latest + [maxEvent];
    }
    assert keys[..|keys|] == keys;
    ReportedOnePerIdIf(events, base, latest);
  }

  lemma ReportedNext(events: seq<Event>, base: Event, keys: seq<string>, k: nat, latest: seq<Event>, m: Event)
    requires k < |keys| && ReportedFor(events, base, keys[..k], latest) && Reported(events, keys[k], base, m)
    ensures ReportedFor(events, base, keys[..k + 1], latest + [m])
  {
    forall i | 0 <= i < k + 1 ensures Reported(events, keys[..k + 1][i], base, (latest + [m])[i]) {
      if i < k {
        assert keys[..k + 1][i] == keys[..k][i];
      }
    }
  }

  lemma ReportedIsFirstLatest(events: seq<Event>, base: Event, dataId: string, m: Event)
    requires forall i :: 0 <= i < |events| ==> events[i].seqId >= 0
    requires dataId in Keys(events, DataId) && Reported(events, dataId, base, m)
    ensures FirstLatest(events, dataId, m) && DataId(m) == dataId
  {
    KeysAreTheKeyValues(events, DataId);
    var i :| 0 <= i < |events| && DataId(events[i]) == dataId;
    assert events[i] in events;
  }

  /** Hence, for non-negative sequence ids: the result is in ascending data id order without repetition, holds
      first-latest events only, and has one for every event of the input. */
  lemma LatestByDataId(events: seq<Event>, base: Event, latest: seq<Event>)
    requires forall i :: 0 <= i < |events| ==> events[i].seqId >= 0
    requires ReportedFor(events, base, Keys(events, DataId), latest)
    ensures forall k :: 0 <= k < |latest| ==> FirstLatest(events, DataId(latest[k]), latest[k])
    ensures forall j, k :: 0 <= j < k < |latest| ==> Less(DataId(latest[j]), DataId(latest[k]))
    ensures forall i :: 0 <= i < |events| ==> exists m :: m in latest && DataId(m) == DataId(events[i])
  {
    var keys := Keys(events, DataId);
    KeysAscend(events, DataId);
    forall k | 0 <= k < |keys| ensures FirstLatest(events, keys[k], latest[k]) && DataId(latest[k]) == keys[k] {
      ReportedIsFirstLatest(events, base, keys[k], latest[k]);
    }
    forall i | 0 <= i < |events| ensures exists m :: m in latest && DataId(m) == DataId(events[i]) {
      var k := KeyOf(events, i);
      assert latest[k] in latest;
    }
  }

  lemma KeyOf(events: seq<Event>, i: nat) returns (k: nat)
    requires i < |events|
    ensures k < |Keys(events, DataId)| && Keys(events, DataId)[k] == DataId(events[i])
  {
    KeysAreTheKeyValues(events, DataId);
    assert DataId(events[i]) in Keys(events, DataId);
    k :| 0 <= k < |Keys(events, DataId)| && Keys(events, DataId)[k] == DataId(events[i]);
  }

  // ---------------------------------------------------------------- the same, told by the fields

  /** Two "id" members are the same; a missing one counts as "". */
  predicate SameId(a: Option<string>, b: Option<string>) {
    a == b || ((a == None || a == Some("")) && (b == None || b == Some("")))
  }

  /** m is the first event of the input with its "id" member and the greatest sequence id among them. */
  ghost predicate FirstGreatest(events: seq<Event>, m: Event) {
    exists p :: 0 <= p < |events| && events[p] == m && FirstGreatestAt(events, p)
  }

  ghost predicate FirstGreatestAt(events: seq<Event>, p: nat)
    requires p < |events|
  {
    forall j :: 0 <= j < |events| && SameId(events[j].data.id, events[p].data.id) ==>
      events[j].seqId <= events[p].seqId && (j < p ==> events[j].seqId < events[p].seqId)
  }

  /** Exactly one reported event for each "id" member of the input: the first one with the greatest sequence id. */
  ghost predicate OnePerId(events: seq<Event>, latest: seq<Event>) {
    && (forall i :: 0 <= i < |events| ==> exists k :: 0 <= k < |latest| && SameId(latest[k].data.id, events[i].data.id))
    && (forall j, k :: 0 <= j < k < |latest| ==> !SameId(latest[j].data.id, latest[k].data.id))
    && (forall k :: 0 <= k < |latest| ==> FirstGreatest(events, latest[k]))
  }

  lemma SameIdIff(a: Event, b: Event)
    ensures SameId(a.data.id, b.data.id) <==> DataId(a) == DataId(b)
  {
  }

  lemma FirstLatestIsFirstGreatest(events: seq<Event>, m: Event)
    requires FirstLatest(events, DataId(m), m)
    ensures FirstGreatest(events, m)
  {
    var p :| 0 <= p < |events| && events[p] == m && FirstLatestAt(events, DataId(m), p);
    forall j | 0 <= j < |events| && SameId(events[j].data.id, m.data.id)
      ensures events[j].seqId <= m.seqId && (j < p ==> events[j].seqId < m.seqId)
    {
      SameIdIff(events[j], m);
    }
    assert FirstGreatestAt(events, p);
  }

  lemma EachIdReported(events: seq<Event>, latest: seq<Event>, i: nat)
    requires i < |events| && exists m :: m in latest && DataId(m) == DataId(events[i])
    ensures exists k :: 0 <= k < |latest| && SameId(latest[k].data.id, events[i].data.id)
  {
    var m :| m in latest && DataId(m) == DataId(events[i]);
    var k :| 0 <= k < |latest| && latest[k] == m;
    SameIdIff(latest[k], events[i]);
  }

  lemma IdsApart(latest: seq<Event>, j: nat, k: nat)
    requires j < k < |latest| && Less(DataId(latest[j]), DataId(latest[k]))
    ensures !SameId(latest[j].data.id, latest[k].data.id)
  {
    SameIdIff(latest[j], latest[k]);
    LessIrreflexive(DataId(latest[j]));
  }

  lemma ReportedOnePerId(events: seq<Event>, base: Event, latest: seq<Event>)
    requires forall i :: 0 <= i < |events| ==> events[i].seqId >= 0
    requires ReportedFor(events, base, Keys(events, DataId), latest)
    ensures OnePerId(events, latest)
  {
    LatestByDataId(events, base, latest);
    forall i | 0 <= i < |events| ensures exists k :: 0 <= k < |latest| && SameId(latest[k].data.id, events[i].data.id) {
      EachIdReported(events, latest, i);
    }
    forall j, k | 0 <= j < k < |latest| ensures !SameId(latest[j].data.id, latest[k].data.id) {
      IdsApart(latest, j, k);
    }
    forall k | 0 <= k < |latest| ensures FirstGreatest(events, latest[k]) {
      FirstLatestIsFirstGreatest(events, latest[k]);
    }
  }

  lemma ReportedOnePerIdIf(events: seq<Event>, base: Event, latest: seq<Event>)
    requires ReportedFor(events, base, Keys(events, DataId), latest)
    ensures (forall i :: 0 <= i < |events| ==> events[i].seqId >= 0) ==> OnePerId(events, latest)
  {
    if forall i :: 0 <= i < |events| ==> events[i].seqId >= 0 {
      ReportedOnePerId(events, base, latest);
    }
  }

  /** Events whose "id" members are different texts are never reported by one event. */
  lemma DifferentIdsApart(m: Event, a: Event, b: Event)
    requires a.data.id.Some? && b.data.id.Some? && a.data.id.value != b.data.id.value
    requires SameId(m.data.id, a.data.id)
    ensures !SameId(m.data.id, b.data.id)
  {
  }
}
