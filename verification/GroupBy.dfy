/**
 groupBy: distribute a sequence over nested ordered maps, one level for each key function.

 A std::map keyed by strings is a sequence of entries in ascending lexicographic key order, which is the
 order the map is iterated in. `Put` is the template recursion groupByImpl; `Grouping` is what the
 result means: one entry for each key that occurs, holding the elements with that key, grouped further.
 */
module GroupBy {

  predicate Less(a: string, b: string) {
    b != [] && (a == [] || a[0] < b[0] || (a[0] == b[0] && Less(a[1..], b[1..])))
  }

  datatype Groups<T> = Items(items: seq<T>) | Keyed(entries: seq<Entry<T>>)

  datatype Entry<T> = Entry(key: string, group: Groups<T>)

  function Fresh<T>(levels: nat): Groups<T> {
    if levels == 0 then Items([]) else Keyed([])
  }

  function Put<T>(g: Groups<T>, x: T, fs: seq<T -> string>): Groups<T>
    decreases |fs|, 1, 0
  {
    if fs == [] then Items((if g.Items? then g.items else []) + [x])
    else Keyed(PutEntry(if g.Keyed? then g.entries else [], x, fs))
  }

  /** map[f(x)]: the entry of that key takes x, default-constructed at its place in the order if it is missing. */
  function PutEntry<T>(m: seq<Entry<T>>, x: T, fs: seq<T -> string>): seq<Entry<T>>
    requires fs != []
    decreases |fs|, 0, |m|
  {
    var key, rest := fs[0](x), fs[1..];
    if |m| > 0 && m[0].key == key then [Entry(key, Put(m[0].group, x, rest))] + m[1..]
    else if |m| == 0 || Less(key, m[0].key) then [Entry(key, Put(Fresh(|rest|), x, rest))] + m
    else [m[0]] + PutEntry(m[1..], x, fs)
  }

  // ---------------------------------------------------------------- what the result means

  function Insert(keys: seq<string>, key: string): seq<string> {
    if keys == [] then [key]
    else if keys[0] == key then keys
    else if Less(key, keys[0]) then [key] + keys
    else [keys[0]] + Insert(keys[1..], key)
  }

  /** The distinct key values of xs, in ascending order. */
  function Keys<T>(xs: seq<T>, f: T -> string): seq<string> {
    if xs == [] then [] else Insert(Keys(xs[..|xs| - 1], f), f(xs[|xs| - 1]))
  }

  /** The elements of xs with the given key, in their order. */
  function Select<T>(xs: seq<T>, f: T -> string, key: string): (ys: seq<T>)
    ensures forall y :: y in ys ==> y in xs && f(y) == key
    ensures forall y :: y in xs && f(y) == key ==> y in ys
  {
    if xs == [] then []
    else Select(xs[..|xs| - 1], f, key) + if f(xs[|xs| - 1]) == key then [xs[|xs| - 1]] else []
  }

  function Grouping<T>(xs: seq<T>, fs: seq<T -> string>): Groups<T>
    decreases |fs|, 1
  {
    if fs == [] then Items(xs) else Keyed(EntriesOf(xs, Keys(xs, fs[0]), fs))
  }

  function EntriesOf<T>(xs: seq<T>, keys: seq<string>, fs: seq<T -> string>): (m: seq<Entry<T>>)
    requires fs != []
    ensures |m| == |keys|
    decreases |fs|, 0
  {
    seq(|keys|, i requires 0 <= i < |keys| => Entry(keys[i], Grouping(Select(xs, fs[0], keys[i]), fs[1..])))
  }

  // ---------------------------------------------------------------- the order of the keys

  lemma {:induction false} LessIrreflexive(a: string)
    ensures !Less(a, a)
  {
    if a != [] {
      LessIrreflexive(a[1..]);
    }
  }

  lemma {:induction false} LessTransitive(a: string, b: string, c: string)
    requires Less(a, b) && Less(b, c)
    ensures Less(a, c)
  {
    if a != [] && a[0] == b[0] && b[0] == c[0] {
      LessTransitive(a[1..], b[1..], c[1..]);
    }
  }

  lemma {:induction false} LessTotal(a: string, b: string)
    ensures a == b || Less(a, b) || Less(b, a)
  {
    if a != [] && b != [] && a[0] == b[0] {
      LessTotal(a[1..], b[1..]);
      assert a == [a[0]] + a[1..] && b == [b[0]] + b[1..];
    }
  }

  predicate Ascending(keys: seq<string>) {
    forall i, j :: 0 <= i < j < |keys| ==> Less(keys[i], keys[j])
  }

  lemma {:induction false} InsertKeepsAscending(keys: seq<string>, key: string)
    requires Ascending(keys)
    ensures Ascending(Insert(keys, key))
    ensures forall k :: k in Insert(keys, key) <==> k in keys || k == key
  {
    if keys != [] && keys[0] != key {
      if Less(key, keys[0]) {
        forall j | 0 < j < |keys| ensures Less(key, keys[j]) {
          LessTransitive(key, keys[0], keys[j]);
        }
      } else {
        LessTotal(key, keys[0]);
        var rest := Insert(keys[1..], key);
        InsertKeepsAscending(keys[1..], key);
        forall j | 0 <= j < |rest| ensures Less(keys[0], rest[j]) {
          assert rest[j] in rest;
        }
      }
    }
  }

  /** The keys of a grouping are exactly the key values that occur, each once, in ascending order. */
  lemma {:induction false} KeysAreTheKeyValues<T>(xs: seq<T>, f: T -> string)
    ensures Ascending(Keys(xs, f))
    ensures forall k :: k in Keys(xs, f) <==> exists i :: 0 <= i < |xs| && f(xs[i]) == k
  {
    if xs != [] {
      var init := xs[..|xs| - 1];
      KeysAreTheKeyValues(init, f);
      InsertKeepsAscending(Keys(init, f), f(xs[|xs| - 1]));
      forall k | k in Keys(xs, f) ensures exists i :: 0 <= i < |xs| && f(xs[i]) == k {
        if k in Keys(init, f) {
          var i :| 0 <= i < |init| && f(init[i]) == k;
          assert f(xs[i]) == k;
        }
      }
      forall i | 0 <= i < |xs| ensures f(xs[i]) in Keys(xs, f) {
        if i < |init| {
          assert f(init[i]) in Keys(init, f);
        }
      }
    }
  }

  /** No group is ever empty: a key has an entry only because an element has that key. */
  lemma GroupsAreNotEmpty<T>(xs: seq<T>, f: T -> string, key: string)
    requires key in Keys(xs, f)
    ensures Select(xs, f, key) != []
  {
    KeysAreTheKeyValues(xs, f);
    var i :| 0 <= i < |xs| && f(xs[i]) == key;
    assert xs[i] in Select(xs, f, key);
  }

  function Concat<T>(xs: seq<T>, f: T -> string, keys: seq<string>): seq<T> {
    if keys == [] then [] else Concat(xs, f, keys[..|keys| - 1]) + Select(xs, f, keys[|keys| - 1])
  }

  lemma {:induction false} ConcatCounts<T>(xs: seq<T>, f: T -> string, keys: seq<string>, x: T)
    requires Ascending(keys)
    ensures multiset(Concat(xs, f, keys))[x] == if f(x) in keys then multiset(xs)[x] else 0
  {
    if keys != [] {
      var k := keys[|keys| - 1];
      ConcatCounts(xs, f, keys[..|keys| - 1], x);
      SelectCounts(xs, f, k, x);
      assert keys == keys[..|keys| - 1] + [k];
      LessIrreflexive(k);
    }
  }

  lemma {:induction false} SelectCounts<T>(xs: seq<T>, f: T -> string, key: string, x: T)
    ensures multiset(Select(xs, f, key))[x] == if f(x) == key then multiset(xs)[x] else 0
  {
    if xs != [] {
      SelectCounts(xs[..|xs| - 1], f, key, x);
      assert xs == xs[..|xs| - 1] + [xs[|xs| - 1]];
    }
  }

  /** The groups, put side by side, are a permutation of the input. */
  lemma GroupsPartition<T>(xs: seq<T>, f: T -> string)
    ensures multiset(Concat(xs, f, Keys(xs, f))) == multiset(xs)
  {
    forall x: T ensures multiset(Concat(xs, f, Keys(xs, f)))[x] == multiset(xs)[x] {
      PartitionCounts(xs, f, x);
    }
    SameCounts(Concat(xs, f, Keys(xs, f)), xs);
  }

  lemma PartitionCounts<T>(xs: seq<T>, f: T -> string, x: T)
    ensures multiset(Concat(xs, f, Keys(xs, f)))[x] == multiset(xs)[x]
  {
    KeysAscend(xs, f);
    ConcatCounts(xs, f, Keys(xs, f), x);
    OccursUnderItsKey(xs, f, x);
  }

  lemma SameCounts<T>(a: seq<T>, b: seq<T>)
    requires forall x :: multiset(a)[x] == multiset(b)[x]
    ensures multiset(a) == multiset(b)
  {
  }

  lemma KeysAscend<T>(xs: seq<T>, f: T -> string)
    ensures Ascending(Keys(xs, f))
  {
    KeysAreTheKeyValues(xs, f);
  }

  lemma OccursUnderItsKey<T>(xs: seq<T>, f: T -> string, x: T)
    ensures f(x) in Keys(xs, f) || multiset(xs)[x] == 0
  {
    KeysAreTheKeyValues(xs, f);
    if x in xs {
      var i :| 0 <= i < |xs| && xs[i] == x;
      assert f(xs[i]) == f(x);
    }
  }

  // ---------------------------------------------------------------- the loop computes the grouping

  lemma LaterKeysDiffer(keys: seq<string>)
    requires Ascending(keys) && keys != []
    ensures keys[0] !in keys[1..]
  {
    LessIrreflexive(keys[0]);
  }

  lemma KeyBelowIsNew(keys: seq<string>, key: string)
    requires Ascending(keys) && keys != [] && Less(key, keys[0])
    ensures key !in keys
  {
    if key in keys {
      var i :| 0 <= i < |keys| && keys[i] == key;
      if i > 0 {
        LessTransitive(key, keys[0], keys[i]);
      }
      LessIrreflexive(key);
    }
  }

  lemma EntriesOfOtherKeys<T>(xs: seq<T>, x: T, keys: seq<string>, fs: seq<T -> string>)
    requires fs != [] && fs[0](x) !in keys
    ensures EntriesOf(xs + [x], keys, fs) == EntriesOf(xs, keys, fs)
  {
    assert (xs + [x])[..|xs|] == xs;
    forall i | 0 <= i < |keys| ensures Select(xs + [x], fs[0], keys[i]) == Select(xs, fs[0], keys[i]) {
      assert keys[i] in keys;
    }
  }

  lemma EntriesOfCons<T>(xs: seq<T>, key: string, keys: seq<string>, fs: seq<T -> string>)
    requires fs != []
    ensures EntriesOf(xs, [key] + keys, fs) == [Entry(key, Grouping(Select(xs, fs[0], key), fs[1..]))] + EntriesOf(xs, keys, fs)
  {
  }

  lemma {:induction false} PutExtendsGrouping<T>(xs: seq<T>, x: T, fs: seq<T -> string>)
    ensures Put(Grouping(xs, fs), x, fs) == Grouping(xs + [x], fs)
    decreases |fs|, 1, 0
  {
    if fs != [] {
      assert (xs + [x])[..|xs|] == xs;
      KeysAreTheKeyValues(xs, fs[0]);
      if fs[0](x) !in Keys(xs, fs[0]) {
        NoElementsUnderNewKey(xs, fs[0], fs[0](x));
      }
      PutEntryExtends(xs, x, Keys(xs, fs[0]), fs);
    }
  }

  lemma SelectExtends<T>(xs: seq<T>, x: T, f: T -> string)
    ensures Select(xs + [x], f, f(x)) == Select(xs, f, f(x)) + [x]
  {
    assert (xs + [x])[..|xs|] == xs;
  }

  /** The new entry stands before entries with other keys. */
  lemma EntryBefore<T>(xs: seq<T>, x: T, keys: seq<string>, fs: seq<T -> string>, before: Groups<T>)
    requires fs != [] && fs[0](x) !in keys
    requires Put(before, x, fs[1..]) == Grouping(Select(xs, fs[0], fs[0](x)) + [x], fs[1..])
    ensures [Entry(fs[0](x), Put(before, x, fs[1..]))] + EntriesOf(xs, keys, fs) == EntriesOf(xs + [x], [fs[0](x)] + keys, fs)
  {
    SelectExtends(xs, x, fs[0]);
    EntriesOfOtherKeys(xs, x, keys, fs);
    EntriesOfCons(xs + [x], fs[0](x), keys, fs);
  }

  /** The new entry belongs further back. */
  lemma EntryAfter<T>(xs: seq<T>, x: T, keys: seq<string>, fs: seq<T -> string>)
    requires fs != [] && keys != [] && keys[0] != fs[0](x) && !Less(fs[0](x), keys[0])
    requires PutEntry(EntriesOf(xs, keys[1..], fs), x, fs) == EntriesOf(xs + [x], Insert(keys[1..], fs[0](x)), fs)
    ensures PutEntry(EntriesOf(xs, keys, fs), x, fs) == EntriesOf(xs + [x], Insert(keys, fs[0](x)), fs)
  {
    var m := EntriesOf(xs, keys, fs);
    assert keys == [keys[0]] + keys[1..];
    EntriesOfCons(xs, keys[0], keys[1..], fs);
    assert m[1..] == EntriesOf(xs, keys[1..], fs);
    EntriesOfOtherKeys(xs, x, [keys[0]], fs);
    assert EntriesOf(xs + [x], [keys[0]], fs)[0] == EntriesOf(xs, [keys[0]], fs)[0];
    EntriesOfCons(xs + [x], keys[0], Insert(keys[1..], fs[0](x)), fs);
  }

  lemma PutEntryFirst<T>(xs: seq<T>, x: T, keys: seq<string>, fs: seq<T -> string>, group: seq<T>)
    requires fs != [] && keys != [] && keys[0] == fs[0](x) && Ascending(keys) && group == Select(xs, fs[0], keys[0])
    requires Put(Grouping(group, fs[1..]), x, fs[1..]) == Grouping(group + [x], fs[1..])
    ensures PutEntry(EntriesOf(xs, keys, fs), x, fs) == EntriesOf(xs + [x], Insert(keys, keys[0]), fs)
  {
    LaterKeysDiffer(keys);
    assert keys == [keys[0]] + keys[1..];
    EntriesOfCons(xs, keys[0], keys[1..], fs);
    EntryBefore(xs, x, keys[1..], fs, Grouping(group, fs[1..]));
  }

  lemma PutEntryNew<T>(xs: seq<T>, x: T, keys: seq<string>, fs: seq<T -> string>)
    requires fs != [] && (keys == [] || (Less(fs[0](x), keys[0]) && Ascending(keys))) && Select(xs, fs[0], fs[0](x)) == []
    requires Put(Fresh(|fs[1..]|), x, fs[1..]) == Grouping([] + [x], fs[1..])
    ensures PutEntry(EntriesOf(xs, keys, fs), x, fs) == EntriesOf(xs + [x], Insert(keys, fs[0](x)), fs)
  {
    var key := fs[0](x);
    if keys != [] {
      KeyBelowIsNew(keys, key);
    }
    EntryBefore(xs, x, keys, fs, Fresh(|fs[1..]|));
    assert [key] + keys == Insert(keys, key);
  }

  lemma {:induction false} PutEntryExtends<T>(xs: seq<T>, x: T, keys: seq<string>, fs: seq<T -> string>)
    requires fs != [] && Ascending(keys)
    requires fs[0](x) in keys || Select(xs, fs[0], fs[0](x)) == []
    ensures PutEntry(EntriesOf(xs, keys, fs), x, fs) == EntriesOf(xs + [x], Insert(keys, fs[0](x)), fs)
    decreases |fs|, 0, |keys|
  {
    var key := fs[0](x);
    if keys != [] && keys[0] == key {
      PutExtendsGrouping(Select(xs, fs[0], key), x, fs[1..]);
      PutEntryFirst(xs, x, keys, fs, Select(xs, fs[0], key));
    } else if keys == [] || Less(key, keys[0]) {
      if keys != [] {
        KeyBelowIsNew(keys, key);
      }
      PutExtendsGrouping([], x, fs[1..]);
      PutEntryNew(xs, x, keys, fs);
    } else {
      PutEntryExtends(xs, x, keys[1..], fs);
      EntryAfter(xs, x, keys, fs);
    }
  }

  lemma {:induction false} NoneSelected<T>(xs: seq<T>, f: T -> string, key: string)
    requires forall i :: 0 <= i < |xs| ==> f(xs[i]) != key
    ensures Select(xs, f, key) == []
  {
    if xs != [] {
      NoneSelected(xs[..|xs| - 1], f, key);
    }
  }

  lemma NoElementsUnderNewKey<T>(xs: seq<T>, f: T -> string, key: string)
    requires key !in Keys(xs, f)
    ensures Select(xs, f, key) == []
  {
    KeysAreTheKeyValues(xs, f);
    NoneSelected(xs, f, key);
  }

  /** groupBy with any number of key functions, at least one as in the source. */
  method GroupBy<T>(xs: seq<T>, fs: seq<T -> string>) returns (result: Groups<T>)
    requires fs != []
    ensures result == Grouping(xs, fs)
  {
    result := Keyed([]);
    for i := 0 to |xs|
      invariant result == Grouping(xs[..i], fs)
    {
      PutExtendsGrouping(xs[..i], xs[i], fs);
      assert xs[..i] + [xs[i]] == xs[..i + 1];
      result := Put(result, xs[i], fs);
    }
    assert xs[..|xs|] == xs;
  }

  lemma EntryAt<T>(xs: seq<T>, fs: seq<T -> string>, i: nat)
    requires fs != [] && i < |Keys(xs, fs[0])|
    ensures var g := Grouping(xs, fs); var key := Keys(xs, fs[0])[i];
      g.Keyed? && |g.entries| == |Keys(xs, fs[0])| && g.entries[i] == Entry(key, Grouping(Select(xs, fs[0], key), fs[1..]))
  {
  }

  lemma GroupAt<T>(xs: seq<T>, f: T -> string, i: nat)
    requires i < |Keys(xs, f)|
    ensures var g := Grouping(xs, [f]);
      g.Keyed? && |g.entries| == |Keys(xs, f)| && g.entries[i] == Entry(Keys(xs, f)[i], Items(Select(xs, f, Keys(xs, f)[i])))
  {
    EntryAt(xs, [f], i);
  }

  /** Grouping by several functions is grouping by the first and then each group by the others. */
  lemma GroupingIsNested<T>(xs: seq<T>, f: T -> string, fs: seq<T -> string>, i: nat)
    requires i < |Keys(xs, f)|
    ensures var g := Grouping(xs, [f] + fs); var flat := Grouping(xs, [f]);
      && g.Keyed? && flat.Keyed? && |g.entries| == |flat.entries| == |Keys(xs, f)|
      && g.entries[i].key == flat.entries[i].key == Keys(xs, f)[i]
      && flat.entries[i].group == Items(Select(xs, f, Keys(xs, f)[i]))
      && g.entries[i].group == Grouping(flat.entries[i].group.items, fs)
  {
    EntryAt(xs, [f] + fs, i);
    GroupAt(xs, f, i);
    assert ([f] + fs)[1..] == fs;
  }

  // ---------------------------------------------------------------- order of keys, order within a group

  /** At place k the first text has ended, or has the smaller character, and before it the texts agree. */
  predicate SmallerAt(a: string, b: string, k: nat) {
    k <= |a| && k < |b| && a[..k] == b[..k] && (k == |a| || a[k] < b[k])
  }

  /** The order of keys is that of std::string: a proper prefix comes first, and otherwise the text with the smaller
      character at the first difference. */
  lemma {:induction false} LessIff(a: string, b: string)
    ensures Less(a, b) <==> exists k: nat :: SmallerAt(a, b, k)
    decreases |a|
  {
    if a == "" || b == "" || a[0] != b[0] {
      if Less(a, b) {
        assert SmallerAt(a, b, 0);
      }
      forall k: nat | SmallerAt(a, b, k) ensures Less(a, b) {
        if k > 0 {
          SameFirst(a, b, k);
        }
      }
    } else {
      LessIff(a[1..], b[1..]);
      forall k: nat | SmallerAt(a[1..], b[1..], k) ensures SmallerAt(a, b, k + 1) {
        SmallerLater(a, b, k);
      }
      forall k: nat | SmallerAt(a, b, k) ensures k > 0 && SmallerAt(a[1..], b[1..], k - 1) {
        SmallerEarlier(a, b, k);
      }
    }
  }

  lemma SameFirst(a: string, b: string, k: nat)
    requires k > 0 && SmallerAt(a, b, k)
    ensures a != "" && b != "" && a[0] == b[0]
  {
    assert a[0] == a[..k][0] == b[..k][0] == b[0];
  }

  lemma SmallerLater(a: string, b: string, k: nat)
    requires a != "" && b != "" && a[0] == b[0] && SmallerAt(a[1..], b[1..], k)
    ensures SmallerAt(a, b, k + 1)
  {
    assert a[..k + 1] == [a[0]] + a[1..][..k] && b[..k + 1] == [b[0]] + b[1..][..k];
  }

  lemma SmallerEarlier(a: string, b: string, k: nat)
    requires a != "" && b != "" && a[0] == b[0] && SmallerAt(a, b, k)
    ensures k > 0 && SmallerAt(a[1..], b[1..], k - 1)
  {
    assert a[1..][..k - 1] == a[..k][1..] && b[1..][..k - 1] == b[..k][1..];
  }

  lemma SelectNext<T>(xs: seq<T>, init: seq<T>, last: T, f: T -> string, key: string)
    requires xs == init + [last]
    ensures Select(xs, f, key) == Select(init, f, key) + if f(last) == key then [last] else []
  {
    assert xs[..|xs| - 1] == init;
  }

  lemma InTurn<T>(a: seq<T>, b: seq<T>, c: seq<T>)
    ensures (a + b) + c == a + (b + c)
  {
  }

  /** A group keeps the input order: its first element is the first of the input with its key. */
  lemma {:induction false} SelectFromFront<T>(x: T, xs: seq<T>, f: T -> string, key: string)
    ensures Select([x] + xs, f, key) == (if f(x) == key then [x] else []) + Select(xs, f, key)
    decreases |xs|
  {
    var first: seq<T> := if f(x) == key then [x] else [];
    if xs == [] {
      SelectNext([x] + xs, [], x, f, key);
    } else {
      var init, last := xs[..|xs| - 1], xs[|xs| - 1];
      assert xs == init + [last];
      SelectFromFront(x, init, f, key);
      SelectNext([x] + xs, [x] + init, last, f, key);
      SelectNext(xs, init, last, f, key);
      InTurn(first, Select(init, f, key), if f(last) == key then [last] else []);
    }
  }
}
