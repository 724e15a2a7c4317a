/**
 The container that hands out instances by type: a registered instance is shared, any other registered type is built
 anew with its dependencies each time it is asked for, and an unregistered type yields null.
 */
module SimpleContainer {
  class Obj {
    const typ: string
    const args: seq<Obj?>

    constructor (typ: string, args: seq<Obj?>)
      ensures this.typ == typ && this.args == args
    {
      this.typ, this.args := typ, args;
    }
  }

  /** What a type stands for: nothing, a shared instance, or an object to build from what its dependencies stand for. */
  datatype Tree = Missing | Shared(obj: Obj?) | Node(typ: string, args: seq<Tree>)

  /** The type is built from others: it has a creator and no instance. */
  predicate Built(creators: map<string, seq<string>>, instances: map<string, Obj?>, t: string) {
    t in creators && t !in instances
  }

  /** Resolving the type ends within n nested creator calls. */
  ghost predicate Ends(creators: map<string, seq<string>>, instances: map<string, Obj?>, t: string, n: nat)
    decreases n
  {
    Built(creators, instances, t) ==> n > 0 && forall k :: 0 <= k < |creators[t]| ==> Ends(creators, instances, creators[t][k], n - 1)
  }

  ghost function Unfold(creators: map<string, seq<string>>, instances: map<string, Obj?>, t: string, n: nat): Tree
    requires Ends(creators, instances, t, n)
    decreases n
  {
    if t in instances then Shared(instances[t])
    else if t in creators then
      Node(t, seq(|creators[t]|, k requires 0 <= k < |creators[t]| => Unfold(creators, instances, creators[t][k], n - 1)))
    else Missing
  }

  /** The tree of a type built now from the dependencies given. */
  ghost function NodeOver(creators: map<string, seq<string>>, instances: map<string, Obj?>, t: string, deps: seq<string>, n: nat): Tree
    requires forall k :: 0 <= k < |deps| ==> Ends(creators, instances, deps[k], n)
  {
    Node(t, seq(|deps|, k requires 0 <= k < |deps| => Unfold(creators, instances, deps[k], n)))
  }

  /** The tree belongs to the registrations, not to the bound that shows it finite. */
  lemma {:induction false} UnfoldIsUnique(creators: map<string, seq<string>>, instances: map<string, Obj?>, t: string, n: nat, m: nat)
    requires Ends(creators, instances, t, n) && Ends(creators, instances, t, m)
    ensures Unfold(creators, instances, t, n) == Unfold(creators, instances, t, m)
    decreases n
  {
    if Built(creators, instances, t) {
      forall k | 0 <= k < |creators[t]|
        ensures Unfold(creators, instances, creators[t][k], n - 1) == Unfold(creators, instances, creators[t][k], m - 1)
      {
        UnfoldIsUnique(creators, instances, creators[t][k], n - 1, m - 1);
      }
    }
  }

  // ---------------------------------------------------------------- when resolving ends

  ghost predicate DependsOn(creators: map<string, seq<string>>, instances: map<string, Obj?>, t: string, u: string) {
    Built(creators, instances, t) && u in creators[t]
  }

  /** Each type of the path is built and depends on the next one. */
  ghost predicate Path(creators: map<string, seq<string>>, instances: map<string, Obj?>, p: seq<string>) {
    && (forall i :: 0 <= i < |p| ==> Built(creators, instances, p[i]))
    && (forall i :: 0 <= i < |p| - 1 ==> DependsOn(creators, instances, p[i], p[i + 1]))
  }

  predicate NoRepetition(p: seq<string>) {
    forall i, j :: 0 <= i < j < |p| ==> p[i] != p[j]
  }

  /** No dependency path from the type meets a type twice. */
  ghost predicate Acyclic(creators: map<string, seq<string>>, instances: map<string, Obj?>, t: string) {
    forall p :: Path(creators, instances, p) && p != [] && p[0] == t ==> NoRepetition(p)
  }

  lemma {:induction false} LongPath(creators: map<string, seq<string>>, instances: map<string, Obj?>, t: string, n: nat) returns (p: seq<string>)
    requires !Ends(creators, instances, t, n)
    ensures |p| == n + 1 && p[0] == t && Path(creators, instances, p)
    decreases n
  {
    p := [t];
    if n > 0 {
      var k :| 0 <= k < |creators[t]| && !Ends(creators, instances, creators[t][k], n - 1);
      var rest := LongPath(creators, instances, creators[t][k], n - 1);
      p := [t] + rest;
    }
  }

  lemma {:induction false} NoRepetitionFits(p: seq<string>, s: set<string>)
    requires NoRepetition(p) && forall x :: x in p ==> x in s
    ensures |p| <= |s|
  {
    if p != [] {
      var init, last := p[..|p| - 1], p[|p| - 1];
      assert last in p;
      forall x | x in init ensures x in s - {last} {
        assert x in p;
      }
      NoRepetitionFits(init, s - {last});
    }
  }

  lemma {:induction false} EndsAlong(creators: map<string, seq<string>>, instances: map<string, Obj?>, p: seq<string>, n: nat, i: nat)
    requires Path(creators, instances, p) && i < |p| && Ends(creators, instances, p[0], n)
    ensures i < n && Ends(creators, instances, p[i], n - i)
  {
    if i > 0 {
      EndsAlong(creators, instances, p, n, i - 1);
      assert DependsOn(creators, instances, p[i - 1], p[i]);
    }
  }

  /** Resolving a type on a cycle does not end. */
  lemma {:induction false} CycleNeverEnds(creators: map<string, seq<string>>, instances: map<string, Obj?>, p: seq<string>, n: nat)
    requires Path(creators, instances, p) && |p| >= 2 && p[0] == p[|p| - 1]
    ensures !Ends(creators, instances, p[0], n)
    decreases n
  {
    if Ends(creators, instances, p[0], n) {
      EndsAlong(creators, instances, p, n, |p| - 1);
      CycleNeverEnds(creators, instances, p, n - (|p| - 1));
    }
  }

  lemma PathsRepeatNothing(creators: map<string, seq<string>>, instances: map<string, Obj?>, p: seq<string>, n: nat)
    requires Path(creators, instances, p) && p != [] && Ends(creators, instances, p[0], n)
    ensures NoRepetition(p)
  {
    forall i, j | 0 <= i < j < |p| ensures p[i] != p[j] {
      if p[i] == p[j] {
        EndsAlong(creators, instances, p, n, i);
        CycleNeverEnds(creators, instances, p[i..j + 1], n - i);
      }
    }
  }

  /** Resolving a type ends, within as many nested calls as there are creators, exactly when no dependency path from it
      meets a type twice. */
  lemma EndsIff(creators: map<string, seq<string>>, instances: map<string, Obj?>, t: string)
    ensures Ends(creators, instances, t, |creators|) <==> Acyclic(creators, instances, t)
    ensures (exists n: nat :: Ends(creators, instances, t, n)) <==> Acyclic(creators, instances, t)
  {
    if n: nat :| Ends(creators, instances, t, n) {
      forall p | Path(creators, instances, p) && p != [] && p[0] == t ensures NoRepetition(p) {
        PathsRepeatNothing(creators, instances, p, n);
      }
    }
    if !Ends(creators, instances, t, |creators|) {
      var p := LongPath(creators, instances, t, |creators|);
      if NoRepetition(p) {
        NoRepetitionFits(p, creators.Keys);
      }
    }
  }

  /** The object graph at r is the tree: null, the very instance, or an object of the type over such arguments. */
  ghost predicate Matches(r: Obj?, tree: Tree)
    decreases tree
  {
    match tree
    case Missing => r == null
    case Shared(o) => r == o
    case Node(t, args) => r != null && r.typ == t && |r.args| == |args| && forall k :: 0 <= k < |args| ==> Matches(r.args[k], args[k])
  }

  /** The same told by the registrations: the instance if there is one, else null without a creator, else an object of
      the type with one argument for each dependency, which resolves it. */
  ghost predicate Resolves(creators: map<string, seq<string>>, instances: map<string, Obj?>, t: string, n: nat, r: Obj?)
    requires Ends(creators, instances, t, n)
    decreases n
  {
    && (t in instances ==> r == instances[t])
    && (t !in instances && t !in creators ==> r == null)
    && (Built(creators, instances, t) ==>
          && r != null && r.typ == t && |r.args| == |creators[t]|
          && forall k :: 0 <= k < |creators[t]| ==> Resolves(creators, instances, creators[t][k], n - 1, r.args[k]))
  }

  lemma {:induction false} MatchingResolves(creators: map<string, seq<string>>, instances: map<string, Obj?>, t: string, n: nat, r: Obj?)
    requires Ends(creators, instances, t, n)
    ensures Matches(r, Unfold(creators, instances, t, n)) <==> Resolves(creators, instances, t, n, r)
    decreases n
  {
    if Built(creators, instances, t) && r != null && |r.args| == |creators[t]| {
      forall k | 0 <= k < |creators[t]|
        ensures Matches(r.args[k], Unfold(creators, instances, creators[t][k], n - 1)) <==> Resolves(creators, instances, creators[t][k], n - 1, r.args[k])
      {
        MatchingResolves(creators, instances, creators[t][k], n - 1, r.args[k]);
      }
    }
  }

  ghost predicate ArgsMatch(args: seq<Obj?>, tree: Tree)
    requires tree.Node?
  {
    |args| <= |tree.args| && forall k :: 0 <= k < |args| ==> Matches(args[k], tree.args[k])
  }

  /** The objects at the nodes of the tree, arguments first. */
  ghost function Made(r: Obj?, tree: Tree): seq<Obj>
    requires Matches(r, tree)
    decreases tree, if tree.Node? then |tree.args| + 1 else 0
  {
    match tree
    case Missing => []
    case Shared(_) => []
    case Node(_, args) => MadeArgs(r.args, tree) + [r]
  }

  ghost function MadeArgs(args: seq<Obj?>, tree: Tree): seq<Obj>
    requires tree.Node? && ArgsMatch(args, tree)
    decreases tree, |args|
  {
    if args == [] then []
    else MadeArgs(args[..|args| - 1], tree) + Made(args[|args| - 1], tree.args[|args| - 1])
  }

  ghost function Nodes(tree: Tree): nat
    decreases tree, if tree.Node? then |tree.args| + 1 else 0
  {
    if tree.Node? then NodesUpTo(tree, |tree.args|) + 1 else 0
  }

  ghost function NodesUpTo(tree: Tree, n: nat): nat
    requires tree.Node? && n <= |tree.args|
    decreases tree, n
  {
    if n == 0 then 0 else NodesUpTo(tree, n - 1) + Nodes(tree.args[n - 1])
  }

  /** One object per node. */
  lemma {:induction false} OneObjectPerNode(r: Obj?, tree: Tree)
    requires Matches(r, tree)
    ensures |Made(r, tree)| == Nodes(tree)
    decreases tree, if tree.Node? then |tree.args| + 1 else 0
  {
    if tree.Node? {
      ObjectsOfArgs(r.args, tree);
    }
  }

  lemma {:induction false} ObjectsOfArgs(args: seq<Obj?>, tree: Tree)
    requires tree.Node? && ArgsMatch(args, tree)
    ensures |MadeArgs(args, tree)| == NodesUpTo(tree, |args|)
    decreases tree, |args|
  {
    if args != [] {
      ObjectsOfArgs(args[..|args| - 1], tree);
      OneObjectPerNode(args[|args| - 1], tree.args[|args| - 1]);
    }
  }

  predicate NoDuplicates(objs: seq<Obj>) {
    forall i, j :: 0 <= i < j < |objs| ==> objs[i] != objs[j]
  }

  lemma NoDuplicatesConcat(a: seq<Obj>, b: seq<Obj>)
    requires NoDuplicates(a) && NoDuplicates(b) && forall o :: o in a ==> o !in b
    ensures NoDuplicates(a + b)
  {
    forall i, j | 0 <= i < j < |a + b| ensures (a + b)[i] != (a + b)[j] {
      if i < |a| <= j {
        assert (a + b)[i] in a && (a + b)[j] in b;
      }
    }
  }

  lemma MadeArgsSnoc(args: seq<Obj?>, a: Obj?, tree: Tree)
    requires tree.Node? && ArgsMatch(args, tree) && |args| < |tree.args| && Matches(a, tree.args[|args|])
    ensures ArgsMatch(args + [a], tree)
    ensures MadeArgs(args + [a], tree) == MadeArgs(args, tree) + Made(a, tree.args[|args|])
  {
    assert (args + [a])[..|args|] == args;
  }

  // ---------------------------------------------------------------- the container

  class IOCContainer {
    var creators: map<string, seq<string>>
    var instances: map<string, Obj?>
    var creatorsWithKey: map<string, map<string, string>>
    var instancesWithKey: map<string, map<string, Obj?>>

    constructor ()
      ensures Now() == EMPTY
    {
      creators, instances, creatorsWithKey, instancesWithKey := map[], map[], map[], map[];
    }

    ghost function Now(): State
      reads this
    {
      State(creators, instances, creatorsWithKey, instancesWithKey)
    }

    method RegisterInstance(t: string, o: Obj?)
      modifies this
      ensures Now() == Do(old(Now()), SetInstance(t, o))
      ensures instances == old(instances)[t := o] && creators == old(creators) && instancesWithKey == old(instancesWithKey)
    {
      instances := instances[t := o];
    }

    method RegisterClass(t: string, deps: seq<string>)
      modifies this
      ensures Now() == Do(old(Now()), SetCreator(t, deps))
      ensures creators == old(creators)[t := deps] && instances == old(instances) && instancesWithKey == old(instancesWithKey)
    {
      creators := creators[t := deps];
    }

    method RegisterInstanceWithKey(t: string, key: string, o: Obj?)
      modifies this
      ensures Now() == Do(old(Now()), SetKeyed(t, key, o))
    {
      if t !in instancesWithKey {
        instancesWithKey := instancesWithKey[t := map[]];
      }
      instancesWithKey := instancesWithKey[t := instancesWithKey[t][key := o]];
    }

    /** Look up every dependency; each argument is built from objects made for it alone. */
    method BuildArgs(deps: seq<string>, ghost n: nat, ghost tree: Tree) returns (args: seq<Obj?>)
      requires tree.Node? && |tree.args| == |deps|
      requires forall k :: 0 <= k < |deps| ==> Ends(creators, instances, deps[k], n) && tree.args[k] == Unfold(creators, instances, deps[k], n)
      ensures |args| == |deps| && ArgsMatch(args, tree)
      ensures NoDuplicates(MadeArgs(args, tree)) && forall o :: o in MadeArgs(args, tree) ==> fresh(o) && allocated(o)
      decreases n, 1
    {
      args := [];
      for k := 0 to |deps|
        invariant |args| == k && ArgsMatch(args, tree)
        invariant NoDuplicates(MadeArgs(args, tree)) && forall o :: o in MadeArgs(args, tree) ==> fresh(o) && allocated(o)
      {
        ghost var made := MadeArgs(args, tree);
        label before:
        var a := GetInstance(deps[k], n);
        ghost var more := Made(a, tree.args[k]);
        assert forall o :: o in more ==> fresh@before(o);
        MadeArgsSnoc(args, a, tree);
        NoDuplicatesConcat(made, more);
        args := args + [a];
      }
    }

    /** The instance if there is one; else a new graph whose nodes are all new objects, none used twice. */
    method GetInstance(t: string, ghost n: nat) returns (r: Obj?)
      requires Ends(creators, instances, t, n)
      ensures Matches(r, Unfold(creators, instances, t, n))
      ensures NoDuplicates(Made(r, Unfold(creators, instances, t, n)))
      ensures forall o :: o in Made(r, Unfold(creators, instances, t, n)) ==> fresh(o) && allocated(o)
      ensures t in instances ==> r == instances[t]
      ensures t !in instances && t !in creators ==> r == null
      ensures Built(creators, instances, t) ==> r != null && fresh(r) && r.typ == t && |r.args| == |creators[t]|
      ensures Built(creators, instances, t) ==> forall k :: 0 <= k < |creators[t]| ==> Resolves(creators, instances, creators[t][k], n - 1, r.args[k])
      decreases n, 0
    {
      if t in instances {
        r := instances[t];
      } else if t in creators {
        ghost var tree := Unfold(creators, instances, t, n);
        var args := BuildArgs(creators[t], n - 1, tree);
        ghost var made := MadeArgs(args, tree);
        var o := new Obj(t, args);
        NoDuplicatesConcat(made, [o]);
        r := o;
        forall k | 0 <= k < |creators[t]| ensures Resolves(creators, instances, creators[t][k], n - 1, o.args[k]) {
          MatchingResolves(creators, instances, creators[t][k], n - 1, o.args[k]);
        }
      } else {
        r := null;
      }
    }

    /** Build the type once, from arguments made for it alone where they are not shared, and share it from now on. */
    method RegisterSingletonClass(t: string, deps: seq<string>, ghost n: nat) returns (o: Obj)
      requires forall k :: 0 <= k < |deps| ==> Ends(creators, instances, deps[k], n)
      modifies this
      ensures fresh(o) && Now() == Do(old(Now()), SetInstance(t, o))
      ensures var tree := NodeOver(old(creators), old(instances), t, deps, n);
        Matches(o, tree) && NoDuplicates(Made(o, tree)) && forall m :: m in Made(o, tree) ==> fresh(m)
      ensures o.typ == t && |o.args| == |deps|
      ensures forall k :: 0 <= k < |deps| ==> Resolves(old(creators), old(instances), deps[k], n, o.args[k])
    {
      ghost var tree := NodeOver(creators, instances, t, deps, n);
      var args := BuildArgs(deps, n, tree);
      ghost var made := MadeArgs(args, tree);
      o := new Obj(t, args);
      NoDuplicatesConcat(made, [o]);
      forall k | 0 <= k < |deps| ensures Resolves(creators, instances, deps[k], n, o.args[k]) {
        MatchingResolves(creators, instances, deps[k], n, o.args[k]);
      }
      instances := instances[t := o];
    }

    method InstanceWithKeyExist(t: string, key: string) returns (found: bool)
      ensures found == HasKeyed(Now(), t, key)
    {
      found := t in instancesWithKey && key in instancesWithKey[t];
    }

    method GetInstanceWithKey(t: string, key: string) returns (r: Obj?)
      requires creatorsWithKey == map[]
      ensures r == Keyed(Now(), t, key)
      ensures t in instancesWithKey && key in instancesWithKey[t] ==> r == instancesWithKey[t][key]
      ensures !(t in instancesWithKey && key in instancesWithKey[t]) ==> r == null
    {
      if t in instancesWithKey && key in instancesWithKey[t] {
        r := instancesWithKey[t][key];
      } else {
        r := null;
      }
    }
  }

  // ---------------------------------------------------------------- every run of registrations

  datatype State = State(
    creators: map<string, seq<string>>,
    instances: map<string, Obj?>,
    creatorsWithKey: map<string, map<string, string>>,
    instancesWithKey: map<string, map<string, Obj?>>)

  const EMPTY := State(map[], map[], map[], map[])

  datatype Op = SetInstance(typ: string, obj: Obj?) | SetCreator(typ: string, deps: seq<string>) | SetKeyed(typ: string, key: string, obj: Obj?)

  ghost function Do(s: State, op: Op): State {
    match op
    case SetInstance(t, o) => s.(instances := s.instances[t := o])
    case SetCreator(t, deps) => s.(creators := s.creators[t := deps])
    case SetKeyed(t, key, o) =>
      var inner: map<string, Obj?> := if t in s.instancesWithKey then s.instancesWithKey[t] else map[];
      s.(instancesWithKey := s.instancesWithKey[t := inner[key := o]])
  }

  ghost function Run(ops: seq<Op>): State {
    if ops == [] then EMPTY else Do(Run(ops[..|ops| - 1]), ops[|ops| - 1])
  }

  ghost predicate HasKeyed(s: State, t: string, key: string) {
    t in s.instancesWithKey && key in s.instancesWithKey[t]
  }

  ghost function Keyed(s: State, t: string, key: string): Obj? {
    if HasKeyed(s, t, key) then s.instancesWithKey[t][key] else null
  }

  ghost predicate SetsInstance(ops: seq<Op>, i: int, t: string) {
    0 <= i < |ops| && ops[i].SetInstance? && ops[i].typ == t
  }

  ghost predicate SetsKeyed(ops: seq<Op>, i: int, t: string, key: string) {
    0 <= i < |ops| && ops[i].SetKeyed? && ops[i].typ == t && ops[i].key == key
  }

  /** A type has an instance exactly when one was registered, and it is the last one registered, whatever creators
      were registered before or after. */
  lemma {:induction false} LastInstanceWins(ops: seq<Op>, t: string)
    ensures t in Run(ops).instances <==> exists i :: SetsInstance(ops, i, t)
    ensures forall i :: SetsInstance(ops, i, t) && (forall j :: i < j < |ops| ==> !SetsInstance(ops, j, t)) ==> Run(ops).instances[t] == ops[i].obj
  {
    if ops != [] {
      var init := ops[..|ops| - 1];
      LastInstanceWins(init, t);
      forall i | i < |init| ensures SetsInstance(ops, i, t) == SetsInstance(init, i, t) {
      }
      assert SetsInstance(ops, |init|, t) <==> ops[|init|].SetInstance? && ops[|init|].typ == t;
      forall i | SetsInstance(ops, i, t) && forall j :: i < j < |ops| ==> !SetsInstance(ops, j, t)
        ensures Run(ops).instances[t] == ops[i].obj
      {
        if i < |init| {
          assert forall j :: i < j < |init| ==> !SetsInstance(init, j, t);
        }
      }
    }
  }

  /** No run writes the creators with key, and a keyed lookup gives the last instance registered under type and key,
      or null if there is none. */
  lemma {:induction false} KeyedLookup(ops: seq<Op>, t: string, key: string)
    ensures Run(ops).creatorsWithKey == map[]
    ensures HasKeyed(Run(ops), t, key) <==> exists i :: SetsKeyed(ops, i, t, key)
    ensures forall i :: SetsKeyed(ops, i, t, key) && (forall j :: i < j < |ops| ==> !SetsKeyed(ops, j, t, key)) ==> Keyed(Run(ops), t, key) == ops[i].obj
  {
    if ops != [] {
      var init := ops[..|ops| - 1];
      KeyedLookup(init, t, key);
      forall i | i < |init| ensures SetsKeyed(ops, i, t, key) == SetsKeyed(init, i, t, key) {
      }
      assert SetsKeyed(ops, |init|, t, key) <==> ops[|init|].SetKeyed? && ops[|init|].typ == t && ops[|init|].key == key;
      forall i | SetsKeyed(ops, i, t, key) && forall j :: i < j < |ops| ==> !SetsKeyed(ops, j, t, key)
        ensures Keyed(Run(ops), t, key) == ops[i].obj
      {
        if i < |init| {
          assert forall j :: i < j < |init| ==> !SetsKeyed(init, j, t, key);
        }
      }
    }
  }

  ghost predicate SetsCreator(ops: seq<Op>, i: int, t: string) {
    0 <= i < |ops| && ops[i].SetCreator? && ops[i].typ == t
  }

  /** A type has a creator exactly when one was registered, and its dependencies are the last ones registered. */
  lemma {:induction false} LastCreatorHeld(ops: seq<Op>, t: string)
    ensures t in Run(ops).creators <==> exists i :: SetsCreator(ops, i, t)
    ensures forall i :: SetsCreator(ops, i, t) && (forall j :: i < j < |ops| ==> !SetsCreator(ops, j, t)) ==> Run(ops).creators[t] == ops[i].deps
  {
    if ops != [] {
      var init := ops[..|ops| - 1];
      LastCreatorHeld(init, t);
      forall i | i < |init| ensures SetsCreator(ops, i, t) == SetsCreator(init, i, t) {
      }
      assert SetsCreator(ops, |init|, t) <==> ops[|init|].SetCreator? && ops[|init|].typ == t;
      forall i | SetsCreator(ops, i, t) && forall j :: i < j < |ops| ==> !SetsCreator(ops, j, t)
        ensures Run(ops).creators[t] == ops[i].deps
      {
        if i < |init| {
          assert forall j :: i < j < |init| ==> !SetsCreator(init, j, t);
        }
      }
    }
  }

  /** After every run, what GetInstance returns for a type: the last instance registered, whatever creators there are;
      without one, an object of the type with an argument for each of the last dependencies registered; otherwise
      null. */
  lemma ResolvedAfterRun(ops: seq<Op>, t: string, n: nat, r: Obj?, i: int)
    requires Ends(Run(ops).creators, Run(ops).instances, t, n) && Resolves(Run(ops).creators, Run(ops).instances, t, n, r)
    ensures SetsInstance(ops, i, t) && (forall j :: i < j < |ops| ==> !SetsInstance(ops, j, t)) ==> r == ops[i].obj
    ensures (forall j :: !SetsInstance(ops, j, t)) && SetsCreator(ops, i, t) && (forall j :: i < j < |ops| ==> !SetsCreator(ops, j, t)) ==>
              r != null && r.typ == t && |r.args| == |ops[i].deps|
    ensures (forall j :: !SetsInstance(ops, j, t)) && (forall j :: !SetsCreator(ops, j, t)) ==> r == null
  {
    LastInstanceWins(ops, t);
    LastCreatorHeld(ops, t);
  }
}
