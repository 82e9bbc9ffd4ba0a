/** Merging of checkpoint states: merge_state, merge_state_dict and merge_state_list of
    deepspeed/checkpoint/reshape_utils.py. */
module StateMerge {
  import opened Wrappers

  /** A dictionary key: a name or a group number. */
  datatype Key = Name(name: string) | Id(id: int)

  /** A loaded state. A dictionary is ordered or plain, a sequence is a tuple or a list, a tensor is flat;
      any other value carries a number for its type. */
  datatype State =
    | Dict(ordered: bool, entries: map<Key, State>)
    | Items(isTuple: bool, items: seq<State>)
    | Tensor(data: seq<real>)
    | Int(n: int)
    | Other(kind: nat, value: nat)

  /** Python type equality. */
  predicate SameType(a: State, b: State) {
    match (a, b)
    case (Dict(o, _), Dict(p, _)) => o == p
    case (Items(t, _), Items(u, _)) => t == u
    case (Tensor(_), Tensor(_)) => true
    case (Int(_), Int(_)) => true
    case (Other(k, _), Other(l, _)) => k == l
    case _ => false
  }

  /** The two states agree in type wherever both have a value, and their sequences in length. */
  predicate Mergeable(a: State, b: State)
    decreases b
  {
    SameType(a, b) &&
    match b
    case Dict(_, entries) => forall k | k in entries.Keys && k in a.entries.Keys :: Mergeable(a.entries[k], entries[k])
    case Items(_, items) => |a.items| == |items| && forall i | 0 <= i < |items| :: Mergeable(a.items[i], items[i])
    case _ => true
  }

  /** What merging two states yields. Only the keys of the second dictionary survive. */
  ghost function Merged(a: State, b: State): (r: State)
    requires Mergeable(a, b)
    ensures SameType(r, b)
    decreases b
  {
    match b
    case Dict(_, entries) =>
      Dict(a.ordered, map k | k in entries.Keys ::
        if k in a.entries.Keys then Merged(a.entries[k], entries[k]) else entries[k])
    case Items(_, items) =>
      Items(a.isTuple, seq(|items|, i requires 0 <= i < |items| => Merged(a.items[i], items[i])))
    case Tensor(data) => Tensor(a.data + data)
    case _ => a
  }

  /** `merge_state`: succeeds exactly on mergeable states. */
  method MergeState(a: State, b: State) returns (r: Result<State>)
    ensures r.Ok? <==> Mergeable(a, b)
    ensures r.Ok? ==> r.value == Merged(a, b)
    decreases b, 1
  {
    if !SameType(a, b) { return Error; }
    match b
    case Dict(_, entries) => r := MergeStateDict(a, b);
    case Items(_, items) => r := MergeStateList(a, b);
    case Tensor(data) => r := Ok(Tensor(a.data + data));
    case _ => r := Ok(a);
  }

  /** `merge_state_dict`: fills a dictionary of the first one's type while walking the second. */
  method MergeStateDict(a: State, b: State) returns (r: Result<State>)
    requires a.Dict? && b.Dict? && SameType(a, b)
    ensures r.Ok? <==> Mergeable(a, b)
    ensures r.Ok? ==> r.value == Merged(a, b)
    decreases b, 0
  {
    var merged: map<Key, State> := map[];
    var todo := b.entries.Keys;
    while todo != {}
      invariant todo <= b.entries.Keys && merged.Keys == b.entries.Keys - todo
      invariant forall k | k in merged.Keys ::
        if k in a.entries.Keys then
          Mergeable(a.entries[k], b.entries[k]) && merged[k] == Merged(a.entries[k], b.entries[k])
        else merged[k] == b.entries[k]
      decreases todo
    {
      var k :| k in todo;
      if k in a.entries {
        var sub := MergeState(a.entries[k], b.entries[k]);
        if sub.Error? { return Error; }
        merged := merged[k := sub.value];
      } else {
        merged := merged[k := b.entries[k]];
      }
      todo := todo - {k};
    }
    r := Ok(Dict(a.ordered, merged));
  }

  /** `merge_state_list`: merges position by position. */
  method MergeStateList(a: State, b: State) returns (r: Result<State>)
    requires a.Items? && b.Items? && SameType(a, b)
    ensures r.Ok? <==> Mergeable(a, b)
    ensures r.Ok? ==> r.value == Merged(a, b)
    decreases b, 0
  {
    if |a.items| != |b.items| { return Error; }
    var merged: seq<State> := [];
    for i := 0 to |b.items|
      invariant |merged| == i
      invariant forall j ::
        0 <= j < i ==> Mergeable(a.items[j], b.items[j]) && merged[j] == Merged(a.items[j], b.items[j])
    {
      var sub := MergeState(a.items[i], b.items[i]);
      if sub.Error? { return Error; }
      merged := merged + [sub.value];
    }
    r := Ok(Items(a.isTuple, merged));
  }

  // ---------------------------------------------------------------------------------------------
  // Leaves
  // ---------------------------------------------------------------------------------------------

  datatype Step = At(key: Key) | Nth(index: nat)

  /** The part of a state at a path, if there is one. */
  ghost function Node(s: State, path: seq<Step>): Option<State> {
    if path == [] then Some(s)
    else
      match path[0]
      case At(k) => if s.Dict? && k in s.entries then Node(s.entries[k], path[1..]) else None
      case Nth(i) => if s.Items? && i < |s.items| then Node(s.items[i], path[1..]) else None
  }

  /** The tensor at a path, if there is one. */
  ghost function Leaf(s: State, path: seq<Step>): Option<seq<real>> {
    match Node(s, path)
    case Some(Tensor(data)) => Some(data)
    case _ => None
  }

  /** The value at a path that is neither a tensor nor a dictionary nor a sequence, if there is one. */
  ghost function Value(s: State, path: seq<Step>): Option<State> {
    match Node(s, path)
    case Some(v) => if v.Int? || v.Other? then Some(v) else None
    case None => None
  }

  /** The key tree at a path: a dictionary's type and keys, a sequence's type and length, or the type of a value. */
  datatype Shape = DictOf(ordered: bool, keys: set<Key>) | ItemsOf(isTuple: bool, length: nat) | Numbers | Ints
    | Others(kind: nat)

  ghost function ShapeAt(s: State, path: seq<Step>): Option<Shape> {
    match Node(s, path)
    case None => None
    case Some(Dict(ordered, entries)) => Some(DictOf(ordered, entries.Keys))
    case Some(Items(isTuple, items)) => Some(ItemsOf(isTuple, |items|))
    case Some(Tensor(_)) => Some(Numbers)
    case Some(Int(_)) => Some(Ints)
    case Some(Other(kind, _)) => Some(Others(kind))
  }

  /** What only the second state has is kept whole; what both have is merged. */
  lemma {:induction false} MergeNode(a: State, b: State, path: seq<Step>)
    requires Mergeable(a, b)
    ensures match (Node(a, path), Node(b, path))
      case (_, None) => Node(Merged(a, b), path) == None
      case (None, Some(y)) => Node(Merged(a, b), path) == Some(y)
      case (Some(x), Some(y)) => Mergeable(x, y) && Node(Merged(a, b), path) == Some(Merged(x, y))
    decreases |path|
  {
    if path != [] {
      match path[0]
      case At(k) =>
        if b.Dict? && k in b.entries && k in a.entries { MergeNode(a.entries[k], b.entries[k], path[1..]); }
      case Nth(i) =>
        if b.Items? && i < |b.items| { MergeNode(a.items[i], b.items[i], path[1..]); }
    }
  }

  /** Merging is concatenation leaf by leaf. A tensor whose path is missing from the second state is
      dropped, one whose path is missing from the first is kept. */
  lemma MergeLeaf(a: State, b: State, path: seq<Step>)
    requires Mergeable(a, b)
    ensures Leaf(Merged(a, b), path) ==
      match (Leaf(a, path), Leaf(b, path))
      case (_, None) => None
      case (None, Some(y)) => Some(y)
      case (Some(x), Some(y)) => Some(x + y)
  {
    MergeNode(a, b, path);
  }

  /** Where both states hold a value that is no tensor, dictionary or sequence, the first one's is kept. */
  lemma MergeValue(a: State, b: State, path: seq<Step>)
    requires Mergeable(a, b)
    ensures Value(Merged(a, b), path) ==
      match (Value(a, path), Value(b, path))
      case (_, None) => None
      case (None, Some(y)) => Some(y)
      case (Some(x), Some(_)) => Some(x)
  {
    MergeNode(a, b, path);
  }

  /** The merged state has the key tree of the second state. */
  lemma MergeShape(a: State, b: State, path: seq<Step>)
    requires Mergeable(a, b)
    ensures ShapeAt(Merged(a, b), path) == ShapeAt(b, path)
  {
    MergeNode(a, b, path);
    if Node(a, path).Some? && Node(b, path).Some? {
      var x, y := Node(a, path).value, Node(b, path).value;
      assert y.Dict? ==> Merged(x, y).entries.Keys == y.entries.Keys;
    }
  }

  // ---------------------------------------------------------------------------------------------
  // Shards with the same key tree
  // ---------------------------------------------------------------------------------------------

  /** Same keys, lengths and types everywhere; tensors may differ in length. */
  ghost predicate SameTree(a: State, b: State)
    decreases b
  {
    SameType(a, b) &&
    match b
    case Dict(_, entries) =>
      a.entries.Keys == entries.Keys && forall k | k in entries.Keys :: SameTree(a.entries[k], entries[k])
    case Items(_, items) => |a.items| == |items| && forall i | 0 <= i < |items| :: SameTree(a.items[i], items[i])
    case _ => true
  }

  lemma {:induction false} SameTreeSymmetric(a: State, b: State)
    requires SameTree(a, b)
    ensures SameTree(b, a)
    decreases b
  {
    match b
    case Dict(_, entries) =>
      forall k | k in entries.Keys ensures SameTree(entries[k], a.entries[k]) {
        SameTreeSymmetric(a.entries[k], entries[k]);
      }
    case Items(_, items) =>
      forall i | 0 <= i < |items| ensures SameTree(items[i], a.items[i]) { SameTreeSymmetric(a.items[i], items[i]); }
    case _ =>
  }

  lemma {:induction false} SameTreeTransitive(a: State, b: State, c: State)
    requires SameTree(a, b) && SameTree(b, c)
    ensures SameTree(a, c)
    decreases c
  {
    match c
    case Dict(_, entries) =>
      forall k | k in entries.Keys ensures SameTree(a.entries[k], entries[k]) {
        SameTreeTransitive(a.entries[k], b.entries[k], entries[k]);
      }
    case Items(_, items) =>
      forall i | 0 <= i < |items| ensures SameTree(a.items[i], items[i]) {
        SameTreeTransitive(a.items[i], b.items[i], items[i]);
      }
    case _ =>
  }

  lemma {:induction false} SameTreeReflexive(a: State)
    ensures SameTree(a, a)
  {
    match a
    case Dict(_, entries) =>
      forall k | k in entries.Keys ensures SameTree(entries[k], entries[k]) { SameTreeReflexive(entries[k]); }
    case Items(_, items) =>
      forall i | 0 <= i < |items| ensures SameTree(items[i], items[i]) { SameTreeReflexive(items[i]); }
    case _ =>
  }

  /** Shards with the same key tree merge, into a state with that key tree. */
  lemma {:induction false} SameTreeMerges(a: State, b: State)
    requires SameTree(a, b)
    ensures Mergeable(a, b) && SameTree(Merged(a, b), b)
    decreases b
  {
    match b
    case Dict(_, entries) =>
      forall k | k in entries.Keys
        ensures Mergeable(a.entries[k], entries[k]) && SameTree(Merged(a.entries[k], entries[k]), entries[k])
      {
        SameTreeMerges(a.entries[k], entries[k]);
      }
    case Items(_, items) =>
      forall i | 0 <= i < |items|
        ensures Mergeable(a.items[i], items[i]) && SameTree(Merged(a.items[i], items[i]), items[i])
      {
        SameTreeMerges(a.items[i], items[i]);
      }
    case _ =>
  }

  lemma {:induction false} SameTreeNode(a: State, b: State, path: seq<Step>)
    requires SameTree(a, b)
    ensures Node(a, path).Some? <==> Node(b, path).Some?
    ensures Node(b, path).Some? ==> SameTree(Node(a, path).value, Node(b, path).value)
    decreases |path|
  {
    if path != [] {
      match path[0]
      case At(k) => if b.Dict? && k in b.entries { SameTreeNode(a.entries[k], b.entries[k], path[1..]); }
      case Nth(i) => if b.Items? && i < |b.items| { SameTreeNode(a.items[i], b.items[i], path[1..]); }
    }
  }

  /** Same key tree: tensors, and other values, sit at the same paths. */
  lemma SameTreeLeaf(a: State, b: State, path: seq<Step>)
    requires SameTree(a, b)
    ensures Leaf(a, path).Some? <==> Leaf(b, path).Some?
    ensures Value(a, path).Some? <==> Value(b, path).Some?
  {
    SameTreeNode(a, b, path);
  }

  /** The tensor at a path, empty when there is none. */
  ghost function Data(s: State, path: seq<Step>): seq<real> {
    match Leaf(s, path)
    case Some(x) => x
    case None => []
  }

  /** Merging concatenates the tensors at a path. */
  ghost predicate Concatenated(a: State, b: State, path: seq<Step>)
    requires Mergeable(a, b)
  {
    Data(Merged(a, b), path) == Data(a, path) + Data(b, path)
  }

  /** At a path, merging concatenates exactly when it does not drop a nonempty tensor of the first state. */
  lemma ConcatenatedAt(a: State, b: State, path: seq<Step>)
    requires Mergeable(a, b)
    ensures Concatenated(a, b, path) <==> (Data(a, path) != [] ==> Leaf(b, path).Some?)
  {
    MergeLeaf(a, b, path);
  }

  /** Merging concatenates every tensor exactly when every nonempty tensor of the first state has a tensor at its
      path in the second. */
  lemma MergeIsConcatenation(a: State, b: State)
    requires Mergeable(a, b)
    ensures (forall path :: Concatenated(a, b, path)) <==> (forall path :: Data(a, path) != [] ==> Leaf(b, path).Some?)
  {
    hide Data, Leaf, Concatenated;
    forall path ensures Concatenated(a, b, path) <==> (Data(a, path) != [] ==> Leaf(b, path).Some?) {
      ConcatenatedAt(a, b, path);
    }
  }

  /** The condition can fail: a tensor under a key that only the first dictionary has is lost. */
  lemma KeyLost(key: Key, x: seq<real>)
    requires x != []
    ensures
      var a, b, path := Dict(false, map[key := Tensor(x)]), Dict(false, map[]), [At(key)];
      Mergeable(a, b) && Data(a, path) == x && Data(Merged(a, b), path) == [] && !Concatenated(a, b, path)
  {
    var a, b, path := Dict(false, map[key := Tensor(x)]), Dict(false, map[]), [At(key)];
    assert path[1..] == [] && a.entries[key] == Tensor(x);
    assert Leaf(a, path) == Leaf(Tensor(x), []) && Leaf(b, path) == None;
    MergeLeaf(a, b, path);
  }

  /** Shards with the same key tree meet the condition, and the result has that key tree again. */
  lemma MergeConcatenates(a: State, b: State, path: seq<Step>)
    requires SameTree(a, b)
    ensures Mergeable(a, b) && SameTree(Merged(a, b), b)
    ensures Data(Merged(a, b), path) == Data(a, path) + Data(b, path)
  {
    SameTreeMerges(a, b);
    SameTreeLeaf(a, b, path);
    MergeLeaf(a, b, path);
  }
}
