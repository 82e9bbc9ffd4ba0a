/** Reading a sharded optimizer checkpoint under a new layout: deepspeed/checkpoint/zero_checkpoint.py. */
module ZeroCheckpoint {
  import opened Reshape3d
  import opened StateMerge
  import Meg2dReshape
  import opened Wrappers

  const OPTIMIZER_STATE_DICT := Name("optimizer_state_dict")
  const BASE_OPTIMIZER_STATE := Name("base_optimizer_state")
  const GROUP_STATE_KEY := Name("state")
  const GROUP_PADDINGS := Name("group_paddings")
  const PARTITION_COUNT := Name("partition_count")

  /** A plain list of integers. */
  ghost predicate IntList(s: State) {
    s.Items? && !s.isTuple && forall x :: x in s.items ==> x.Int?
  }

  // ---------------------------------------------------------------------------------------------
  // Looking into a state
  // ---------------------------------------------------------------------------------------------

  /** `dict.get`: only dictionaries have entries. */
  function Get(s: State, k: Key): Option<State> {
    if s.Dict? && k in s.entries then Some(s.entries[k]) else None
  }

  /** `_get_optimizer_state`. */
  function OptimizerState(sd: State, k: Key): Option<State> {
    match Get(sd, OPTIMIZER_STATE_DICT)
    case None => None
    case Some(optimizer) => Get(optimizer, k)
  }

  /** `_get_param_group_states`. */
  function GroupStates(sd: State): Option<State> {
    match OptimizerState(sd, BASE_OPTIMIZER_STATE)
    case None => None
    case Some(base) => Get(base, GROUP_STATE_KEY)
  }

  /** The shape of a ZeRO shard: groups are numbered dictionaries, and each group with a padding entry
      has tensors at least that long. */
  ghost predicate IsShard(sd: State) {
    sd.Dict? &&
    (Get(sd, OPTIMIZER_STATE_DICT).Some? ==> Get(sd, OPTIMIZER_STATE_DICT).value.Dict?) &&
    (OptimizerState(sd, BASE_OPTIMIZER_STATE).Some? ==> OptimizerState(sd, BASE_OPTIMIZER_STATE).value.Dict?) &&
    (OptimizerState(sd, GROUP_PADDINGS).Some? ==> IntList(OptimizerState(sd, GROUP_PADDINGS).value)) &&
    (OptimizerState(sd, PARTITION_COUNT).Some? ==> IntList(OptimizerState(sd, PARTITION_COUNT).value)) &&
    (GroupStates(sd).Some? ==>
      GroupStates(sd).value.Dict? &&
      forall k :: k in GroupStates(sd).value.entries ==>
        k.Id? && GroupStates(sd).value.entries[k].Dict? &&
        (OptimizerState(sd, GROUP_PADDINGS).Some? ==>
          PaddingFits(GroupStates(sd).value.entries[k], k.id, OptimizerState(sd, GROUP_PADDINGS).value)))
  }

  ghost predicate PaddingFits(group: State, id: int, paddings: State)
    requires group.Dict? && IntList(paddings)
  {
    0 <= id < |paddings.items| && 0 <= paddings.items[id].n &&
    forall name :: name in group.entries && group.entries[name].Tensor? ==>
      paddings.items[id].n <= |group.entries[name].data|
  }

  // ---------------------------------------------------------------------------------------------
  // _strip_tensor_paddings
  // ---------------------------------------------------------------------------------------------

  /** All tensors of one group lose their last `padding` elements. */
  ghost function StrippedGroup(group: State, padding: nat): State
    requires group.Dict?
    requires forall name ::
      name in group.entries && group.entries[name].Tensor? ==> padding <= |group.entries[name].data|
  {
    Dict(group.ordered, map name | name in group.entries.Keys ::
      if group.entries[name].Tensor? then Tensor(group.entries[name].data[..|group.entries[name].data| - padding])
      else group.entries[name])
  }

  /** The inner loop of `_strip_tensor_paddings`. */
  method StripGroup(group: State, padding: nat) returns (r: State)
    requires group.Dict?
    requires forall name ::
      name in group.entries && group.entries[name].Tensor? ==> padding <= |group.entries[name].data|
    ensures r == StrippedGroup(group, padding)
  {
    var entries := group.entries;
    var todo := entries.Keys;
    while todo != {}
      invariant todo <= entries.Keys == group.entries.Keys
      invariant forall name | name in entries.Keys ::
        entries[name] == if name in todo then group.entries[name] else StrippedGroup(group, padding).entries[name]
      decreases todo
    {
      var name :| name in todo;
      var value := entries[name];
      if value.Tensor? {
        var rawLength := |value.data| - padding;
        entries := entries[name := Tensor(value.data[..rawLength])];
      }
      todo := todo - {name};
    }
    r := Dict(group.ordered, entries);
  }

  ghost function StrippedGroups(groups: State, paddings: State): State
    requires groups.Dict? && IntList(paddings)
    requires forall k :: k in groups.entries ==>
      k.Id? && groups.entries[k].Dict? && PaddingFits(groups.entries[k], k.id, paddings)
  {
    Dict(groups.ordered, map k | k in groups.entries.Keys ::
      assert PaddingFits(groups.entries[k], k.id, paddings);
      StrippedGroup(groups.entries[k], paddings.items[k.id].n))
  }

  /** Writes the group states back into the shard. */
  function WithGroupStates(sd: State, groups: State): State
    requires GroupStates(sd).Some?
  {
    var optimizer := sd.entries[OPTIMIZER_STATE_DICT];
    var base := optimizer.entries[BASE_OPTIMIZER_STATE];
    sd.(entries := sd.entries[OPTIMIZER_STATE_DICT := optimizer.(entries := optimizer.entries[
      BASE_OPTIMIZER_STATE := base.(entries := base.entries[GROUP_STATE_KEY := groups])])])
  }

  ghost function Stripped(sd: State): State
    requires IsShard(sd)
  {
    if GroupStates(sd).None? || OptimizerState(sd, GROUP_PADDINGS).None? then sd
    else WithGroupStates(sd, StrippedGroups(GroupStates(sd).value, OptimizerState(sd, GROUP_PADDINGS).value))
  }

  /** `_strip_tensor_paddings`. */
  method StripTensorPaddings(sd: State) returns (r: State)
    requires IsShard(sd)
    ensures r == Stripped(sd)
  {
    var states := GroupStates(sd);
    if states.None? { return sd; }
    var paddings := OptimizerState(sd, GROUP_PADDINGS);
    if paddings.None? { return sd; }
    var groups := StripGroups(states.value, paddings.value);
    r := WithGroupStates(sd, groups);
  }

  /** The loop over the groups; a group with padding 0 is skipped. */
  method StripGroups(groups: State, paddings: State) returns (r: State)
    requires groups.Dict? && IntList(paddings)
    requires forall k :: k in groups.entries ==>
      k.Id? && groups.entries[k].Dict? && PaddingFits(groups.entries[k], k.id, paddings)
    ensures r == StrippedGroups(groups, paddings)
  {
    ghost var goal := StrippedGroups(groups, paddings).entries;
    var entries := groups.entries;
    var todo := entries.Keys;
    while todo != {}
      invariant todo <= entries.Keys == groups.entries.Keys
      invariant forall k | k in entries.Keys :: entries[k] == if k in todo then groups.entries[k] else goal[k]
      decreases todo
    {
      var k :| k in todo;
      assert PaddingFits(groups.entries[k], k.id, paddings);
      var padding := paddings.items[k.id].n;
      if padding == 0 {
        NothingStripped(groups.entries[k]);
      } else {
        var group := StripGroup(entries[k], padding);
        entries := entries[k := group];
      }
      todo := todo - {k};
    }
    assert entries == goal;
    r := Dict(groups.ordered, entries);
  }

  lemma NothingStripped(group: State)
    requires group.Dict?
    ensures StrippedGroup(group, 0) == group
  {
    assert StrippedGroup(group, 0).entries == group.entries by {
      forall name | name in group.entries.Keys ensures StrippedGroup(group, 0).entries[name] == group.entries[name] {
        if group.entries[name].Tensor? {
          assert group.entries[name].data[..|group.entries[name].data|] == group.entries[name].data;
        }
      }
    }
  }

  // ---------------------------------------------------------------------------------------------
  // _clear_group_paddings and _update_partition_count
  // ---------------------------------------------------------------------------------------------

  /** `[n] * count`. */
  function Repeated(n: int, count: nat): (s: State)
    ensures IntList(s) && |s.items| == count
  {
    Items(false, seq(count, _ => Int(n)))
  }

  /** Replaces every entry of an integer list kept beside the optimizer state. */
  function Overwritten(sd: State, k: Key, n: int): State {
    match OptimizerState(sd, k)
    case None => sd
    case Some(list) =>
      if list.Items? && list.items != [] then
        var optimizer := sd.entries[OPTIMIZER_STATE_DICT];
        var overwritten := optimizer.(entries := optimizer.entries[k := Repeated(n, |list.items|)]);
        sd.(entries := sd.entries[OPTIMIZER_STATE_DICT := overwritten])
      else sd
  }

  /** `_clear_group_paddings`. */
  function ClearGroupPaddings(sd: State): State { Overwritten(sd, GROUP_PADDINGS, 0) }

  /** `_update_partition_count`. */
  function UpdatePartitionCount(sd: State, dp: nat): State { Overwritten(sd, PARTITION_COUNT, dp) }

  // ---------------------------------------------------------------------------------------------
  // What these steps do to the tensors
  // ---------------------------------------------------------------------------------------------

  /** The path of tensor `name` of group g in the base optimizer's state. */
  ghost predicate IsGroupTensorPath(path: seq<Step>) {
    |path| == 5 && path[0] == At(OPTIMIZER_STATE_DICT) && path[1] == At(BASE_OPTIMIZER_STATE) &&
    path[2] == At(GROUP_STATE_KEY) && path[3].At? && path[3].key.Id? && path[4].At?
  }

  ghost function Padding(sd: State, path: seq<Step>): nat
    requires IsShard(sd)
  {
    if IsGroupTensorPath(path) && Leaf(sd, path).Some? && OptimizerState(sd, GROUP_PADDINGS).Some? &&
       0 <= path[3].key.id < |OptimizerState(sd, GROUP_PADDINGS).value.items| &&
       OptimizerState(sd, GROUP_PADDINGS).value.items[path[3].key.id].n >= 0
    then OptimizerState(sd, GROUP_PADDINGS).value.items[path[3].key.id].n
    else 0
  }

  /** The tensor at a path without its group's padding. */
  ghost function Unpadded(sd: State, path: seq<Step>): seq<real>
    requires IsShard(sd)
  {
    var data := Data(sd, path);
    if Padding(sd, path) <= |data| then data[..|data| - Padding(sd, path)] else []
  }

  /** An update changes what is below the key. */
  lemma NodeOfUpdate(s: State, k: Key, v: State, path: seq<Step>)
    requires s.Dict? && k in s.entries && path != []
    ensures Node(s.(entries := s.entries[k := v]), path) ==
            if path[0] == At(k) then Node(v, path[1..]) else Node(s, path)
  {
  }

  /** A dictionary and another one have no tensor or value of their own: what matters is below a key. */
  lemma BelowKey(s: State, k: Key, v: State, w: State, path: seq<Step>)
    requires s.Dict? && k in s.entries && v == s.entries[k] && v.Dict? && w.Dict?
    requires path == [At(k)]
    ensures Node(s.(entries := s.entries[k := w]), path) == Some(w) && Node(s, path) == Some(v)
  {
    NodeOfUpdate(s, k, w, path);
    assert path[1..] == [];
  }

  lemma TreeOfUpdate(s: State, k: Key, v: State)
    requires s.Dict? && k in s.entries && SameTree(v, s.entries[k])
    ensures SameTree(s.(entries := s.entries[k := v]), s)
  {
    var t := s.(entries := s.entries[k := v]);
    forall j | j in s.entries.Keys ensures SameTree(t.entries[j], s.entries[j]) {
      if j != k { SameTreeReflexive(s.entries[j]); }
    }
  }

  /** The path lies in the list under k beside the optimizer state. */
  ghost predicate InList(path: seq<Step>, k: Key) {
    |path| >= 2 && path[0] == At(OPTIMIZER_STATE_DICT) && path[1] == At(k)
  }

  /** Overwriting an integer list touches no tensor and no value elsewhere, and keeps the key tree. */
  lemma OverwrittenKeeps(sd: State, k: Key, n: int, path: seq<Step>)
    requires OptimizerState(sd, k).Some? ==> IntList(OptimizerState(sd, k).value)
    ensures Leaf(Overwritten(sd, k, n), path) == Leaf(sd, path)
    ensures !InList(path, k) ==> Value(Overwritten(sd, k, n), path) == Value(sd, path)
    ensures SameTree(Overwritten(sd, k, n), sd)
  {
    SameTreeReflexive(sd);
    if OptimizerState(sd, k).Some? && OptimizerState(sd, k).value.items != [] {
      var list := OptimizerState(sd, k).value;
      var optimizer := sd.entries[OPTIMIZER_STATE_DICT];
      var repeated := Repeated(n, |list.items|);
      var overwritten := optimizer.(entries := optimizer.entries[k := repeated]);
      assert forall i :: 0 <= i < |list.items| ==> list.items[i] in list.items && repeated.items[i].Int?;
      TreeOfUpdate(optimizer, k, repeated);
      TreeOfUpdate(sd, OPTIMIZER_STATE_DICT, overwritten);
      OverwrittenNode(sd, k, overwritten, repeated, path);
      if InList(path, k) {
        NoTensors(list, path[2..]);
        NoTensors(repeated, path[2..]);
        assert Node(optimizer, path[1..]) == Node(list, path[1..][1..]);
      }
    }
  }

  lemma OverwrittenNode(sd: State, k: Key, overwritten: State, list: State, path: seq<Step>)
    requires OptimizerState(sd, k).Some?
    requires var optimizer := sd.entries[OPTIMIZER_STATE_DICT];
      overwritten == optimizer.(entries := optimizer.entries[k := list])
    ensures var s := sd.(entries := sd.entries[OPTIMIZER_STATE_DICT := overwritten]);
      (InList(path, k) ==> Node(s, path) == Node(list, path[2..])) &&
      (!InList(path, k) ==> Leaf(s, path) == Leaf(sd, path) && Value(s, path) == Value(sd, path))
  {
    var optimizer := sd.entries[OPTIMIZER_STATE_DICT];
    if path != [] {
      NodeOfUpdate(sd, OPTIMIZER_STATE_DICT, overwritten, path);
      if |path| > 1 {
        NodeOfUpdate(optimizer, k, list, path[1..]);
        assert path[1..][1..] == path[2..];
      } else if path[0] == At(OPTIMIZER_STATE_DICT) {
        BelowKey(sd, OPTIMIZER_STATE_DICT, optimizer, overwritten, path);
      }
    }
  }

  lemma NoTensors(list: State, path: seq<Step>)
    requires IntList(list)
    ensures Leaf(list, path) == None
  {
    if path != [] && path[0].Nth? && path[0].index < |list.items| {
      var x := list.items[path[0].index];
      assert x in list.items && Node(list, path) == Node(x, path[1..]);
    }
  }

  ghost predicate InGroupStates(path: seq<Step>) {
    |path| >= 3 && path[0] == At(OPTIMIZER_STATE_DICT) && path[1] == At(BASE_OPTIMIZER_STATE) &&
    path[2] == At(GROUP_STATE_KEY)
  }

  /** Writing back group states replaces exactly the leaves below the three fixed keys. */
  lemma LeafOfGroupStates(sd: State, groups: State, path: seq<Step>)
    requires GroupStates(sd).Some?
    ensures if InGroupStates(path) then Node(WithGroupStates(sd, groups), path) == Node(groups, path[3..])
      else Leaf(WithGroupStates(sd, groups), path) == Leaf(sd, path) &&
           Value(WithGroupStates(sd, groups), path) == Value(sd, path)
  {
    var optimizer := sd.entries[OPTIMIZER_STATE_DICT];
    var base := optimizer.entries[BASE_OPTIMIZER_STATE];
    var newBase := base.(entries := base.entries[GROUP_STATE_KEY := groups]);
    var newOptimizer := optimizer.(entries := optimizer.entries[BASE_OPTIMIZER_STATE := newBase]);
    if path != [] {
      NodeOfUpdate(sd, OPTIMIZER_STATE_DICT, newOptimizer, path);
      if |path| > 1 {
        NodeOfUpdate(optimizer, BASE_OPTIMIZER_STATE, newBase, path[1..]);
        assert path[1..][1..] == path[2..];
        if |path| > 2 {
          NodeOfUpdate(base, GROUP_STATE_KEY, groups, path[2..]);
          assert path[2..][1..] == path[3..];
          assert path[0] == At(OPTIMIZER_STATE_DICT) ==> Node(sd, path) == Node(optimizer, path[1..]);
          assert path[1] == At(BASE_OPTIMIZER_STATE) ==> Node(optimizer, path[1..]) == Node(base, path[2..]);
        } else if path[0] == At(OPTIMIZER_STATE_DICT) && path[1] == At(BASE_OPTIMIZER_STATE) {
          BelowKey(optimizer, BASE_OPTIMIZER_STATE, base, newBase, path[1..]);
        }
      } else if path[0] == At(OPTIMIZER_STATE_DICT) {
        BelowKey(sd, OPTIMIZER_STATE_DICT, optimizer, newOptimizer, path);
      }
    }
  }

  lemma LeafInGroupStates(sd: State, path: seq<Step>)
    requires GroupStates(sd).Some? && InGroupStates(path)
    ensures Node(sd, path) == Node(GroupStates(sd).value, path[3..])
  {
    var optimizer := sd.entries[OPTIMIZER_STATE_DICT];
    var base := optimizer.entries[BASE_OPTIMIZER_STATE];
    assert Node(sd, path) == Node(optimizer, path[1..]);
    assert path[1..][1..] == path[2..];
    assert Node(optimizer, path[1..]) == Node(base, path[2..]);
    assert path[2..][1..] == path[3..];
  }

  /** Stripping removes from every tensor exactly its group's padding, and keeps every other value and the key tree. */
  lemma StrippedKeeps(sd: State, path: seq<Step>)
    requires IsShard(sd)
    ensures Data(Stripped(sd), path) == Unpadded(sd, path)
    ensures Value(Stripped(sd), path) == Value(sd, path)
    ensures SameTree(Stripped(sd), sd)
  {
    hide SameTree;
    SameTreeReflexive(sd);
    if GroupStates(sd).Some? && OptimizerState(sd, GROUP_PADDINGS).Some? {
      var groups, paddings := GroupStates(sd).value, OptimizerState(sd, GROUP_PADDINGS).value;
      StrippedGroupsTree(groups, paddings);
      var newGroups := StrippedGroups(groups, paddings);
      GroupStatesTree(sd, newGroups);
      LeafOfGroupStates(sd, newGroups, path);
      if InGroupStates(path) {
        LeafInGroupStates(sd, path);
        StrippedGroupsLeaf(groups, paddings, path[3..]);
      }
    } else if IsGroupTensorPath(path) && GroupStates(sd).None? {
      NoGroupStates(sd, path);
    }
  }

  lemma GroupStatesTree(sd: State, groups: State)
    requires GroupStates(sd).Some? && SameTree(groups, GroupStates(sd).value)
    ensures SameTree(WithGroupStates(sd, groups), sd)
  {
    hide SameTree;
    var optimizer := sd.entries[OPTIMIZER_STATE_DICT];
    var base := optimizer.entries[BASE_OPTIMIZER_STATE];
    var newBase := base.(entries := base.entries[GROUP_STATE_KEY := groups]);
    TreeOfUpdate(base, GROUP_STATE_KEY, groups);
    TreeOfUpdate(optimizer, BASE_OPTIMIZER_STATE, newBase);
    TreeOfUpdate(sd, OPTIMIZER_STATE_DICT, optimizer.(entries := optimizer.entries[BASE_OPTIMIZER_STATE := newBase]));
  }

  lemma NoGroupStates(sd: State, path: seq<Step>)
    requires GroupStates(sd).None? && IsGroupTensorPath(path)
    ensures Leaf(sd, path) == None
  {
    assert path[1..][1..] == path[2..];
    if Get(sd, OPTIMIZER_STATE_DICT).Some? {
      var optimizer := sd.entries[OPTIMIZER_STATE_DICT];
      assert Leaf(sd, path) == Leaf(optimizer, path[1..]);
      if Get(optimizer, BASE_OPTIMIZER_STATE).Some? {
        assert Leaf(optimizer, path[1..]) == Leaf(optimizer.entries[BASE_OPTIMIZER_STATE], path[2..]);
      }
    }
  }

  lemma StrippedGroupsTree(groups: State, paddings: State)
    requires groups.Dict? && IntList(paddings)
    requires forall k :: k in groups.entries ==>
      k.Id? && groups.entries[k].Dict? && PaddingFits(groups.entries[k], k.id, paddings)
    ensures SameTree(StrippedGroups(groups, paddings), groups)
  {
    var stripped := StrippedGroups(groups, paddings);
    forall k | k in groups.entries.Keys ensures SameTree(stripped.entries[k], groups.entries[k]) {
      var group := groups.entries[k];
      assert PaddingFits(group, k.id, paddings);
      assert stripped.entries[k] == StrippedGroup(group, paddings.items[k.id].n);
      forall name | name in group.entries.Keys
        ensures SameTree(stripped.entries[k].entries[name], group.entries[name])
      {
        SameTreeReflexive(group.entries[name]);
      }
    }
  }

  /** Below the group states a path is a group, then a tensor name. */
  lemma StrippedGroupsLeaf(groups: State, paddings: State, path: seq<Step>)
    requires groups.Dict? && IntList(paddings)
    requires forall k :: k in groups.entries ==>
      k.Id? && groups.entries[k].Dict? && PaddingFits(groups.entries[k], k.id, paddings)
    ensures Leaf(groups, path).Some? && |path| == 2 ==>
      path[0].At? && path[0].key.Id? && path[1].At? && 0 <= path[0].key.id < |paddings.items| &&
      0 <= paddings.items[path[0].key.id].n <= |Leaf(groups, path).value|
    ensures Leaf(StrippedGroups(groups, paddings), path) ==
      if Leaf(groups, path).Some? && |path| == 2
      then Some(Leaf(groups, path).value[..|Leaf(groups, path).value| - paddings.items[path[0].key.id].n])
      else Leaf(groups, path)
    ensures Value(StrippedGroups(groups, paddings), path) == Value(groups, path)
  {
    if path != [] && path[0].At? && path[0].key in groups.entries {
      var k, rest := path[0].key, path[1..];
      var group := groups.entries[k];
      assert PaddingFits(group, k.id, paddings);
      var n := paddings.items[k.id].n;
      var stripped := StrippedGroups(groups, paddings);
      assert stripped.entries[k] == StrippedGroup(group, n);
      assert Node(groups, path) == Node(group, rest) && Node(stripped, path) == Node(StrippedGroup(group, n), rest);
      StrippedGroupLeaf(group, n, rest);
      assert |rest| == 1 <==> |path| == 2;
      if |path| == 2 { assert rest[0] == path[1]; }
    }
  }

  lemma StrippedGroupLeaf(group: State, n: nat, path: seq<Step>)
    requires group.Dict?
    requires forall name :: name in group.entries && group.entries[name].Tensor? ==> n <= |group.entries[name].data|
    ensures Leaf(group, path).Some? && |path| == 1 ==> path[0].At? && n <= |Leaf(group, path).value|
    ensures Leaf(StrippedGroup(group, n), path) ==
      if Leaf(group, path).Some? && |path| == 1 then Some(Leaf(group, path).value[..|Leaf(group, path).value| - n])
      else Leaf(group, path)
    ensures Value(StrippedGroup(group, n), path) == Value(group, path)
  {
    if path != [] && path[0].At? && path[0].key in group.entries {
      var name := path[0].key;
      assert Node(group, path) == Node(group.entries[name], path[1..]);
      assert Node(StrippedGroup(group, n), path) == Node(StrippedGroup(group, n).entries[name], path[1..]);
    }
  }

  // ---------------------------------------------------------------------------------------------
  // Ignored keys
  // ---------------------------------------------------------------------------------------------

  ghost function Popped(sd: State, ignored: seq<Key>): State
    requires sd.Dict?
  {
    sd.(entries := map k | k in sd.entries.Keys && k !in ignored :: sd.entries[k])
  }

  /** The loop of `sd.pop(key, None)`. */
  method Pop(sd: State, ignored: seq<Key>) returns (r: State)
    requires sd.Dict?
    ensures r == Popped(sd, ignored)
  {
    r := sd;
    assert sd.entries == Popped(sd, []).entries;
    for i := 0 to |ignored|
      invariant r == Popped(sd, ignored[..i])
    {
      r := r.(entries := r.entries - {ignored[i]});
      assert r.entries == Popped(sd, ignored[..i + 1]).entries;
    }
    assert ignored[..|ignored|] == ignored;
  }

  ghost predicate IsIgnored(path: seq<Step>, ignored: seq<Key>) {
    path != [] && path[0].At? && path[0].key in ignored
  }

  lemma PoppedKeeps(sd: State, ignored: seq<Key>, path: seq<Step>)
    requires IsShard(sd)
    ensures IsShard(Popped(sd, ignored))
    ensures Data(Popped(sd, ignored), path) == if IsIgnored(path, ignored) then [] else Data(sd, path)
    ensures Value(Popped(sd, ignored), path) == if IsIgnored(path, ignored) then None else Value(sd, path)
    ensures Unpadded(Popped(sd, ignored), path) == if IsIgnored(path, ignored) then [] else Unpadded(sd, path)
  {
    var popped := Popped(sd, ignored);
    assert path != [] ==> Node(popped, path) == if IsIgnored(path, ignored) then None else Node(sd, path);
    if OPTIMIZER_STATE_DICT !in ignored {
      forall k ensures OptimizerState(popped, k) == OptimizerState(sd, k) {}
    } else {
      forall k ensures OptimizerState(popped, k) == None {}
    }
  }

  lemma PoppedTree(a: State, b: State, ignored: seq<Key>)
    requires a.Dict? && b.Dict? && SameTree(a, b)
    ensures SameTree(Popped(a, ignored), Popped(b, ignored))
  {
  }

  // ---------------------------------------------------------------------------------------------
  // The state read for one rank
  // ---------------------------------------------------------------------------------------------

  /** What one file contributes to the tensor at a path. */
  ghost function Piece(sd: State, ignored: seq<Key>, strip: bool, path: seq<Step>): seq<real>
    requires IsShard(sd)
  {
    if IsIgnored(path, ignored) then [] else if strip then Unpadded(sd, path) else Data(sd, path)
  }

  /** The shards of a checkpoint: well formed, and with the same key tree. */
  ghost predicate Shards(files: seq<State>) {
    (forall f :: f in files ==> IsShard(f)) && forall f, g :: f in files && g in files ==> SameTree(f, g)
  }

  ghost predicate InFiles(indices: seq<nat>, files: seq<State>) {
    forall k :: 0 <= k < |indices| ==> indices[k] < |files|
  }

  ghost function PieceAt(files: seq<State>, index: nat, ignored: seq<Key>, strip: bool, path: seq<Step>): seq<real>
    requires Shards(files) && index < |files|
  {
    assert files[index] in files;
    Piece(files[index], ignored, strip, path)
  }

  /** The contributions of the files at the given indices, in order. */
  ghost function Joined(files: seq<State>, indices: seq<nat>, ignored: seq<Key>, strip: bool,
                        path: seq<Step>): seq<real>
    requires Shards(files) && InFiles(indices, files)
  {
    if indices == [] then []
    else
      var k := |indices| - 1;
      Joined(files, indices[..k], ignored, strip, path) + PieceAt(files, indices[k], ignored, strip, path)
  }

  lemma {:induction false} JoinedConcat(files: seq<State>, a: seq<nat>, b: seq<nat>, ignored: seq<Key>, strip: bool,
                                        path: seq<Step>)
    requires Shards(files) && InFiles(a, files) && InFiles(b, files)
    ensures InFiles(a + b, files)
    ensures Joined(files, a + b, ignored, strip, path) ==
            Joined(files, a, ignored, strip, path) + Joined(files, b, ignored, strip, path)
  {
    hide Shards, Piece;
    if b == [] {
      assert a + b == a;
    } else {
      var k := |b| - 1;
      var init, last := b[..k], b[k];
      JoinedConcat(files, a, init, ignored, strip, path);
      assert (a + b)[..|a + b| - 1] == a + init && (a + b)[|a + b| - 1] == last;
    }
  }

  ghost function Prepared(sd: State, ignored: seq<Key>, strip: bool): State
    requires IsShard(sd)
  {
    PoppedKeeps(sd, ignored, []);
    if strip then Stripped(Popped(sd, ignored)) else Popped(sd, ignored)
  }

  lemma PreparedKeeps(sd: State, ignored: seq<Key>, strip: bool, path: seq<Step>)
    requires IsShard(sd)
    ensures Data(Prepared(sd, ignored, strip), path) == Piece(sd, ignored, strip, path)
    ensures Value(Prepared(sd, ignored, strip), path) == Value(Popped(sd, ignored), path)
    ensures SameTree(Prepared(sd, ignored, strip), Popped(sd, ignored))
  {
    PoppedKeeps(sd, ignored, path);
    StrippedKeeps(Popped(sd, ignored), path);
    SameTreeReflexive(Popped(sd, ignored));
  }

  /** Every entry of the integer list under k is n. */
  ghost predicate AllEntries(sd: State, k: Key, n: int) {
    OptimizerState(sd, k).Some? ==>
      OptimizerState(sd, k).value.Items? && forall x :: x in OptimizerState(sd, k).value.items ==> x == Int(n)
  }

  lemma OverwrittenReads(sd: State, k: Key, n: int)
    requires OptimizerState(sd, k).Some? ==> IntList(OptimizerState(sd, k).value)
    ensures AllEntries(Overwritten(sd, k, n), k, n)
    ensures forall j, m :: j != k && AllEntries(sd, j, m) ==> AllEntries(Overwritten(sd, k, n), j, m)
  {
    forall j | j != k ensures OptimizerState(Overwritten(sd, k, n), j) == OptimizerState(sd, j) {}
  }

  /** A state with the tree of a shard keeps its integer lists where the shard has them. */
  lemma TreeLists(s: State, shard: State)
    requires SameTree(s, shard) && IsShard(shard)
    ensures OptimizerState(s, PARTITION_COUNT).Some? ==> IntList(OptimizerState(s, PARTITION_COUNT).value)
    ensures OptimizerState(s, GROUP_PADDINGS).Some? ==> IntList(OptimizerState(s, GROUP_PADDINGS).value)
  {
    TreeList(s, shard, PARTITION_COUNT);
    TreeList(s, shard, GROUP_PADDINGS);
  }

  lemma TreeList(s: State, shard: State, k: Key)
    requires SameTree(s, shard) && (OptimizerState(shard, k).Some? ==> IntList(OptimizerState(shard, k).value))
    ensures OptimizerState(s, k).Some? ==> IntList(OptimizerState(s, k).value)
  {
    if OptimizerState(s, k).Some? {
      var a, b := s.entries[OPTIMIZER_STATE_DICT], shard.entries[OPTIMIZER_STATE_DICT];
      assert SameTree(a, b) && SameTree(a.entries[k], b.entries[k]);
      var list, model := a.entries[k], b.entries[k];
      assert OptimizerState(shard, k) == Some(model);
      forall x | x in list.items ensures x.Int? {
        var i :| 0 <= i < |list.items| && list.items[i] == x;
        assert SameTree(list.items[i], model.items[i]) && model.items[i] in model.items;
      }
    }
  }

  /** One file of the loop: merging it in appends its tensors and keeps the tree. */
  lemma MergeStep(merged: State, sd: State, shard: State)
    requires SameTree(merged, shard) && SameTree(sd, shard)
    ensures Mergeable(merged, sd) && SameTree(Merged(merged, sd), shard)
    ensures forall path :: Data(Merged(merged, sd), path) == Data(merged, path) + Data(sd, path)
    ensures forall path :: Value(Merged(merged, sd), path) == Value(merged, path)
  {
    hide SameTree;
    SameTreeSymmetric(sd, shard);
    SameTreeTransitive(merged, shard, sd);
    SameTreeMerges(merged, sd);
    SameTreeTransitive(Merged(merged, sd), sd, shard);
    forall path
      ensures Data(Merged(merged, sd), path) == Data(merged, path) + Data(sd, path)
      ensures Value(Merged(merged, sd), path) == Value(merged, path)
    {
      MergeConcatenates(merged, sd, path);
      MergeValue(merged, sd, path);
      SameTreeLeaf(merged, sd, path);
    }
  }

  /** Adjusting one bookkeeping list keeps the tree, every tensor and every value outside the list. */
  lemma OverwriteStep(s: State, shard: State, k: Key, n: int)
    requires SameTree(s, shard) && IsShard(shard) && (k == PARTITION_COUNT || k == GROUP_PADDINGS)
    ensures SameTree(Overwritten(s, k, n), shard)
    ensures forall path :: Data(Overwritten(s, k, n), path) == Data(s, path)
    ensures forall path :: !InList(path, k) ==> Value(Overwritten(s, k, n), path) == Value(s, path)
    ensures AllEntries(Overwritten(s, k, n), k, n)
    ensures forall j, m :: j != k && AllEntries(s, j, m) ==> AllEntries(Overwritten(s, k, n), j, m)
  {
    TreeLists(s, shard);
    OverwrittenReads(s, k, n);
    OverwrittenKeeps(s, k, n, []);
    SameTreeTransitive(Overwritten(s, k, n), s, shard);
    forall path
      ensures Data(Overwritten(s, k, n), path) == Data(s, path)
      ensures !InList(path, k) ==> Value(Overwritten(s, k, n), path) == Value(s, path)
    {
      OverwrittenKeeps(s, k, n, path);
    }
  }

  // ---------------------------------------------------------------------------------------------
  // The checkpoint
  // ---------------------------------------------------------------------------------------------

  ghost function DataOf(s: Option<State>, path: seq<Step>): seq<real> {
    match s
    case None => []
    case Some(state) => Data(state, path)
  }

  /** Every tensor of the state is the concatenation of what the files at `indices` contribute. */
  ghost predicate Reads(s: Option<State>, files: seq<State>, indices: seq<nat>, ignored: seq<Key>, strip: bool)
    requires Shards(files)
  {
    InFiles(indices, files) && forall path :: DataOf(s, path) == Joined(files, indices, ignored, strip, path)
  }

  lemma ReadsGrows(s: Option<State>, next: State, sd: State, files: seq<State>, indices: seq<nat>, index: nat,
                   ignored: seq<Key>, strip: bool)
    requires Shards(files) && Reads(s, files, indices, ignored, strip) && index < |files|
    requires forall path :: Data(sd, path) == PieceAt(files, index, ignored, strip, path)
    requires forall path :: Data(next, path) == DataOf(s, path) + Data(sd, path)
    ensures Reads(Some(next), files, indices + [index], ignored, strip)
  {
    var more := indices + [index];
    assert more[..|indices|] == indices && more[|indices|] == index;
    assert InFiles(more, files);
  }

  /** The path lies in a list that `get_state_for_rank` adjusts. */
  ghost predicate Adjusted(path: seq<Step>, strip: bool) {
    InList(path, PARTITION_COUNT) || (strip && InList(path, GROUP_PADDINGS))
  }

  /** Outside the adjusted lists the two states hold the same values. */
  ghost predicate SameValues(s: State, t: State, strip: bool) {
    forall path :: !Adjusted(path, strip) ==> Value(s, path) == Value(t, path)
  }

  /** The state has the file's key tree without the ignored keys and, outside the adjusted lists, its values. */
  ghost predicate KeepsFirst(s: State, file: State, ignored: seq<Key>, strip: bool)
    requires file.Dict?
  {
    SameTree(s, Popped(file, ignored)) &&
    forall path :: !Adjusted(path, strip) ==>
      Value(s, path) == if IsIgnored(path, ignored) then None else Value(file, path)
  }

  lemma SettledKeepsFirst(s: State, file: State, ignored: seq<Key>, strip: bool)
    requires IsShard(file) && SameTree(s, Popped(file, ignored)) && SameValues(s, Popped(file, ignored), strip)
    ensures KeepsFirst(s, file, ignored, strip)
  {
    hide SameTree, IsShard;
    forall path | !Adjusted(path, strip)
      ensures Value(s, path) == if IsIgnored(path, ignored) then None else Value(file, path)
    {
      PoppedKeeps(file, ignored, path);
    }
  }

  /** The loop body of `get_state_for_rank`: merge, then adjust the bookkeeping lists. */
  method MergeIn(merged: Option<State>, sd: State, dp: nat, strip: bool, ghost shard: State) returns (next: State)
    requires IsShard(shard) && SameTree(sd, shard) && (merged.Some? ==> SameTree(merged.value, shard))
    requires SameValues(if merged.Some? then merged.value else sd, shard, strip)
    ensures SameTree(next, shard) && SameValues(next, shard, strip)
    ensures AllEntries(next, PARTITION_COUNT, dp) && (strip ==> AllEntries(next, GROUP_PADDINGS, 0))
    ensures forall path :: Data(next, path) == DataOf(merged, path) + Data(sd, path)
  {
    next := sd;
    if merged.Some? {
      MergeStep(merged.value, sd, shard);
      var both := MergeState(merged.value, sd);
      next := both.value;
    }
    OverwriteStep(next, shard, PARTITION_COUNT, dp);
    next := UpdatePartitionCount(next, dp);
    if strip {
      OverwriteStep(next, shard, GROUP_PADDINGS, 0);
      next := ClearGroupPaddings(next);
    }
  }

  /** Loads a file, drops the ignored keys and strips the paddings. */
  method LoadFile(files: seq<State>, index: nat, ignored: seq<Key>, strip: bool) returns (sd: State)
    requires Shards(files) && index < |files|
    ensures files[index] in files && sd == Prepared(files[index], ignored, strip)
    ensures forall path :: Data(sd, path) == PieceAt(files, index, ignored, strip, path)
  {
    assert files[index] in files;
    PoppedKeeps(files[index], ignored, []);
    sd := Pop(files[index], ignored);
    if strip { sd := StripTensorPaddings(sd); }
    forall path ensures Data(sd, path) == PieceAt(files, index, ignored, strip, path) {
      PreparedKeeps(files[index], ignored, strip, path);
    }
  }

  lemma PreparedTree(files: seq<State>, index: nat, first: nat, ignored: seq<Key>, strip: bool)
    requires Shards(files) && index < |files| && first < |files|
    ensures files[index] in files && files[first] in files
    ensures SameTree(Prepared(files[index], ignored, strip), Popped(files[first], ignored))
  {
    assert files[index] in files && files[first] in files;
    PreparedKeeps(files[index], ignored, strip, []);
    PoppedTree(files[index], files[first], ignored);
    SameTreeTransitive(Prepared(files[index], ignored, strip), Popped(files[index], ignored),
      Popped(files[first], ignored));
  }

  /** The state after some files of the loop has the key tree of the shard and settled bookkeeping lists. */
  ghost predicate Settled(s: Option<State>, shard: State, dp: nat, strip: bool) {
    s.Some? ==> SameTree(s.value, shard) && SameValues(s.value, shard, strip) &&
                AllEntries(s.value, PARTITION_COUNT, dp) &&
                (strip ==> AllEntries(s.value, GROUP_PADDINGS, 0))
  }

  lemma NothingRead(files: seq<State>, ignored: seq<Key>, strip: bool, shard: State, dp: nat)
    requires Shards(files)
    ensures Reads(None, files, [], ignored, strip) && Settled(None, shard, dp, strip)
  {
  }

  /** One turn of the file loop of `get_state_for_rank`. */
  method NextFile(files: seq<State>, indices: seq<nat>, x: nat, merged: Option<State>, ignored: seq<Key>, strip: bool,
                  dp: nat, ghost shard: State)
    returns (next: State)
    requires Shards(files) && InFiles(indices, files) && x < |indices|
    requires files[indices[0]] in files && shard == Popped(files[indices[0]], ignored)
    requires Settled(merged, shard, dp, strip) && Reads(merged, files, indices[..x], ignored, strip)
    requires merged.None? ==> x == 0
    ensures Settled(Some(next), shard, dp, strip) && Reads(Some(next), files, indices[..x + 1], ignored, strip)
  {
    hide SameTree, AllEntries, Prepared, Popped, Reads, IsShard, SameValues;
    PreparedTree(files, indices[x], indices[0], ignored, strip);
    PoppedShard(files, indices[0], ignored);
    var sd := LoadFile(files, indices[x], ignored, strip);
    if x == 0 { FirstValues(files[indices[0]], ignored, strip); }
    next := MergeIn(merged, sd, dp, strip, shard);
    ReadsGrows(merged, next, sd, files, indices[..x], indices[x], ignored, strip);
    assert indices[..x + 1] == indices[..x] + [indices[x]];
  }

  lemma FirstValues(file: State, ignored: seq<Key>, strip: bool)
    requires IsShard(file)
    ensures SameValues(Prepared(file, ignored, strip), Popped(file, ignored), strip)
  {
    forall path ensures Value(Prepared(file, ignored, strip), path) == Value(Popped(file, ignored), path) {
      PreparedKeeps(file, ignored, strip, path);
    }
  }

  lemma PoppedShard(files: seq<State>, index: nat, ignored: seq<Key>)
    requires Shards(files) && index < |files|
    ensures files[index] in files && IsShard(Popped(files[index], ignored))
  {
    PoppedKeeps(files[index], ignored, []);
  }

  /** The file loop of `get_state_for_rank`. */
  method MergeFiles(files: seq<State>, indices: seq<nat>, ignored: seq<Key>, strip: bool, dp: nat)
    returns (state: State)
    requires Shards(files) && InFiles(indices, files) && |indices| > 0
    ensures Reads(Some(state), files, indices, ignored, strip)
    ensures files[indices[0]] in files && KeepsFirst(state, files[indices[0]], ignored, strip)
    ensures AllEntries(state, PARTITION_COUNT, dp) && (strip ==> AllEntries(state, GROUP_PADDINGS, 0))
  {
    hide SameTree, AllEntries, Popped, Reads, SameValues, KeepsFirst;
    var merged: Option<State> := None;
    assert files[indices[0]] in files;
    ghost var shard := Popped(files[indices[0]], ignored);
    assert indices[..0] == [];
    NothingRead(files, ignored, strip, shard, dp);
    for x := 0 to |indices|
      invariant x > 0 ==> merged.Some?
      invariant Settled(merged, shard, dp, strip) && Reads(merged, files, indices[..x], ignored, strip)
    {
      var next := NextFile(files, indices, x, merged, ignored, strip, dp, shard);
      merged := Some(next);
    }
    assert indices[..|indices|] == indices;
    state := merged.value;
    SettledKeepsFirst(state, files[indices[0]], ignored, strip);
  }

  /** `ZeROCheckpoint`. A file is its loaded state, at its position in the sorted file list. */
  class Checkpoint {
    const files: seq<State>
    const src: Desc
    var target: Desc
    var fileMap: seq<Meg2dReshape.Meg2dMap>
    /** The layout `fileMap` realises: the target of the last reshape that did not fail. */
    ghost var mapped: Desc

    ghost predicate Valid()
      reads this, fileMap
    {
      Positive(src) && Shards(files) && src.pp * src.tp * src.dp <= |files| &&
      Reshapable(src, mapped) && TpFactor(src, mapped) > 0 && Form3d(Grids(fileMap), src, mapped) &&
      forall m :: m in fileMap ==> m.pp == mapped.pp && m.tp == mapped.tp
    }

    /** The shard positions of a cell. */
    ghost function Indices(i: nat, j: nat, d: nat): seq<nat>
      requires Valid() && i < mapped.pp && j < mapped.tp && d < mapped.dp
      reads this, fileMap
    {
      fileMap[d].data[(i, j)]
    }

    /** Starts with the identity reshape. */
    constructor (files: seq<State>, src: Desc)
      requires Positive(src) && Shards(files) && src.pp * src.tp * src.dp <= |files|
      ensures Valid() && this.files == files && this.src == src && target == src && mapped == src
      ensures fresh(fileMap)
    {
      this.files, this.src, target, mapped := files, src, src, src;
      fileMap := [];
      new;
      SelfReshapable(src);
      var map3d := Reshape3d.Reshape(src, src);
      fileMap := map3d.value;
    }

    /** `reshape`. On failure the map stays, but the recorded target has already changed. */
    method Reshape(tgt: Desc) returns (ok: bool)
      requires Valid()
      modifies this
      ensures Valid() && target == tgt
      ensures ok <==> Reshapable(src, tgt)
      ensures ok ==> mapped == tgt && fresh(fileMap)
      ensures !ok ==> mapped == old(mapped) && fileMap == old(fileMap)
      ensures target == mapped <==> Reshapable(src, tgt)
    {
      target := tgt;
      var map3d := Reshape3d.Reshape(src, tgt);
      if map3d.None? { return false; }
      fileMap, mapped := map3d.value, tgt;
      ok := true;
    }

    /** `get_file_indices_for_rank`: the assertions on the indices, then the cell. */
    method GetFileIndicesForRank(i: nat, j: nat, d: nat) returns (r: Result<seq<nat>>)
      requires Valid()
      ensures r.Ok? <==> i < mapped.pp && j < mapped.tp && d < mapped.dp
      ensures r.Ok? ==> r.value == Indices(i, j, d)
    {
      if d >= |fileMap| { return Error; }
      var map2d := fileMap[d];
      assert map2d in fileMap && Grids(fileMap)[d] == map2d.data;
      var indices := map2d.GetData(Some(i), Some(j));
      if indices.None? { return Error; }
      SingleCell(map2d.data, i, j);
      r := Ok(indices.value);
    }

    /** A cell is not empty and names existing files. */
    lemma IndicesInFiles(i: nat, j: nat, d: nat)
      requires Valid() && i < mapped.pp && j < mapped.tp && d < mapped.dp
      ensures |Indices(i, j, d)| == ShareSize(src, mapped) > 0 && InFiles(Indices(i, j, d), files)
    {
      var b, s, u := TpFactor(src, mapped), CellSize(src, mapped), ShareSize(src, mapped);
      Contraction3(src, mapped);
      assert Grids(fileMap)[d] == fileMap[d].data;
      assert ShareForm(Indices(i, j, d), src, b, s, u, d, i, j);
      forall k | 0 <= k < u ensures Indices(i, j, d)[k] < |files| {
        PlaceToShard(Place3(d, i, j, k), src, mapped);
      }
    }

    /** `get_state_for_rank`: every tensor of the result is the concatenation of what the files of the cell
        contribute; the partition counts are those of the target and, when stripping, no padding is left. The key tree
        and every other value are those of the first file of the cell, without the ignored keys. */
    method GetStateForRank(i: nat, j: nat, d: nat, ignored: seq<Key>, strip: bool) returns (r: Result<State>)
      requires Valid()
      ensures r.Ok? <==> i < mapped.pp && j < mapped.tp && d < mapped.dp
      ensures r.Ok? ==>
        Reads(Some(r.value), files, Indices(i, j, d), ignored, strip)
      ensures r.Ok? ==> AllEntries(r.value, PARTITION_COUNT, target.dp)
      ensures r.Ok? && strip ==> AllEntries(r.value, GROUP_PADDINGS, 0)
      ensures r.Ok? ==>
        var first := Indices(i, j, d)[0];
        first < |files| && IsShard(files[first]) && KeepsFirst(r.value, files[first], ignored, strip)
    {
      var found := GetFileIndicesForRank(i, j, d);
      if found.Error? { return Error; }
      var indices := found.value;
      IndicesInFiles(i, j, d);
      var state := MergeFiles(files, indices, ignored, strip, target.dp);
      r := Ok(state);
    }
  }

  /** After a refused reshape the recorded target and the map disagree. Here two data-parallel ranks are mapped, but
      the state of the second one carries the partition count three. */
  method RefusedReshape(c: Checkpoint) returns (r: Result<State>)
    requires c.Valid() && c.src == c.mapped == Desc(1, 1, 2)
    modifies c
    ensures c.Valid() && c.mapped.dp == 2 && c.target.dp == 3
    ensures r.Ok? && Reads(Some(r.value), c.files, c.Indices(0, 0, 1), [], false) &&
      AllEntries(r.value, PARTITION_COUNT, 3)
  {
    var ok := c.Reshape(Desc(1, 1, 3));
    r := c.GetStateForRank(0, 0, 1, [], false);
  }
}
