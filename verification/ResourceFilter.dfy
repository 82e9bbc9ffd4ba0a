/** Choosing hosts and slots by an include or exclude string: deepspeed/launcher/runner.py.

    `host_info` is an ordered dictionary from host names to slot lists; here it is the list of its entries. */
module ResourceFilter {
  import opened Sequences
  import opened Text
  import opened Wrappers

  datatype Host = Host(name: string, slots: seq<int>)

  /** Why a filter string is rejected; every case is a ValueError. */
  datatype Problem =
    | BothGiven
    | TooManyColons(text: string)
    | NotANumber(text: string)
    | UnknownHost(name: string)
    | UnknownSlot(name: string, slot: int)
    | AlreadyRemoved(name: string, slot: int)

  datatype Outcome<+T> = Good(value: T) | Bad(problem: Problem)

  // ---------------------------------------------------------------------------------------------
  // Lists of slots
  // ---------------------------------------------------------------------------------------------

  ghost function Unique(s: seq<int>): (r: seq<int>)
    ensures NoDup(r) && forall x :: x in r <==> x in s
  {
    if s == [] then []
    else
      var n := |s| - 1;
      var r := Unique(s[..n]);
      assert s == s[..n] + [s[n]];
      if s[n] in r then r else r + [s[n]]
  }

  /** A list without duplicates is kept as it is. */
  lemma {:induction false} UniqueSame(s: seq<int>)
    requires NoDup(s)
    ensures Unique(s) == s
  {
    if s != [] {
      var n := |s| - 1;
      UniqueSame(s[..n]);
      assert s == s[..n] + [s[n]];
    }
  }

  /** Slots stay in the order of their first occurrences: an earlier one occurs before any occurrence of a later one. */
  lemma {:induction false} UniqueOrder(s: seq<int>, i: nat, j: nat) returns (p: nat)
    requires i < j < |Unique(s)|
    ensures p < |s| && s[p] == Unique(s)[i] && Unique(s)[j] !in s[..p + 1]
  {
    var n := |s| - 1;
    assert s == s[..n] + [s[n]];
    if j < |Unique(s[..n])| {
      p := UniqueOrder(s[..n], i, j);
    } else {
      assert Unique(s)[i] in s[..n];
      p :| 0 <= p < n && s[p] == Unique(s)[i];
      assert s[n] !in s[..n];
    }
  }

  /** `_stable_remove_duplicates`: the first occurrences, in order. */
  method StableRemoveDuplicates(data: seq<int>) returns (newList: seq<int>)
    ensures newList == Unique(data)
  {
    newList := [];
    for k := 0 to |data|
      invariant newList == Unique(data[..k])
    {
      assert data[..k + 1][..k] == data[..k];
      if data[k] !in newList { newList := newList + [data[k]]; }
    }
    assert data[..|data|] == data;
  }

  /** What stays of a list when some values are dropped. */
  ghost function Without(s: seq<int>, dropped: set<int>): seq<int> {
    if s == [] then []
    else if s[0] in dropped then Without(s[1..], dropped)
    else [s[0]] + Without(s[1..], dropped)
  }

  lemma {:induction false} WithoutMembers(s: seq<int>, dropped: set<int>)
    ensures forall x :: x in Without(s, dropped) <==> x in s && x !in dropped
  {
    if s != [] {
      WithoutMembers(s[1..], dropped);
      assert s == [s[0]] + s[1..];
    }
  }

  lemma {:induction false} WithoutNothing(s: seq<int>)
    ensures Without(s, {}) == s
  {
    if s != [] { WithoutNothing(s[1..]); }
  }

  lemma {:induction false} WithoutDistinct(s: seq<int>, dropped: set<int>)
    requires NoDup(s)
    ensures NoDup(Without(s, dropped))
  {
    if s != [] {
      WithoutDistinct(s[1..], dropped);
      WithoutMembers(s[1..], dropped);
    }
  }

  /** `list.remove`: the first occurrence goes. */
  function RemoveOne(s: seq<int>, x: int): seq<int>
    requires x in s
  {
    if s[0] == x then s[1..] else [s[0]] + RemoveOne(s[1..], x)
  }

  lemma {:induction false} WithoutOneMore(s: seq<int>, dropped: set<int>, x: int)
    requires NoDup(s) && x in s && x !in dropped
    ensures x in Without(s, dropped) && RemoveOne(Without(s, dropped), x) == Without(s, dropped + {x})
  {
    if s[0] == x {
      WithoutSame(s[1..], dropped, x);
    } else {
      WithoutOneMore(s[1..], dropped, x);
    }
  }

  lemma {:induction false} WithoutSame(s: seq<int>, dropped: set<int>, x: int)
    requires x !in s
    ensures Without(s, dropped + {x}) == Without(s, dropped)
  {
    if s != [] { WithoutSame(s[1..], dropped, x); }
  }

  /** Removing slots one by one; the removal of an absent slot fails. */
  ghost function RemoveAll(s: seq<int>, xs: seq<int>, name: string): (r: Outcome<seq<int>>)
    ensures r.Bad? ==> r.problem.AlreadyRemoved?
  {
    if xs == [] then Good(s)
    else
      var n := |xs| - 1;
      match RemoveAll(s, xs[..n], name)
      case Bad(problem) => Bad(problem)
      case Good(t) => if xs[n] in t then Good(RemoveOne(t, xs[n])) else Bad(AlreadyRemoved(name, xs[n]))
  }

  /** From a list without duplicates, removal works exactly for distinct values that are still there. */
  lemma {:induction false} RemoveAllMeaning(s: seq<int>, dropped: set<int>, xs: seq<int>, name: string)
    requires NoDup(s) && forall x :: x in xs ==> x in s
    ensures RemoveAll(Without(s, dropped), xs, name).Good? <==> NoDup(xs) && forall x :: x in xs ==> x !in dropped
    ensures RemoveAll(Without(s, dropped), xs, name).Good? ==>
      RemoveAll(Without(s, dropped), xs, name).value == Without(s, dropped + ToSet(xs))
  {
    if xs == [] {
      assert dropped + ToSet(xs) == dropped;
    } else {
      var n := |xs| - 1;
      assert xs == xs[..n] + [xs[n]];
      RemoveAllMeaning(s, dropped, xs[..n], name);
      var gone := dropped + ToSet(xs[..n]);
      assert dropped + ToSet(xs) == gone + {xs[n]};
      WithoutMembers(s, gone);
      if xs[n] !in gone { WithoutOneMore(s, gone, xs[n]); }
    }
  }

  // ---------------------------------------------------------------------------------------------
  // Hosts
  // ---------------------------------------------------------------------------------------------

  /** A dictionary has one entry for a name. */
  ghost predicate DistinctNames(info: seq<Host>) {
    forall a, b :: 0 <= a < b < |info| ==> info[a].name != info[b].name
  }

  function Find(info: seq<Host>, name: string): Option<seq<int>> {
    if info == [] then None
    else if info[|info| - 1].name == name then Some(info[|info| - 1].slots)
    else Find(info[..|info| - 1], name)
  }

  /** The slots listed for a host; an absent host has none. */
  ghost function SlotsAt(info: seq<Host>, name: string): seq<int> {
    match Find(info, name)
    case Some(slots) => slots
    case None => []
  }

  lemma {:induction false} FindAt(info: seq<Host>, k: nat)
    requires DistinctNames(info) && k < |info|
    ensures Find(info, info[k].name) == Some(info[k].slots)
  {
    if k < |info| - 1 { FindAt(info[..|info| - 1], k); }
  }

  lemma {:induction false} FindNamed(info: seq<Host>, name: string)
    ensures Find(info, name).Some? <==> exists k :: 0 <= k < |info| && info[k].name == name
    ensures Find(info, name).Some? ==> exists k :: 0 <= k < |info| && info[k] == Host(name, Find(info, name).value)
  {
    if info != [] {
      var n := |info| - 1;
      FindNamed(info[..n], name);
      assert info == info[..n] + [info[n]];
    }
  }

  function AsMap(info: seq<Host>): (m: map<string, seq<int>>)
    ensures forall name :: name in m <==> Find(info, name).Some?
    ensures forall name :: name in m ==> m[name] == Find(info, name).value
  {
    if info == [] then map[] else AsMap(info[..|info| - 1])[info[|info| - 1].name := info[|info| - 1].slots]
  }

  // ---------------------------------------------------------------------------------------------
  // Node specifications
  // ---------------------------------------------------------------------------------------------

  datatype NodeSpec = Whole(host: string) | Slots(host: string, slots: seq<int>)

  /** The first text that is no number. */
  ghost predicate FirstUnread(texts: seq<string>, k: nat) {
    k < |texts| && ParseInt(texts[k]).None? && forall j :: 0 <= j < k ==> ParseInt(texts[j]).Some?
  }

  function ParseSlots(texts: seq<string>): (r: Outcome<seq<int>>)
    ensures r.Good? <==> forall k :: 0 <= k < |texts| ==> ParseInt(texts[k]).Some?
    ensures r.Good? ==> |r.value| == |texts| && forall k :: 0 <= k < |texts| ==> r.value[k] == ParseInt(texts[k]).value
    ensures r.Bad? ==> exists k :: 0 <= k < |texts| && FirstUnread(texts, k) && r.problem == NotANumber(texts[k])
  {
    if texts == [] then Good([])
    else
      var n := |texts| - 1;
      match ParseSlots(texts[..n])
      case Bad(problem) =>
        assert forall k :: FirstUnread(texts[..n], k) ==> FirstUnread(texts, k);
        Bad(problem)
      case Good(slots) =>
        assert ParseInt(texts[n]).None? ==> FirstUnread(texts, n);
        match ParseInt(texts[n])
        case None => Bad(NotANumber(texts[n]))
        case Some(x) => Good(slots + [x])
  }

  function ParseNode(text: string): Outcome<NodeSpec> {
    if ':' !in text then Good(Whole(text))
    else
      var parts := Split(text, ':');
      if |parts| != 2 then Bad(TooManyColons(text))
      else
        match ParseSlots(Split(parts[1], ','))
        case Bad(problem) => Bad(problem)
        case Good(slots) => Good(Slots(parts[0], slots))
  }

  function FirstMissing(slots: seq<int>, known: seq<int>): (r: Option<int>)
    ensures r.None? <==> forall x :: x in slots ==> x in known
  {
    if slots == [] then None
    else
      assert forall x :: x in slots <==> x == slots[0] || x in slots[1..];
      if slots[0] !in known then Some(slots[0]) else FirstMissing(slots[1..], known)
  }

  /** The slot that is reported is the first one the host does not have. */
  lemma {:induction false} ReportsFirst(slots: seq<int>, known: seq<int>) returns (k: nat)
    requires FirstMissing(slots, known).Some?
    ensures k < |slots| && FirstMissing(slots, known).value == slots[k] && slots[k] !in known
    ensures forall j :: 0 <= j < k ==> slots[j] in known
  {
    k := 0;
    if slots[0] in known {
      k := ReportsFirst(slots[1..], known);
      k := k + 1;
    }
  }

  /** One node specification applied to the filtered hosts. */
  ghost function Apply(info: seq<Host>, including: bool, text: string, filtered: map<string, seq<int>>)
    : Outcome<map<string, seq<int>>>
  {
    match ParseNode(text)
    case Bad(problem) => Bad(problem)
    case Good(spec) =>
      match Find(info, spec.host)
      case None => Bad(UnknownHost(spec.host))
      case Some(known) =>
        match spec
        case Whole(host) => Good(filtered[host := if including then known else []])
        case Slots(host, slots) =>
          match FirstMissing(slots, known)
          case Some(x) => Bad(UnknownSlot(host, x))
          case None =>
            if including then Good(filtered[host := slots])
            else
              match RemoveAll(At(filtered, host), slots, host)
              case Bad(problem) => Bad(problem)
              case Good(left) => Good(filtered[host := left])
  }

  ghost function At(filtered: map<string, seq<int>>, name: string): seq<int> {
    if name in filtered then filtered[name] else []
  }

  ghost function ApplyAll(info: seq<Host>, including: bool, texts: seq<string>, start: map<string, seq<int>>)
    : Outcome<map<string, seq<int>>>
  {
    if texts == [] then Good(start)
    else
      match ApplyAll(info, including, texts[..|texts| - 1], start)
      case Bad(problem) => Bad(problem)
      case Good(filtered) => Apply(info, including, texts[|texts| - 1], filtered)
  }

  /** The hosts that keep slots, in `host_info` order, without duplicate slots. */
  ghost function Select(info: seq<Host>, filtered: map<string, seq<int>>): seq<Host> {
    if info == [] then []
    else
      var before, name := Select(info[..|info| - 1], filtered), info[|info| - 1].name;
      var slots := Unique(At(filtered, name));
      if slots == [] then before else before + [Host(name, slots)]
  }

  /** What `parse_resource_filter` computes. */
  ghost function Filtered(info: seq<Host>, includeStr: string, excludeStr: string): Outcome<seq<Host>> {
    if includeStr != "" && excludeStr != "" then Bad(BothGiven)
    else if includeStr == "" && excludeStr == "" then Good(info)
    else
      var applied := if includeStr != "" then ApplyAll(info, true, Split(includeStr, '@'), map[])
                     else ApplyAll(info, false, Split(excludeStr, '@'), AsMap(info));
      match applied
      case Bad(problem) => Bad(problem)
      case Good(filtered) => Good(Select(info, filtered))
  }

  // ---------------------------------------------------------------------------------------------
  // What the result means
  // ---------------------------------------------------------------------------------------------

  /** The result lists some of the known hosts, in their order, each with slots and without duplicates. */
  ghost predicate Tidy(result: seq<Host>, info: seq<Host>) {
    Suborder(result, info) && forall k :: 0 <= k < |result| ==> result[k].slots != [] && NoDup(result[k].slots)
  }

  /** The names of a are some of the names of b, in the same order. */
  ghost predicate Suborder(a: seq<Host>, b: seq<Host>) {
    if a == [] then true
    else if b == [] then false
    else if a[|a| - 1].name == b[|b| - 1].name then Suborder(a[..|a| - 1], b[..|b| - 1])
    else Suborder(a, b[..|b| - 1])
  }

  lemma {:induction false} SelectFrom(info: seq<Host>, filtered: map<string, seq<int>>, name: string)
    requires Find(info, name).None?
    ensures Find(Select(info, filtered), name).None?
  {
    if info != [] {
      var n := |info| - 1;
      SelectFrom(info[..n], filtered, name);
      var before := Select(info[..n], filtered);
      assert forall h: Host :: (before + [h])[..|before|] == before;
    }
  }

  lemma {:induction false} SelectAt(info: seq<Host>, filtered: map<string, seq<int>>, k: nat)
    requires DistinctNames(info) && k < |info|
    ensures SlotsAt(Select(info, filtered), info[k].name) == Unique(At(filtered, info[k].name))
  {
    hide Unique;
    var n := |info| - 1;
    var before := Select(info[..n], filtered);
    assert forall h: Host :: (before + [h])[..|before|] == before;
    if k < n {
      SelectAt(info[..n], filtered, k);
    } else {
      FindNamed(info[..n], info[n].name);
      SelectFrom(info[..n], filtered, info[n].name);
    }
  }

  lemma {:induction false} SelectTidy(info: seq<Host>, filtered: map<string, seq<int>>)
    requires DistinctNames(info)
    ensures Tidy(Select(info, filtered), info)
  {
    if info != [] {
      var n := |info| - 1;
      SelectTidy(info[..n], filtered);
      var before := Select(info[..n], filtered);
      assert forall h: Host :: (before + [h])[..|before|] == before;
      if before != [] {
        FindNamed(before, before[|before| - 1].name);
        FindNamed(info[..n], info[n].name);
        SelectFrom(info[..n], filtered, info[n].name);
        assert before[|before| - 1].name != info[n].name;
      }
    }
  }

  /** A node specification can be read, and names a known host and known slots of it. */
  ghost predicate GoodSpec(info: seq<Host>, text: string) {
    ParseNode(text).Good? &&
    var spec := ParseNode(text).value;
    Find(info, spec.host).Some? && (spec.Slots? ==> forall x :: x in spec.slots ==> x in SlotsAt(info, spec.host))
  }

  ghost predicate GoodSpecs(info: seq<Host>, texts: seq<string>) {
    forall k :: 0 <= k < |texts| ==> GoodSpec(info, texts[k])
  }

  /** The slots a node specification stands for: all of the host when it names none. */
  ghost function Named(info: seq<Host>, spec: NodeSpec): seq<int> {
    match spec
    case Whole(host) => SlotsAt(info, host)
    case Slots(_, slots) => slots
  }

  ghost predicate Names(text: string, name: string) {
    ParseNode(text).Good? && ParseNode(text).value.host == name
  }

  /** The slots the last specification of a host stands for. */
  ghost function LastNamed(info: seq<Host>, texts: seq<string>, name: string): seq<int> {
    if texts == [] then []
    else
      var n := |texts| - 1;
      if Names(texts[n], name) then Named(info, ParseNode(texts[n]).value) else LastNamed(info, texts[..n], name)
  }

  /** The slots all specifications of a host stand for. */
  ghost function Dropped(info: seq<Host>, texts: seq<string>, name: string): set<int> {
    if texts == [] then {}
    else
      var n := |texts| - 1;
      if Names(texts[n], name) then Dropped(info, texts[..n], name) + ToSet(Named(info, ParseNode(texts[n]).value))
      else Dropped(info, texts[..n], name)
  }

  lemma ApplyIncludes(info: seq<Host>, text: string, filtered: map<string, seq<int>>)
    ensures Apply(info, true, text, filtered).Good? <==> GoodSpec(info, text)
    ensures GoodSpec(info, text) ==>
      var spec := ParseNode(text).value;
      Apply(info, true, text, filtered).value == filtered[spec.host := Named(info, spec)]
  {
    hide ParseNode, FirstMissing, Find;
  }

  lemma {:induction false} IncludeAll(info: seq<Host>, texts: seq<string>)
    ensures ApplyAll(info, true, texts, map[]).Good? <==> GoodSpecs(info, texts)
    ensures GoodSpecs(info, texts) ==>
      forall name :: At(ApplyAll(info, true, texts, map[]).value, name) == LastNamed(info, texts, name)
  {
    hide GoodSpec, Apply, ParseNode, Named;
    if texts != [] {
      var n := |texts| - 1;
      IncludeAll(info, texts[..n]);
      assert texts == texts[..n] + [texts[n]];
      var before := ApplyAll(info, true, texts[..n], map[]);
      if before.Good? {
        ApplyIncludes(info, texts[n], before.value);
        if GoodSpec(info, texts[n]) { GoodSpecParses(info, texts[n]); }
      }
    }
  }

  lemma GoodSpecParses(info: seq<Host>, text: string)
    requires GoodSpec(info, text)
    ensures ParseNode(text).Good?
  {
  }

  /** An include string is accepted exactly when all its specifications are good; then every host has the slots
      of its last specification. */
  lemma IncludeMeaning(info: seq<Host>, text: string)
    requires DistinctNames(info) && text != ""
    ensures Filtered(info, text, "").Good? <==> GoodSpecs(info, Split(text, '@'))
    ensures Filtered(info, text, "").Good? ==>
      Tidy(Filtered(info, text, "").value, info) &&
      forall k :: 0 <= k < |info| ==>
        SlotsAt(Filtered(info, text, "").value, info[k].name) == Unique(LastNamed(info, Split(text, '@'), info[k].name))
  {
    hide Split, ApplyAll, Unique, Select, Tidy, LastNamed, GoodSpecs, SlotsAt;
    var texts := Split(text, '@');
    IncludeAll(info, texts);
    if GoodSpecs(info, texts) {
      var filtered := ApplyAll(info, true, texts, map[]).value;
      SelectTidy(info, filtered);
      forall k | 0 <= k < |info|
        ensures SlotsAt(Select(info, filtered), info[k].name) == Unique(LastNamed(info, texts, info[k].name))
      {
        SelectAt(info, filtered, k);
        assert At(filtered, info[k].name) == LastNamed(info, texts, info[k].name);
      }
    }
  }

  /** Every specification is good and, when it lists slots, they are distinct and not excluded before. */
  ghost predicate Removable(info: seq<Host>, texts: seq<string>) {
    texts == [] ||
    var n := |texts| - 1;
    Removable(info, texts[..n]) && GoodSpec(info, texts[n]) && FreshSlots(info, texts[..n], ParseNode(texts[n]).value)
  }

  ghost predicate FreshSlots(info: seq<Host>, before: seq<string>, spec: NodeSpec) {
    spec.Slots? ==> NoDup(spec.slots) && forall x :: x in spec.slots ==> x !in Dropped(info, before, spec.host)
  }

  ghost predicate DistinctSlots(info: seq<Host>) {
    forall k :: 0 <= k < |info| ==> NoDup(info[k].slots)
  }

  lemma SlotsDistinct(info: seq<Host>, name: string)
    requires DistinctSlots(info)
    ensures NoDup(SlotsAt(info, name))
  {
    FindNamed(info, name);
  }

  lemma {:induction false} WithoutAll(s: seq<int>, dropped: set<int>)
    requires forall k :: 0 <= k < |s| ==> s[k] in dropped
    ensures Without(s, dropped) == []
  {
    if s != [] { WithoutAll(s[1..], dropped); }
  }

  lemma ApplyExcludes(info: seq<Host>, text: string, filtered: map<string, seq<int>>, before: seq<string>)
    requires DistinctSlots(info)
    requires forall name :: At(filtered, name) == Without(SlotsAt(info, name), Dropped(info, before, name))
    ensures Apply(info, false, text, filtered).Good? <==>
      GoodSpec(info, text) && FreshSlots(info, before, ParseNode(text).value)
    ensures Apply(info, false, text, filtered).Good? ==>
      var spec := ParseNode(text).value;
      Apply(info, false, text, filtered).value ==
        filtered[spec.host := Without(SlotsAt(info, spec.host),
                                      Dropped(info, before, spec.host) + ToSet(Named(info, spec)))]
  {
    hide ParseNode, FirstMissing, Find, RemoveAll, Without, Dropped, NoDup;
    if GoodSpec(info, text) {
      var spec := ParseNode(text).value;
      var dropped := Dropped(info, before, spec.host);
      SlotsDistinct(info, spec.host);
      if spec.Slots? {
        assert At(filtered, spec.host) == Without(SlotsAt(info, spec.host), dropped);
        RemoveAllMeaning(SlotsAt(info, spec.host), dropped, spec.slots, spec.host);
      } else {
        WithoutAll(SlotsAt(info, spec.host), dropped + ToSet(Named(info, spec)));
      }
    }
  }

  lemma {:induction false} ExcludeAll(info: seq<Host>, texts: seq<string>)
    requires DistinctSlots(info)
    ensures ApplyAll(info, false, texts, AsMap(info)).Good? <==> Removable(info, texts)
    ensures Removable(info, texts) ==>
      forall name :: At(ApplyAll(info, false, texts, AsMap(info)).value, name) ==
                     Without(SlotsAt(info, name), Dropped(info, texts, name))
  {
    hide GoodSpec, Apply, ParseNode, Without, SlotsAt, FreshSlots, Named, AsMap;
    if texts == [] {
      forall name ensures At(AsMap(info), name) == Without(SlotsAt(info, name), {}) { StartsFull(info, name); }
    } else {
      var n := |texts| - 1;
      ExcludeAll(info, texts[..n]);
      var before := ApplyAll(info, false, texts[..n], AsMap(info));
      if before.Good? {
        ApplyExcludes(info, texts[n], before.value, texts[..n]);
        if GoodSpec(info, texts[n]) { GoodSpecParses(info, texts[n]); }
      }
    }
  }

  lemma StartsFull(info: seq<Host>, name: string)
    ensures At(AsMap(info), name) == Without(SlotsAt(info, name), {})
  {
    WithoutNothing(SlotsAt(info, name));
  }

  /** An exclude string is accepted exactly when its specifications can be taken away one after the other; then
      every host keeps, in order, the slots no specification stands for. */
  lemma ExcludeMeaning(info: seq<Host>, text: string)
    requires DistinctNames(info) && DistinctSlots(info) && text != ""
    ensures Filtered(info, "", text).Good? <==> Removable(info, Split(text, '@'))
    ensures Filtered(info, "", text).Good? ==>
      Tidy(Filtered(info, "", text).value, info) &&
      forall k :: 0 <= k < |info| ==>
        SlotsAt(Filtered(info, "", text).value, info[k].name) ==
        Without(info[k].slots, Dropped(info, Split(text, '@'), info[k].name))
  {
    hide Split, ApplyAll, Unique, Select, Tidy, Dropped, Removable, Without, AsMap;
    var texts := Split(text, '@');
    ExcludeAll(info, texts);
    if Removable(info, texts) {
      var filtered := ApplyAll(info, false, texts, AsMap(info)).value;
      SelectTidy(info, filtered);
      forall k | 0 <= k < |info|
        ensures SlotsAt(Select(info, filtered), info[k].name) ==
          Without(info[k].slots, Dropped(info, texts, info[k].name))
      {
        var name := info[k].name;
        SelectAt(info, filtered, k);
        FindAt(info, k);
        assert At(filtered, name) == Without(SlotsAt(info, name), Dropped(info, texts, name));
        WithoutDistinct(info[k].slots, Dropped(info, texts, name));
        UniqueSame(Without(info[k].slots, Dropped(info, texts, name)));
      }
    }
  }

  // ---------------------------------------------------------------------------------------------
  // Include and exclude
  // ---------------------------------------------------------------------------------------------

  /** Two lists share out the slots: none is in both, and together they are all of them. */
  ghost predicate ShareOut(slots: seq<int>, a: seq<int>, b: seq<int>) {
    multiset(a) + multiset(b) == multiset(slots) && forall x :: x in a ==> x !in b
  }

  lemma SharedOut(slots: seq<int>, a: seq<int>, dropped: set<int>)
    requires NoDup(slots) && NoDup(a) && (forall x :: x in a ==> x in dropped) &&
      forall x :: x in dropped ==> x in slots
    ensures ShareOut(slots, a, Without(slots, dropped)) <==> dropped <= ToSet(a)
  {
    var b := Without(slots, dropped);
    WithoutMembers(slots, dropped);
    WithoutDistinct(slots, dropped);
    forall x ensures (multiset(a) + multiset(b))[x] == (if x in a then 1 else 0) + (if x in b then 1 else 0) {
      CountOnce(a, x);
      CountOnce(b, x);
    }
    forall x ensures multiset(slots)[x] == if x in slots then 1 else 0 { CountOnce(slots, x); }
    if ShareOut(slots, a, b) {
      forall x | x in dropped ensures x in a { assert (multiset(a) + multiset(b))[x] == multiset(slots)[x]; }
    }
  }

  /** The last specification of a host covers the earlier ones. */
  ghost predicate LastCovers(info: seq<Host>, texts: seq<string>, name: string) {
    Dropped(info, texts, name) <= ToSet(LastNamed(info, texts, name))
  }

  lemma {:induction false} RemovableIsGood(info: seq<Host>, texts: seq<string>)
    requires Removable(info, texts)
    ensures GoodSpecs(info, texts)
  {
    hide GoodSpec, FreshSlots;
    if texts != [] { RemovableIsGood(info, texts[..|texts| - 1]); }
  }

  lemma {:induction false} DroppedBounds(info: seq<Host>, texts: seq<string>, name: string)
    requires GoodSpecs(info, texts) && DistinctSlots(info)
    ensures forall x :: x in LastNamed(info, texts, name) ==> x in Dropped(info, texts, name)
    ensures forall x :: x in Dropped(info, texts, name) ==> x in SlotsAt(info, name)
  {
    hide ParseNode, Find;
    if texts != [] {
      var n := |texts| - 1;
      DroppedBounds(info, texts[..n], name);
      assert GoodSpec(info, texts[n]);
    }
  }

  lemma {:induction false} LastNamedDistinct(info: seq<Host>, texts: seq<string>, name: string)
    requires Removable(info, texts) && DistinctSlots(info)
    ensures NoDup(LastNamed(info, texts, name))
  {
    hide ParseNode, Find, GoodSpec;
    if texts != [] {
      var n := |texts| - 1;
      LastNamedDistinct(info, texts[..n], name);
      SlotsDistinct(info, name);
    }
  }

  /** A string that is accepted as an exclude string is accepted as an include string. The two results share
      out the slots of every host exactly when the last specification of every host covers the earlier ones. */
  lemma IncludeExclude(info: seq<Host>, text: string)
    requires DistinctNames(info) && DistinctSlots(info) && text != "" && Filtered(info, "", text).Good?
    ensures Filtered(info, text, "").Good?
    ensures
      var kept, left := Filtered(info, text, "").value, Filtered(info, "", text).value;
      Tidy(kept, info) && Tidy(left, info) &&
      forall k :: 0 <= k < |info| ==>
        (ShareOut(info[k].slots, SlotsAt(kept, info[k].name), SlotsAt(left, info[k].name)) <==>
         LastCovers(info, Split(text, '@'), info[k].name))
  {
    hide Split, Filtered, LastNamed, Dropped, GoodSpecs, Removable, Tidy, Without, ShareOut;
    var texts := Split(text, '@');
    IncludeMeaning(info, text);
    ExcludeMeaning(info, text);
    RemovableIsGood(info, texts);
    forall k | 0 <= k < |info|
      ensures
        var kept, left := Filtered(info, text, "").value, Filtered(info, "", text).value;
        ShareOut(info[k].slots, SlotsAt(kept, info[k].name), SlotsAt(left, info[k].name)) <==>
          LastCovers(info, texts, info[k].name)
    {
      var name := info[k].name;
      FindAt(info, k);
      DroppedBounds(info, texts, name);
      LastNamedDistinct(info, texts, name);
      UniqueSame(LastNamed(info, texts, name));
      SharedOut(info[k].slots, LastNamed(info, texts, name), Dropped(info, texts, name));
    }
  }

  /** No host is named twice. */
  ghost predicate NamedOnce(texts: seq<string>) {
    forall i, j :: 0 <= i < j < |texts| && ParseNode(texts[i]).Good? && ParseNode(texts[j]).Good? ==>
      ParseNode(texts[i]).value.host != ParseNode(texts[j]).value.host
  }

  ghost predicate DistinctLists(texts: seq<string>) {
    forall k :: 0 <= k < |texts| && ParseNode(texts[k]).Good? && ParseNode(texts[k]).value.Slots? ==>
      NoDup(ParseNode(texts[k]).value.slots)
  }

  lemma {:induction false} NotNamed(info: seq<Host>, texts: seq<string>, name: string)
    requires forall k :: 0 <= k < |texts| ==> !Names(texts[k], name)
    ensures Dropped(info, texts, name) == {}
  {
    hide Names;
    if texts != [] { NotNamed(info, texts[..|texts| - 1], name); }
  }

  lemma {:induction false} NamedOnceCovers(info: seq<Host>, texts: seq<string>, name: string)
    requires NamedOnce(texts)
    ensures LastCovers(info, texts, name)
  {
    hide ParseNode;
    if texts != [] {
      var n := |texts| - 1;
      NamedOnceCovers(info, texts[..n], name);
      if Names(texts[n], name) {
        forall k | 0 <= k < n ensures !Names(texts[..n][k], name) { assert texts[..n][k] == texts[k]; }
        NotNamed(info, texts[..n], name);
      }
    }
  }

  lemma {:induction false} NamedOnceRemovable(info: seq<Host>, texts: seq<string>)
    requires NamedOnce(texts) && GoodSpecs(info, texts)
    ensures Removable(info, texts) <==> DistinctLists(texts)
  {
    hide ParseNode, GoodSpec, NoDup;
    if texts != [] {
      var n := |texts| - 1;
      NamedOnceRemovable(info, texts[..n]);
      assert texts == texts[..n] + [texts[n]];
      GoodSpecParses(info, texts[n]);
      var name := ParseNode(texts[n]).value.host;
      forall k | 0 <= k < n ensures !Names(texts[..n][k], name) { assert texts[..n][k] == texts[k]; }
      NotNamed(info, texts[..n], name);
    }
  }

  /** When good specifications name every host at most once, the string is accepted for exclusion exactly
      when no slot is listed twice, and then including and excluding it share out the slots of every host. */
  lemma Complementary(info: seq<Host>, text: string)
    requires DistinctNames(info) && DistinctSlots(info) && text != ""
    requires NamedOnce(Split(text, '@')) && GoodSpecs(info, Split(text, '@'))
    ensures Filtered(info, text, "").Good?
    ensures Filtered(info, "", text).Good? <==> DistinctLists(Split(text, '@'))
    ensures DistinctLists(Split(text, '@')) ==>
      forall k :: 0 <= k < |info| ==>
        ShareOut(info[k].slots, SlotsAt(Filtered(info, text, "").value, info[k].name),
                 SlotsAt(Filtered(info, "", text).value, info[k].name))
  {
    hide Split, Filtered, NamedOnce, GoodSpecs, DistinctLists, ShareOut, Tidy, LastCovers, LastNamed, Dropped;
    var texts := Split(text, '@');
    IncludeMeaning(info, text);
    ExcludeMeaning(info, text);
    NamedOnceRemovable(info, texts);
    if DistinctLists(texts) {
      IncludeExclude(info, text);
      forall k | 0 <= k < |info| ensures LastCovers(info, texts, info[k].name) {
        NamedOnceCovers(info, texts, info[k].name);
      }
    }
  }

  // ---------------------------------------------------------------------------------------------
  // The program
  // ---------------------------------------------------------------------------------------------

  /** The sanity checks on the slots of a node specification. */
  method CheckSlots(name: string, slots: seq<int>, known: seq<int>) returns (r: Outcome<()>)
    ensures r == match FirstMissing(slots, known)
                 case None => Good(())
                 case Some(x) => Bad(UnknownSlot(name, x))
  {
    assert slots[0..] == slots;
    for k := 0 to |slots|
      invariant FirstMissing(slots, known) == FirstMissing(slots[k..], known)
    {
      if slots[k] !in known { return Bad(UnknownSlot(name, slots[k])); }
      assert slots[k..][1..] == slots[k + 1..];
    }
    r := Good(());
  }

  /** The loop that removes the excluded slots from a host. */
  method RemoveSlots(name: string, current: seq<int>, slots: seq<int>) returns (r: Outcome<seq<int>>)
    ensures r == RemoveAll(current, slots, name)
  {
    var left := current;
    assert slots[..0] == [];
    for k := 0 to |slots|
      invariant RemoveAll(current, slots[..k], name) == Good(left)
    {
      assert slots[..k + 1][..k] == slots[..k];
      if slots[k] !in left {
        RemoveAllFails(current, slots, k + 1, name);
        return Bad(AlreadyRemoved(name, slots[k]));
      }
      left := RemoveOne(left, slots[k]);
    }
    assert slots[..|slots|] == slots;
    r := Good(left);
  }

  lemma {:induction false} RemoveAllFails(s: seq<int>, xs: seq<int>, k: nat, name: string)
    requires k <= |xs| && RemoveAll(s, xs[..k], name).Bad?
    ensures RemoveAll(s, xs, name) == RemoveAll(s, xs[..k], name)
  {
    if k < |xs| {
      assert xs[..|xs| - 1][..k] == xs[..k];
      RemoveAllFails(s, xs[..|xs| - 1], k, name);
    } else {
      assert xs[..k] == xs;
    }
  }

  /** One turn of the loop over the node specifications. */
  method ApplyNode(info: seq<Host>, including: bool, text: string, filtered: map<string, seq<int>>)
    returns (r: Outcome<map<string, seq<int>>>)
    requires !including ==> forall name :: Find(info, name).Some? ==> name in filtered
    ensures r == Apply(info, including, text, filtered)
  {
    hide FirstMissing, RemoveAll, Find, ParseSlots, Split;
    if ':' in text {
      var parts := Split(text, ':');
      if |parts| != 2 { return Bad(TooManyColons(text)); }
      var hostname := parts[0];
      var parsed := ParseSlots(Split(parts[1], ','));
      if parsed.Bad? { return Bad(parsed.problem); }
      var slots := parsed.value;
      var known := Find(info, hostname);
      if known.None? { return Bad(UnknownHost(hostname)); }
      var checked := CheckSlots(hostname, slots, known.value);
      if checked.Bad? { return Bad(checked.problem); }
      if including {
        return Good(filtered[hostname := slots]);
      } else {
        var left := RemoveSlots(hostname, filtered[hostname], slots);
        if left.Bad? { return Bad(left.problem); }
        return Good(filtered[hostname := left.value]);
      }
    } else {
      var known := Find(info, text);
      if known.None? { return Bad(UnknownHost(text)); }
      return Good(filtered[text := if including then known.value else []]);
    }
  }

  lemma {:induction false} ApplyAllFails(info: seq<Host>, including: bool, texts: seq<string>, k: nat,
                                         start: map<string, seq<int>>)
    requires k <= |texts| && ApplyAll(info, including, texts[..k], start).Bad?
    ensures ApplyAll(info, including, texts, start) == ApplyAll(info, including, texts[..k], start)
  {
    if k < |texts| {
      assert texts[..|texts| - 1][..k] == texts[..k];
      ApplyAllFails(info, including, texts[..|texts| - 1], k, start);
    } else {
      assert texts[..k] == texts;
    }
  }

  lemma ApplyKeeps(info: seq<Host>, including: bool, text: string, filtered: map<string, seq<int>>)
    ensures Apply(info, including, text, filtered).Good? ==>
      filtered.Keys <= Apply(info, including, text, filtered).value.Keys
  {
    hide FirstMissing, RemoveAll, Find, ParseNode;
  }

  /** The loop over the node specifications. */
  method ApplyNodes(info: seq<Host>, including: bool, texts: seq<string>, start: map<string, seq<int>>)
    returns (r: Outcome<map<string, seq<int>>>)
    requires !including ==> forall name :: Find(info, name).Some? ==> name in start
    ensures r == ApplyAll(info, including, texts, start)
  {
    hide Apply, Find;
    var filtered := start;
    assert texts[..0] == [];
    for k := 0 to |texts|
      invariant ApplyAll(info, including, texts[..k], start) == Good(filtered)
      invariant start.Keys <= filtered.Keys
    {
      assert texts[..k + 1][..k] == texts[..k];
      r := ApplyNode(info, including, texts[k], filtered);
      if r.Bad? {
        ApplyAllFails(info, including, texts, k + 1, start);
        return;
      }
      ApplyKeeps(info, including, texts[k], filtered);
      filtered := r.value;
    }
    assert texts[..|texts|] == texts;
    r := Good(filtered);
  }

  ghost predicate CleanedUp(filtered: map<string, seq<int>>, cleaned: map<string, seq<int>>) {
    forall name :: (name in cleaned <==> Unique(At(filtered, name)) != []) &&
                   (name in cleaned ==> cleaned[name] == Unique(At(filtered, name)))
  }

  /** The post-processing: duplicates go in a first loop, empty hosts in a second one. */
  method CleanUp(filtered: map<string, seq<int>>) returns (cleaned: map<string, seq<int>>)
    ensures CleanedUp(filtered, cleaned)
  {
    hide Unique;
    cleaned := filtered;
    var todo, empty := filtered.Keys, [];
    while todo != {}
      invariant todo <= filtered.Keys && cleaned.Keys == filtered.Keys
      invariant forall name :: name in todo ==> cleaned[name] == filtered[name]
      invariant forall name :: name in filtered && name !in todo ==> cleaned[name] == Unique(filtered[name])
      invariant forall name :: name in empty <==> name in filtered && name !in todo && cleaned[name] == []
      decreases todo
    {
      var name :| name in todo;
      var slots := StableRemoveDuplicates(cleaned[name]);
      cleaned := cleaned[name := slots];
      if |slots| == 0 { empty := empty + [name]; }
      todo := todo - {name};
    }
    ghost var all := cleaned;
    for k := 0 to |empty|
      invariant forall name :: name in cleaned <==> name in all && name !in empty[..k]
      invariant forall name :: name in cleaned ==> cleaned[name] == all[name]
    {
      cleaned := cleaned - {empty[k]};
      assert empty[..k + 1] == empty[..k] + [empty[k]];
    }
    assert empty[..|empty|] == empty;
    UniqueOfNone();
  }

  lemma UniqueOfNone()
    ensures Unique([]) == []
  {
  }

  /** No specification is blamed for both strings being given. */
  lemma {:induction false} NeverBothGiven(info: seq<Host>, including: bool, texts: seq<string>,
                                          start: map<string, seq<int>>)
    ensures ApplyAll(info, including, texts, start) != Bad(BothGiven)
  {
    hide Find, At;
    if texts != [] { NeverBothGiven(info, including, texts[..|texts| - 1], start); }
  }

  /** `parse_resource_filter`. */
  method ParseResourceFilter(info: seq<Host>, includeStr: string, excludeStr: string) returns (r: Outcome<seq<Host>>)
    ensures r == Filtered(info, includeStr, excludeStr)
    ensures includeStr == "" && excludeStr == "" ==> r == Good(info)
    ensures r == Bad(BothGiven) <==> includeStr != "" && excludeStr != ""
  {
    hide ApplyAll, Split, Find, Unique, AsMap;
    if includeStr != "" && excludeStr != "" { return Bad(BothGiven); }
    if includeStr == "" && excludeStr == "" { return Good(info); }
    var start: map<string, seq<int>>, text := map[], includeStr;
    if excludeStr != "" { start, text := AsMap(info), excludeStr; }
    var applied := ApplyNodes(info, includeStr != "", Split(text, '@'), start);
    if applied.Bad? {
      NeverBothGiven(info, includeStr != "", Split(text, '@'), start);
      return Bad(applied.problem);
    }
    var cleaned := CleanUp(applied.value);
    var ordered := [];
    assert info[..0] == [];
    for k := 0 to |info|
      invariant ordered == Select(info[..k], applied.value)
    {
      assert info[..k + 1][..k] == info[..k];
      if info[k].name in cleaned { ordered := ordered + [Host(info[k].name, cleaned[info[k].name])]; }
    }
    assert info[..|info|] == info;
    r := Good(ordered);
  }

  /** A hostfile entry: a host and its number of slots, which may be negative. */
  datatype Resource = Resource(name: string, count: int)

  /** Every host with the slots below its count. */
  function ActiveResources(pool: seq<Resource>): (info: seq<Host>)
    ensures |info| == |pool|
  {
    seq(|pool|, k requires 0 <= k < |pool| => Host(pool[k].name, Range(if pool[k].count < 0 then 0 else pool[k].count)))
  }

  /** Host by host, the slots are the numbers from 0 up to its count, in order; there are none for a negative count. */
  lemma ActiveSlots(pool: seq<Resource>, k: nat)
    requires k < |pool|
    ensures |ActiveResources(pool)| == |pool|
    ensures var host := ActiveResources(pool)[k];
      host.name == pool[k].name && (forall x :: x in host.slots <==> 0 <= x < pool[k].count) &&
      forall i, j :: 0 <= i < j < |host.slots| ==> host.slots[i] < host.slots[j]
  {
    var slots := ActiveResources(pool)[k].slots;
    forall x | 0 <= x < pool[k].count ensures x in slots { assert slots[x] == x; }
  }

  /** `parse_inclusion_exclusion`: every host starts with the slots below its count. */
  method ParseInclusionExclusion(pool: seq<Resource>, inclusion: string, exclusion: string)
    returns (r: Outcome<seq<Host>>)
    ensures r == Filtered(ActiveResources(pool), inclusion, exclusion)
  {
    hide Filtered;
    var active: seq<Host> := [];
    for k := 0 to |pool|
      invariant active == ActiveResources(pool[..k])
    {
      active := active + [Host(pool[k].name, Range(if pool[k].count < 0 then 0 else pool[k].count))];
    }
    assert pool[..|pool|] == pool;
    r := ParseResourceFilter(active, inclusion, exclusion);
  }
}
