/** The experiment scheduler: deepspeed/autotuning/scheduler.py. */
module Scheduler {
  import opened Sequences
  import opened Sorting
  import opened Wrappers

  /** An experiment: its number and the resources it asks for. */
  datatype Exp = Exp(id: nat, numGpus: nat, numNodes: nat)

  // ---------------------------------------------------------------------------------------------
  // Nodes and reservations
  // ---------------------------------------------------------------------------------------------

  class Node {
    const host: string
    const maxSlots: nat
    var idle: seq<nat>

    constructor (host: string, maxSlots: nat)
      ensures this.host == host && this.maxSlots == maxSlots && idle == Range(maxSlots)
    {
      this.host, this.maxSlots, idle := host, maxSlots, Range(maxSlots);
    }

    /** Takes the first slots off the idle list when there are enough. */
    method ReserveSlots(request: nat) returns (slots: Option<seq<nat>>)
      modifies this
      ensures |old(idle)| >= request ==> slots == Some(old(idle)[..request]) && idle == old(idle)[request..]
      ensures |old(idle)| < request ==> slots == None && idle == old(idle)
    {
      if |idle| < request { return None; }
      var taken: seq<nat> := [];
      for k := 0 to request
        invariant taken == old(idle)[..k] && idle == old(idle)[k..]
      {
        taken := taken + [idle[0]];
        idle := idle[1..];
      }
      slots := Some(taken);
    }

    method RestoreSlots(slots: seq<nat>)
      modifies this
      ensures idle == old(idle) + slots
    {
      idle := idle + slots;
    }
  }

  class Reservation {
    const node: Node
    var slots: seq<nat>

    constructor (node: Node, slots: seq<nat>)
      ensures this.node == node && this.slots == slots
    {
      this.node, this.slots := node, slots;
    }

    method RestoreSlots()
      modifies node
      ensures node.idle == old(node.idle) + slots
    {
      node.RestoreSlots(slots);
    }
  }

  // ---------------------------------------------------------------------------------------------
  // Who holds which slot
  // ---------------------------------------------------------------------------------------------

  /** What a reservation says: these slots of this node. */
  datatype Claim = Claim(node: Node, slots: seq<nat>)

  ghost function ClaimsOf(rs: seq<Reservation>): (claims: seq<Claim>)
    reads rs
    ensures |claims| == |rs| && forall k :: 0 <= k < |rs| ==> claims[k] == Claim(rs[k].node, rs[k].slots)
  {
    seq(|rs|, k requires 0 <= k < |rs| reads rs => Claim(rs[k].node, rs[k].slots))
  }

  /** The slots of a node held by a list of claims. */
  ghost function Held(claims: seq<Claim>, node: Node): multiset<nat> {
    if claims == [] then multiset{}
    else
      Held(claims[..|claims| - 1], node) +
      if claims[|claims| - 1].node == node then multiset(claims[|claims| - 1].slots) else multiset{}
  }

  lemma HeldPush(a: seq<Claim>, c: Claim, node: Node)
    ensures Held(a + [c], node) == Held(a, node) + if c.node == node then multiset(c.slots) else multiset{}
  {
    assert (a + [c])[..|a|] == a;
  }

  lemma {:induction false} HeldConcat(a: seq<Claim>, b: seq<Claim>, node: Node)
    ensures Held(a + b, node) == Held(a, node) + Held(b, node)
  {
    if b == [] {
      assert a + b == a;
    } else {
      var init, last := b[..|b| - 1], b[|b| - 1];
      assert a + b == (a + init) + [last] && b == init + [last];
      HeldConcat(a, init, node);
      HeldTwice(a, init, last, node);
    }
  }

  lemma HeldTwice(a: seq<Claim>, init: seq<Claim>, last: Claim, node: Node)
    requires Held(a + init, node) == Held(a, node) + Held(init, node)
    ensures Held((a + init) + [last], node) == Held(a, node) + Held(init + [last], node)
  {
    hide Held;
    HeldPush(a + init, last, node);
    HeldPush(init, last, node);
  }

  lemma HeldOne(c: Claim, node: Node)
    ensures Held([c], node) == if c.node == node then multiset(c.slots) else multiset{}
  {
    assert [c][..0] == [];
  }

  ghost function Idles(nodes: seq<Node>): (idles: seq<seq<nat>>)
    reads nodes
    ensures |idles| == |nodes| && forall p :: 0 <= p < |nodes| ==> idles[p] == nodes[p].idle
  {
    seq(|nodes|, p requires 0 <= p < |nodes| reads nodes => nodes[p].idle)
  }

  /** For every node, its idle slots and the slots claimed from it are together what they were. */
  ghost predicate Balanced(nodes: seq<Node>, idles: seq<seq<nat>>, claims: seq<Claim>, before: seq<seq<nat>>) {
    |idles| == |nodes| == |before| &&
    forall p :: 0 <= p < |nodes| ==> multiset(idles[p]) + Held(claims, nodes[p]) == multiset(before[p])
  }

  // ---------------------------------------------------------------------------------------------
  // resource_request
  // ---------------------------------------------------------------------------------------------

  /** How many nodes have at least g idle slots. */
  ghost function Able(idles: seq<seq<nat>>, g: nat): (n: nat)
    ensures n <= |idles|
  {
    if idles == [] then 0 else Able(idles[..|idles| - 1], g) + if |idles[|idles| - 1]| >= g then 1 else 0
  }

  lemma AbleStep(idles: seq<seq<nat>>, i: nat, g: nat)
    requires i < |idles|
    ensures Able(idles[..i + 1], g) == Able(idles[..i], g) + if |idles[i]| >= g then 1 else 0
  {
    assert idles[..i + 1][..i] == idles[..i];
  }

  lemma HeldNone(nodes: seq<Node>)
    ensures forall p :: 0 <= p < |nodes| ==> Held([], nodes[p]) == multiset{}
  {
  }

  /** With more idle slots on every node more nodes can serve. */
  lemma {:induction false} AbleGrows(a: seq<seq<nat>>, b: seq<seq<nat>>, g: nat)
    requires |a| == |b| && forall p :: 0 <= p < |a| ==> |a[p]| <= |b[p]|
    ensures Able(a, g) <= Able(b, g)
  {
    if a != [] { AbleGrows(a[..|a| - 1], b[..|b| - 1], g); }
  }

  lemma {:induction false} AllAble(idles: seq<seq<nat>>, g: nat)
    requires forall p :: 0 <= p < |idles| ==> |idles[p]| >= g
    ensures Able(idles, g) == |idles|
  {
    if idles != [] { AllAble(idles[..|idles| - 1], g); }
  }

  lemma {:induction false} AblePrefix(idles: seq<seq<nat>>, g: nat, i: nat)
    requires i <= |idles|
    ensures Able(idles[..i], g) <= Able(idles, g)
  {
    if i < |idles| {
      AblePrefix(idles[..|idles| - 1], g, i);
      assert idles[..|idles| - 1][..i] == idles[..i];
    } else {
      assert idles[..i] == idles;
    }
  }

  /** A request can be satisfied: it asks for nothing, or for GPUs on nodes that have them. */
  ghost predicate Satisfiable(idles: seq<seq<nat>>, exp: Exp) {
    exp.numNodes == 0 || (exp.numGpus > 0 && Able(idles, exp.numGpus) >= exp.numNodes)
  }

  /** The reservations of one job: as many as nodes asked for, each of the size asked for, on different
      nodes of the manager. */
  ghost predicate Grants(claims: seq<Claim>, nodes: seq<Node>, numGpus: nat) {
    (forall k :: 0 <= k < |claims| ==> claims[k].node in nodes && |claims[k].slots| == numGpus > 0) &&
    forall a, b :: 0 <= a < b < |claims| ==> claims[a].node != claims[b].node
  }

  lemma ClaimGrows(nodes: seq<Node>, idles: seq<seq<nat>>, claims: seq<Claim>, before: seq<seq<nat>>, i: nat, g: nat,
                   after: seq<seq<nat>>, c: Claim)
    requires NoDup(nodes) && Balanced(nodes, idles, claims, before) && i < |nodes| && g <= |idles[i]|
    requires c == Claim(nodes[i], idles[i][..g]) && after == idles[i := idles[i][g..]]
    ensures Balanced(nodes, after, claims + [c], before)
  {
    forall p | 0 <= p < |nodes| ensures multiset(after[p]) + Held(claims + [c], nodes[p]) == multiset(before[p]) {
      HeldConcat(claims, [c], nodes[p]);
      HeldOne(c, nodes[p]);
      if p == i { assert idles[i] == idles[i][..g] + idles[i][g..]; }
    }
  }

  /** Gives one reservation back; only its node changes. */
  method GiveBack(nodes: seq<Node>, r: Reservation) returns (ghost p: nat)
    requires NoDup(nodes) && r.node in nodes
    modifies nodes
    ensures p < |nodes| && nodes[p] == r.node
    ensures Idles(nodes) == old(Idles(nodes))[p := old(Idles(nodes))[p] + r.slots]
  {
    p :| 0 <= p < |nodes| && nodes[p] == r.node;
    r.RestoreSlots();
    forall q | 0 <= q < |nodes| && q != p ensures nodes[q].idle == old(nodes[q].idle) { assert nodes[q] != nodes[p]; }
  }

  /** Asks one node for slots; only that node changes. */
  method TakeFrom(nodes: seq<Node>, i: nat, g: nat) returns (slots: Option<seq<nat>>)
    requires NoDup(nodes) && i < |nodes|
    modifies nodes
    ensures var idles := old(Idles(nodes));
      if |idles[i]| >= g then slots == Some(idles[i][..g]) && Idles(nodes) == idles[i := idles[i][g..]]
      else slots == None && Idles(nodes) == idles
  {
    slots := nodes[i].ReserveSlots(g);
    forall q | 0 <= q < |nodes| && q != i ensures nodes[q].idle == old(nodes[q].idle) { assert nodes[q] != nodes[i]; }
  }

  /** Gives the slots of reservations back to their nodes. */
  method RestoreAll(nodes: seq<Node>, rs: seq<Reservation>, ghost before: seq<seq<nat>>, ghost others: seq<Claim>)
    requires NoDup(nodes) && Balanced(nodes, Idles(nodes), others + ClaimsOf(rs), before)
    requires forall k :: 0 <= k < |rs| ==> rs[k].node in nodes
    modifies nodes
    ensures Balanced(nodes, Idles(nodes), others, before)
  {
    hide Held;
    ghost var claims := ClaimsOf(rs);
    assert claims[0..] == claims;
    for k := 0 to |rs|
      invariant Balanced(nodes, Idles(nodes), others + claims[k..], before)
      invariant claims == ClaimsOf(rs)
    {
      ghost var idles := Idles(nodes);
      ghost var p := GiveBack(nodes, rs[k]);
      ClaimReturned(nodes, idles, others, claims, k, before, p);
    }
    assert others + claims[|rs|..] == others;
  }

  lemma ClaimReturned(nodes: seq<Node>, idles: seq<seq<nat>>, others: seq<Claim>, claims: seq<Claim>, k: nat,
                      before: seq<seq<nat>>, p: nat)
    requires NoDup(nodes) && k < |claims| && Balanced(nodes, idles, others + claims[k..], before)
    requires p < |nodes| && nodes[p] == claims[k].node
    ensures Balanced(nodes, idles[p := idles[p] + claims[k].slots], others + claims[k + 1..], before)
  {
    assert claims[k..] == [claims[k]] + claims[k + 1..];
    forall q | 0 <= q < |nodes|
      ensures multiset(idles[p := idles[p] + claims[k].slots][q]) + Held(others + claims[k + 1..], nodes[q]) ==
        multiset(before[q])
    {
      HeldConcat(others, claims[k..], nodes[q]);
      HeldConcat([claims[k]], claims[k + 1..], nodes[q]);
      HeldConcat(others, claims[k + 1..], nodes[q]);
      HeldOne(claims[k], nodes[q]);
    }
  }

  lemma GrantsGrow(claims: seq<Claim>, nodes: seq<Node>, i: nat, g: nat, c: Claim)
    requires i < |nodes| && NoDup(nodes) && Grants(claims, nodes[..i], g)
    requires c.node == nodes[i] && |c.slots| == g > 0
    ensures Grants(claims + [c], nodes[..i + 1], g)
  {
    assert nodes[..i + 1] == nodes[..i] + [nodes[i]];
    assert nodes[i] !in nodes[..i];
  }

  /** How many of the first i nodes can serve a request. */
  ghost function Servable(before: seq<seq<nat>>, i: nat, g: nat): nat
    requires i <= |before|
  {
    if g > 0 then Able(before[..i], g) else 0
  }

  /** Where the node loop of a request stands after i nodes. */
  ghost predicate Reserving(nodes: seq<Node>, i: nat, exp: Exp, claims: seq<Claim>, idles: seq<seq<nat>>,
                            before: seq<seq<nat>>) {
    i <= |nodes| && Balanced(nodes, idles, claims, before) && Grants(claims, nodes[..i], exp.numGpus) &&
    (forall p :: i <= p < |nodes| ==> idles[p] == before[p]) &&
    |claims| <= exp.numNodes && |claims| <= Servable(before, i, exp.numGpus) &&
    (|claims| < exp.numNodes ==> |claims| == Servable(before, i, exp.numGpus))
  }

  lemma ReservingStarts(nodes: seq<Node>, exp: Exp, before: seq<seq<nat>>)
    requires |before| == |nodes|
    ensures Reserving(nodes, 0, exp, [], before, before) && NoDup<Reservation>([])
  {
    HeldNone(nodes);
  }

  lemma ReservingTakes(nodes: seq<Node>, i: nat, exp: Exp, claims: seq<Claim>, idles: seq<seq<nat>>,
                       before: seq<seq<nat>>)
    requires NoDup(nodes) && Reserving(nodes, i, exp, claims, idles, before)
    requires i < |nodes| && |claims| < exp.numNodes && 0 < exp.numGpus <= |idles[i]|
    ensures Reserving(nodes, i + 1, exp, claims + [Claim(nodes[i], idles[i][..exp.numGpus])],
                      idles[i := idles[i][exp.numGpus..]], before)
  {
    hide Held, Able;
    var c := Claim(nodes[i], idles[i][..exp.numGpus]);
    AbleStep(before, i, exp.numGpus);
    ClaimGrows(nodes, idles, claims, before, i, exp.numGpus, idles[i := idles[i][exp.numGpus..]], c);
    GrantsGrow(claims, nodes, i, exp.numGpus, c);
  }

  lemma ReservingSkips(nodes: seq<Node>, i: nat, exp: Exp, claims: seq<Claim>, idles: seq<seq<nat>>,
                       before: seq<seq<nat>>)
    requires Reserving(nodes, i, exp, claims, idles, before) && i < |nodes|
    requires exp.numGpus == 0 || |idles[i]| < exp.numGpus
    ensures Reserving(nodes, i + 1, exp, claims, idles, before)
  {
    hide Held, Able;
    AbleStep(before, i, exp.numGpus);
    assert nodes[..i + 1] == nodes[..i] + [nodes[i]];
  }

  lemma ReservingEnds(nodes: seq<Node>, i: nat, exp: Exp, claims: seq<Claim>, idles: seq<seq<nat>>,
                      before: seq<seq<nat>>)
    requires Reserving(nodes, i, exp, claims, idles, before) && (i == |nodes| || |claims| == exp.numNodes)
    ensures |claims| == exp.numNodes <==> Satisfiable(before, exp)
    ensures Grants(claims, nodes, exp.numGpus) || claims == []
    ensures Balanced(nodes, idles, claims, before) && forall k :: 0 <= k < |claims| ==> claims[k].node in nodes
  {
    hide Held;
    assert before[..|nodes|] == before && nodes[..|nodes|] == nodes;
    AblePrefix(before, exp.numGpus, i);
  }

  /** One turn of the node loop. An empty slot list counts as a refusal. */
  method TryNode(nodes: seq<Node>, i: nat, exp: Exp, rs: seq<Reservation>, ghost before: seq<seq<nat>>)
    returns (more: seq<Reservation>)
    requires NoDup(nodes) && i < |nodes| && |rs| < exp.numNodes && NoDup(rs)
    requires Reserving(nodes, i, exp, ClaimsOf(rs), Idles(nodes), before)
    modifies nodes
    ensures Reserving(nodes, i + 1, exp, ClaimsOf(more), Idles(nodes), before)
    ensures |more| <= exp.numNodes && NoDup(more) && forall r :: r in more ==> r in rs || fresh(r)
  {
    hide Held, Able, Reserving;
    ghost var idles, claims := Idles(nodes), ClaimsOf(rs);
    assert |idles| == |nodes|;
    more := rs;
    var slots := TakeFrom(nodes, i, exp.numGpus);
    if slots.Some? && slots.value != [] {
      var reservation := new Reservation(nodes[i], slots.value);
      more := rs + [reservation];
      assert ClaimsOf(more) == claims + [Claim(nodes[i], slots.value)];
      ReservingTakes(nodes, i, exp, claims, idles, before);
    } else {
      assert Idles(nodes) == idles;
      ReservingSkips(nodes, i, exp, claims, idles, before);
    }
  }

  /** The loop of `resource_request`, up to the first node after which there are enough reservations. */
  method ReserveNodes(nodes: seq<Node>, exp: Exp) returns (rs: seq<Reservation>, ghost i: nat)
    requires NoDup(nodes)
    modifies nodes
    ensures i <= |nodes| && |rs| <= exp.numNodes && (|rs| < exp.numNodes ==> i == |nodes|)
    ensures NoDup(rs) && fresh(rs)
    ensures Reserving(nodes, i, exp, ClaimsOf(rs), Idles(nodes), old(Idles(nodes)))
  {
    hide Held, Able, Satisfiable, Reserving, NoDup;
    ghost var before := Idles(nodes);
    rs := [];
    ReservingStarts(nodes, exp, before);
    var k := 0;
    while k < |nodes|
      invariant 0 <= k <= |nodes| && |rs| <= exp.numNodes
      invariant NoDup(rs) && forall r :: r in rs ==> fresh(r)
      invariant Reserving(nodes, k, exp, ClaimsOf(rs), Idles(nodes), before)
    {
      if |rs| == exp.numNodes { break; }
      rs := TryNode(nodes, k, exp, rs, before);
      k := k + 1;
    }
    i := k;
    assert forall p :: 0 <= p < |rs| ==> rs[p] in rs;
  }

  /** `resource_request`: succeeds exactly when the request is satisfiable; a failed request gives back what
      it had taken. */
  method ResourceRequest(nodes: seq<Node>, exp: Exp) returns (r: Option<seq<Reservation>>)
    requires NoDup(nodes)
    modifies nodes
    ensures r.Some? <==> Satisfiable(old(Idles(nodes)), exp)
    ensures r.None? ==> Balanced(nodes, Idles(nodes), [], old(Idles(nodes)))
    ensures r.Some? ==>
      |r.value| == exp.numNodes && fresh(r.value) && NoDup(r.value) &&
      (r.value == [] || Grants(ClaimsOf(r.value), nodes, exp.numGpus)) &&
      Balanced(nodes, Idles(nodes), ClaimsOf(r.value), old(Idles(nodes)))
  {
    hide Held, Able, Satisfiable, Reserving, Balanced, Grants, NoDup;
    ghost var before := Idles(nodes);
    var rs;
    ghost var i;
    rs, i := ReserveNodes(nodes, exp);
    ReservingEnds(nodes, i, exp, ClaimsOf(rs), Idles(nodes), before);
    if |rs| == exp.numNodes {
      r := Some(rs);
    } else {
      assert [] + ClaimsOf(rs) == ClaimsOf(rs);
      RestoreAll(nodes, rs, before, []);
      r := None;
    }
  }

  // ---------------------------------------------------------------------------------------------
  // Jobs
  // ---------------------------------------------------------------------------------------------

  /** A running experiment, and how many more checks its thread survives. The thread is alive as long as
      this is positive, so lists of jobs with arbitrary values stand for every way jobs may finish. */
  datatype Job = Job(exp: Exp, reservations: seq<Reservation>, left: nat)

  /** A launch: the experiment and the slots it was started on. */
  datatype Launch = Launch(exp: Exp, claims: seq<Claim>)

  ghost function AllReservations(jobs: seq<Job>): seq<Reservation> {
    if jobs == [] then [] else AllReservations(jobs[..|jobs| - 1]) + jobs[|jobs| - 1].reservations
  }

  ghost function Survivors(jobs: seq<Job>): seq<Job> {
    if jobs == [] then []
    else
      var before, j := Survivors(jobs[..|jobs| - 1]), jobs[|jobs| - 1];
      if j.left > 0 then before + [j.(left := j.left - 1)] else before
  }

  ghost function Finishers(jobs: seq<Job>): seq<Job> {
    if jobs == [] then []
    else
      var before, j := Finishers(jobs[..|jobs| - 1]), jobs[|jobs| - 1];
      if j.left == 0 then before + [j] else before
  }

  /** The checks still to come until all jobs have finished. */
  ghost function TotalLeft(jobs: seq<Job>): nat {
    if jobs == [] then 0 else TotalLeft(jobs[..|jobs| - 1]) + jobs[|jobs| - 1].left + 1
  }

  lemma {:induction false} SurvivorsDecrease(jobs: seq<Job>)
    ensures TotalLeft(Survivors(jobs)) + |jobs| == TotalLeft(jobs)
  {
    if jobs != [] {
      var n := |jobs| - 1;
      SurvivorsDecrease(jobs[..n]);
      var s := Survivors(jobs[..n]);
      if jobs[n].left > 0 {
        var j := jobs[n].(left := jobs[n].left - 1);
        assert (s + [j])[..|s|] == s;
      }
    }
  }

  /** Exactly the jobs whose thread has ended finish; every other one survives, one check closer to its end. */
  lemma {:induction false} CheckMeaning(jobs: seq<Job>, j: Job)
    ensures multiset(Finishers(jobs))[j] == if j.left == 0 then multiset(jobs)[j] else 0
    ensures multiset(Survivors(jobs))[j] == multiset(jobs)[j.(left := j.left + 1)]
  {
    if jobs != [] {
      var n := |jobs| - 1;
      CheckMeaning(jobs[..n], j);
      assert jobs == jobs[..n] + [jobs[n]];
    }
  }

  /** Every running experiment either survives the check or finishes in it. */
  lemma {:induction false} CheckSplits(jobs: seq<Job>, e: Exp)
    ensures IsRunning(jobs, e) <==> IsRunning(Survivors(jobs), e) || IsRunning(Finishers(jobs), e)
  {
    if jobs != [] {
      var n := |jobs| - 1;
      CheckSplits(jobs[..n], e);
      RunningGrows(jobs[..n], jobs[n], e);
      assert jobs == jobs[..n] + [jobs[n]];
      if jobs[n].left > 0 {
        RunningGrows(Survivors(jobs[..n]), jobs[n].(left := jobs[n].left - 1), e);
      } else {
        RunningGrows(Finishers(jobs[..n]), jobs[n], e);
      }
    }
  }

  ghost predicate IsRunning(jobs: seq<Job>, e: Exp) {
    exists k :: 0 <= k < |jobs| && jobs[k].exp == e
  }

  lemma RunningGrows(jobs: seq<Job>, j: Job, e: Exp)
    ensures IsRunning(jobs + [j], e) <==> IsRunning(jobs, e) || j.exp == e
  {
    if IsRunning(jobs, e) {
      var k :| 0 <= k < |jobs| && jobs[k].exp == e;
      assert (jobs + [j])[k].exp == e;
    }
    assert (jobs + [j])[|jobs|] == j;
  }

  lemma {:induction false} ReservationsConcat(a: seq<Job>, b: seq<Job>)
    ensures AllReservations(a + b) == AllReservations(a) + AllReservations(b)
  {
    if b == [] {
      assert a + b == a;
    } else {
      var init, last := b[..|b| - 1], b[|b| - 1];
      assert a + b == (a + init) + [last] && b == init + [last];
      ReservationsConcat(a, init);
      LastReservations(a + init, last);
      LastReservations(init, last);
    }
  }

  /** The held slots split between survivors and finishers. */
  lemma {:induction false} HeldSplits(jobs: seq<Job>, node: Node)
    ensures Held(ClaimsOf(AllReservations(jobs)), node) ==
            Held(ClaimsOf(AllReservations(Survivors(jobs))), node) +
              Held(ClaimsOf(AllReservations(Finishers(jobs))), node)
  {
    hide Held;
    if jobs == [] {
      HeldNone([node]);
      assert Held([], [node][0]) == multiset{};
      assert ClaimsOf([]) == [];
    } else {
      var n := |jobs| - 1;
      HeldSplits(jobs[..n], node);
      var rs := jobs[n].reservations;
      HeldOfConcat(AllReservations(jobs[..n]), rs, node);
      if jobs[n].left > 0 {
        var j := jobs[n].(left := jobs[n].left - 1);
        LastReservations(Survivors(jobs[..n]), j);
        HeldOfConcat(AllReservations(Survivors(jobs[..n])), rs, node);
      } else {
        LastReservations(Finishers(jobs[..n]), jobs[n]);
        HeldOfConcat(AllReservations(Finishers(jobs[..n])), rs, node);
      }
    }
  }

  lemma LastReservations(jobs: seq<Job>, j: Job)
    ensures AllReservations(jobs + [j]) == AllReservations(jobs) + j.reservations
  {
    assert (jobs + [j])[..|jobs|] == jobs;
  }

  lemma HeldOfConcat(a: seq<Reservation>, b: seq<Reservation>, node: Node)
    ensures Held(ClaimsOf(a + b), node) == Held(ClaimsOf(a), node) + Held(ClaimsOf(b), node)
  {
    hide Held;
    assert ClaimsOf(a + b) == ClaimsOf(a) + ClaimsOf(b);
    HeldConcat(ClaimsOf(a), ClaimsOf(b), node);
  }

  lemma {:induction false} PartOfReservations(jobs: seq<Job>)
    ensures forall r :: r in AllReservations(Survivors(jobs)) ==> r in AllReservations(jobs)
    ensures forall r :: r in AllReservations(Finishers(jobs)) ==> r in AllReservations(jobs)
  {
    if jobs != [] {
      var n := |jobs| - 1;
      PartOfReservations(jobs[..n]);
      if jobs[n].left > 0 {
        LastReservations(Survivors(jobs[..n]), jobs[n].(left := jobs[n].left - 1));
      } else {
        LastReservations(Finishers(jobs[..n]), jobs[n]);
      }
    }
  }

  // ---------------------------------------------------------------------------------------------
  // Conservation of slots
  // ---------------------------------------------------------------------------------------------

  ghost function Fulls(nodes: seq<Node>): (fulls: seq<seq<nat>>)
    ensures |fulls| == |nodes| && forall p :: 0 <= p < |nodes| ==> fulls[p] == Range(nodes[p].maxSlots)
  {
    seq(|nodes|, p requires 0 <= p < |nodes| => Range(nodes[p].maxSlots))
  }

  lemma {:induction false} CountOfFirst(n: nat, slot: nat)
    ensures multiset(Range(n))[slot] == if slot < n then 1 else 0
  {
    if n > 0 {
      CountOfFirst(n - 1, slot);
      assert Range(n) == Range(n - 1) + [n - 1];
    }
  }

  /** With balanced books every slot of a node is in exactly one place: idle, or in one live claim, once. */
  lemma SlotInOnePlace(nodes: seq<Node>, idles: seq<seq<nat>>, claims: seq<Claim>, p: nat, slot: nat)
    requires Balanced(nodes, idles, claims, Fulls(nodes)) && p < |nodes|
    ensures multiset(idles[p])[slot] + Held(claims, nodes[p])[slot] == if slot < nodes[p].maxSlots then 1 else 0
  {
    hide Held;
    CountOfFirst(nodes[p].maxSlots, slot);
    assert (multiset(idles[p]) + Held(claims, nodes[p]))[slot] == multiset(Range(nodes[p].maxSlots))[slot];
  }

  /** A request on top of balanced books leaves them balanced. */
  lemma BalancedAfter(nodes: seq<Node>, idles: seq<seq<nat>>, claims: seq<Claim>, full: seq<seq<nat>>,
                      after: seq<seq<nat>>, more: seq<Claim>)
    requires Balanced(nodes, idles, claims, full) && Balanced(nodes, after, more, idles)
    ensures Balanced(nodes, after, claims + more, full)
  {
    hide Held;
    forall p | 0 <= p < |nodes| ensures multiset(after[p]) + Held(claims + more, nodes[p]) == multiset(full[p]) {
      HeldConcat(claims, more, nodes[p]);
    }
  }

  lemma BalancedSame(nodes: seq<Node>, idles: seq<seq<nat>>, a: seq<Claim>, b: seq<Claim>, full: seq<seq<nat>>)
    requires Balanced(nodes, idles, a, full) && forall p :: 0 <= p < |nodes| ==> Held(a, nodes[p]) == Held(b, nodes[p])
    ensures Balanced(nodes, idles, b, full)
  {
    hide Held;
  }

  /** With no claims every slot is idle. */
  lemma NothingHeld(nodes: seq<Node>, idles: seq<seq<nat>>)
    requires Balanced(nodes, idles, [], Fulls(nodes))
    ensures forall p :: 0 <= p < |nodes| ==>
      multiset(idles[p]) == multiset(Range(nodes[p].maxSlots)) && |idles[p]| == nodes[p].maxSlots
  {
    forall p | 0 <= p < |nodes|
      ensures multiset(idles[p]) == multiset(Range(nodes[p].maxSlots)) && |idles[p]| == nodes[p].maxSlots
    {
      HeldNone(nodes);
      assert |multiset(idles[p])| == |multiset(Range(nodes[p].maxSlots))|;
    }
  }

  // ---------------------------------------------------------------------------------------------
  // Sorting the slots of a job
  // ---------------------------------------------------------------------------------------------

  ghost predicate SortedClaims(after: seq<Claim>, before: seq<Claim>) {
    |after| == |before| &&
    forall k :: 0 <= k < |after| ==> after[k].node == before[k].node && after[k].slots == Sort(before[k].slots)
  }

  /** The loop that sorts every reservation in place. */
  method SortSlots(rs: seq<Reservation>, ghost others: seq<Reservation>)
    requires NoDup(rs) && forall r :: r in others ==> r !in rs
    modifies rs
    ensures SortedClaims(ClaimsOf(rs), old(ClaimsOf(rs))) && ClaimsOf(others) == old(ClaimsOf(others))
  {
    hide Sort;
    for k := 0 to |rs|
      invariant forall j :: 0 <= j < k ==> rs[j].slots == Sort(old(rs[j].slots))
      invariant forall j :: k <= j < |rs| ==> rs[j].slots == old(rs[j].slots)
      invariant forall r :: r in others ==> r.slots == old(r.slots)
    {
      rs[k].slots := Sort(rs[k].slots);
    }
  }

  lemma {:induction false} SortedHeld(after: seq<Claim>, before: seq<Claim>, node: Node)
    requires SortedClaims(after, before)
    ensures Held(after, node) == Held(before, node)
  {
    if after != [] { SortedHeld(after[..|after| - 1], before[..|before| - 1], node); }
  }

  /** A launch is sound: as many claims as nodes asked for, each of the size asked for on a different node,
      in increasing slot order, of slots the node has. */
  ghost predicate SoundLaunch(l: Launch, nodes: seq<Node>) {
    |l.claims| == l.exp.numNodes && Grants(l.claims, nodes, l.exp.numGpus) &&
    forall k :: 0 <= k < |l.claims| ==> SoundSlots(l.claims[k].slots, l.claims[k].node.maxSlots)
  }

  ghost predicate SoundSlots(slots: seq<nat>, maxSlots: nat) {
    (forall i, j :: 0 <= i < j < |slots| ==> slots[i] < slots[j]) &&
      forall i :: 0 <= i < |slots| ==> slots[i] < maxSlots
  }

  lemma {:induction false} ClaimHeld(claims: seq<Claim>, k: nat)
    requires k < |claims|
    ensures multiset(claims[k].slots) <= Held(claims, claims[k].node)
  {
    if k < |claims| - 1 { ClaimHeld(claims[..|claims| - 1], k); }
  }

  /** Sorted slots that are part of 0..n-1 are strictly increasing and below n. */
  lemma PartOfFirst(slots: seq<nat>, n: nat)
    requires Ordered(slots) && multiset(slots) <= multiset(Range(n))
    ensures SoundSlots(slots, n)
  {
    forall i | 0 <= i < |slots| ensures slots[i] < n {
      assert slots[i] in multiset(slots);
      CountOfFirst(n, slots[i]);
    }
    forall i, j | 0 <= i < j < |slots| ensures slots[i] < slots[j] {
      CountOfFirst(n, slots[i]);
      TwiceCounted(slots, i, j);
      assert multiset(slots)[slots[i]] <= multiset(Range(n))[slots[i]];
    }
  }

  lemma TwiceCounted(s: seq<nat>, i: nat, j: nat)
    requires i < j < |s|
    ensures s[i] == s[j] ==> multiset(s)[s[i]] >= 2
  {
    assert s == s[..i] + [s[i]] + s[i + 1..j] + [s[j]] + s[j + 1..];
  }

  lemma LaunchIsSound(nodes: seq<Node>, idles: seq<seq<nat>>, exp: Exp, claims: seq<Claim>, sorted: seq<Claim>,
                      others: seq<Claim>)
    requires |claims| == exp.numNodes && Grants(claims, nodes, exp.numGpus) && SortedClaims(sorted, claims)
    requires Balanced(nodes, idles, others + sorted, Fulls(nodes))
    ensures SoundLaunch(Launch(exp, sorted), nodes)
  {
    forall k | 0 <= k < |sorted| ensures SoundSlots(sorted[k].slots, sorted[k].node.maxSlots) {
      assert claims[k].node in nodes;
      var p :| 0 <= p < |nodes| && nodes[p] == sorted[k].node;
      ClaimHeld(others + sorted, |others| + k);
      PartOfFirst(sorted[k].slots, nodes[p].maxSlots);
    }
  }

  // ---------------------------------------------------------------------------------------------
  // The manager
  // ---------------------------------------------------------------------------------------------

  /** Experiment numbers occur once over the queue and the running jobs, and are below the counter. */
  ghost predicate DistinctIds(queue: seq<Exp>, running: seq<Job>, count: nat) {
    (forall a, b :: 0 <= a < b < |queue| ==> queue[a].id != queue[b].id) &&
    (forall a, b :: 0 <= a < b < |running| ==> running[a].exp.id != running[b].exp.id) &&
    (forall a, b :: 0 <= a < |queue| && 0 <= b < |running| ==> queue[a].id != running[b].exp.id) &&
    (forall a :: 0 <= a < |queue| ==> queue[a].id < count) &&
    forall b :: 0 <= b < |running| ==> running[b].exp.id < count
  }

  /** The request of an experiment is within the limits the autotuner asserts. */
  ghost predicate WithinLimits(exp: Exp, nodes: seq<Node>) {
    1 <= exp.numNodes <= |nodes| && 1 <= exp.numGpus &&
      forall p :: 0 <= p < |nodes| ==> exp.numGpus <= nodes[p].maxSlots
  }

  /** The request is for something, and with every slot idle it would be granted. */
  ghost predicate Grantable(exp: Exp, nodes: seq<Node>) {
    exp.numNodes > 0 && Satisfiable(Fulls(nodes), exp)
  }

  /** Requests within the asserted limits are grantable. */
  lemma LimitsSuffice(exp: Exp, nodes: seq<Node>)
    requires WithinLimits(exp, nodes)
    ensures Grantable(exp, nodes)
  {
    AllAble(Fulls(nodes), exp.numGpus);
  }

  ghost function Exps(launches: seq<Launch>): (exps: seq<Exp>)
    ensures |exps| == |launches| && forall k :: 0 <= k < |exps| ==> exps[k] == launches[k].exp
  {
    seq(|launches|, k requires 0 <= k < |launches| => launches[k].exp)
  }

  /** A finished experiment is recorded under its number. */
  ghost predicate IsFinished(finished: map<nat, Exp>, e: Exp) {
    e.id in finished && finished[e.id] == e
  }

  /** What the manager keeps besides the balance of slots: its nodes and reservations are different objects,
      the reservations are on its nodes, experiment numbers are used once, and every launch is sound. */
  ghost predicate Orderly(nodes: seq<Node>, queue: seq<Exp>, running: seq<Job>, count: nat, launches: seq<Launch>) {
    NoDup(nodes) && NoDup(AllReservations(running)) &&
    (forall r :: r in AllReservations(running) ==> r.node in nodes) &&
    DistinctIds(queue, running, count) && forall k :: 0 <= k < |launches| ==> SoundLaunch(launches[k], nodes)
  }

  lemma CheckIsOrderly(nodes: seq<Node>, queue: seq<Exp>, jobs: seq<Job>, count: nat, launches: seq<Launch>)
    requires Orderly(nodes, queue, jobs, count, launches)
    ensures Orderly(nodes, queue, Survivors(jobs), count, launches) && NoDup(nodes)
    ensures forall r :: r in AllReservations(Finishers(jobs)) ==> r.node in nodes
  {
    hide AllReservations, DistinctIds, NoDup, SoundLaunch;
    PartOfReservations(jobs);
    SurvivorsDistinct(queue, jobs, count);
    SurvivorReservations(jobs);
  }

  lemma NodesAreDistinct(nodes: seq<Node>, queue: seq<Exp>, jobs: seq<Job>, count: nat, launches: seq<Launch>)
    requires Orderly(nodes, queue, jobs, count, launches)
    ensures NoDup(nodes) && NoDup(AllReservations(jobs))
  {
  }

  lemma FreshApart(a: seq<Reservation>, b: seq<Reservation>)
    requires NoDup(a) && NoDup(b) && forall r :: r in a ==> r !in b
    ensures NoDup(a + b)
  {
    forall i, j | 0 <= i < |a| && 0 <= j < |b| ensures a[i] != b[j] { assert a[i] in a && b[j] in b; }
  }

  lemma StartIsOrderly(nodes: seq<Node>, queue: seq<Exp>, jobs: seq<Job>, count: nat, launches: seq<Launch>,
                       job: Job, launch: Launch)
    requires Orderly(nodes, [job.exp] + queue, jobs, count, launches) && SoundLaunch(launch, nodes)
    requires NoDup(AllReservations(jobs) + job.reservations)
    requires forall r :: r in job.reservations ==> r.node in nodes
    ensures Orderly(nodes, queue, jobs + [job], count, launches + [launch])
  {
    hide AllReservations, NoDup, SoundLaunch;
    LastReservations(jobs, job);
    FirstStarts(queue, jobs, count, job);
  }

  lemma FirstStarts(queue: seq<Exp>, jobs: seq<Job>, count: nat, job: Job)
    requires DistinctIds([job.exp] + queue, jobs, count)
    ensures DistinctIds(queue, jobs + [job], count)
  {
    var all := [job.exp] + queue;
    assert all[0] == job.exp && forall k :: 0 <= k < |queue| ==> all[k + 1] == queue[k];
  }

  class ResourceManager {
    const nodes: seq<Node>
    var queue: seq<Exp>
    /** The running experiments, a dictionary in insertion order. */
    var running: seq<Job>
    var finished: map<nat, Exp>
    var experimentCount: nat
    var expPaths: set<string>
    /** Every launch so far, in order. */
    ghost var launches: seq<Launch>

    ghost predicate Valid()
      reads this, nodes, AllReservations(running)
    {
      Orderly(nodes, queue, running, experimentCount, launches) &&
      Balanced(nodes, Idles(nodes), ClaimsOf(AllReservations(running)), Fulls(nodes))
    }

    constructor (hosts: seq<string>, gpusPerNode: nat)
      ensures Valid() && |nodes| == |hosts| && fresh(nodes)
      ensures forall p :: 0 <= p < |hosts| ==> nodes[p].host == hosts[p] && nodes[p].maxSlots == gpusPerNode
      ensures queue == [] && running == [] && launches == [] && finished == map[]
    {
      var list := NewNodes(hosts, gpusPerNode);
      nodes := list;
      queue, running, finished, experimentCount, expPaths, launches := [], [], map[], 0, {}, [];
      new;
      assert ClaimsOf(AllReservations(running)) == [];
      HeldNone(nodes);
    }

    static method NewNodes(hosts: seq<string>, gpusPerNode: nat) returns (list: seq<Node>)
      ensures |list| == |hosts| && fresh(list) && NoDup(list)
      ensures forall p :: 0 <= p < |hosts| ==>
        list[p].host == hosts[p] && list[p].maxSlots == gpusPerNode && list[p].idle == Range(gpusPerNode)
    {
      list := [];
      for p := 0 to |hosts|
        invariant |list| == p && fresh(list) && NoDup(list)
        invariant forall q :: 0 <= q < p ==>
          list[q].host == hosts[q] && list[q].maxSlots == gpusPerNode && list[q].idle == Range(gpusPerNode)
      {
        var node := new Node(hosts[p], gpusPerNode);
        list := list + [node];
      }
    }

    /** `run_job`: the experiment runs on the reservations for as many checks as its lifetime says. */
    method RunJob(exp: Exp, rs: seq<Reservation>, lifetime: nat)
      modifies this`running, this`launches
      ensures running == old(running) + [Job(exp, rs, lifetime)]
      ensures launches == old(launches) + [Launch(exp, ClaimsOf(rs))]
    {
      running := running + [Job(exp, rs, lifetime)];
      launches := launches + [Launch(exp, ClaimsOf(rs))];
    }

    /** The first loop of `experiment_check`: records the experiments whose thread is gone. */
    method Collect() returns (done: seq<Job>, stay: seq<Job>)
      modifies this`finished
      ensures done == Finishers(running) && stay == Survivors(running)
      ensures finished == RecordAll(old(finished), Finishers(running))
    {
      done, stay := [], [];
      for k := 0 to |running|
        invariant done == Finishers(running[..k]) && stay == Survivors(running[..k])
        invariant finished == RecordAll(old(finished), done)
      {
        assert running[..k + 1][..k] == running[..k];
        var job := running[k];
        if job.left == 0 {
          finished := finished[job.exp.id := job.exp];
          assert (done + [job])[..|done|] == done;
          done := done + [job];
        } else {
          stay := stay + [job.(left := job.left - 1)];
        }
      }
      assert running[..|running|] == running;
    }

    /** `experiment_check`: records the experiments whose thread is gone, gives their slots back, and drops
        them from the running ones. */
    method ExperimentCheck()
      requires Valid()
      modifies this`running, this`finished, nodes
      ensures Valid() && running == Survivors(old(running))
      ensures finished == RecordAll(old(finished), Finishers(old(running)))
    {
      hide Held, Balanced, Orderly, AllReservations, Survivors, Finishers, RecordAll, NoDup;
      ghost var jobs, idles := running, Idles(nodes);
      ghost var given, kept := AllReservations(Finishers(jobs)), AllReservations(Survivors(jobs));
      ghost var claims, returned := ClaimsOf(kept), ClaimsOf(given);
      CheckIsOrderly(nodes, queue, jobs, experimentCount, launches);
      BalancedSplit(nodes, idles, jobs);
      var done, stay := Collect();
      assert Idles(nodes) == idles && ClaimsOf(given) == returned;
      GiveBackJobs(nodes, done, claims);
      running := stay;
      assert ClaimsOf(kept) == claims;
    }

    /** `run_job` keeps the books when the claims of the job are added to them. */
    method BookJob(exp: Exp, rs: seq<Reservation>, lifetime: nat)
      requires Orderly(nodes, queue, running + [Job(exp, rs, lifetime)], experimentCount,
        launches + [Launch(exp, ClaimsOf(rs))])
      requires Balanced(nodes, Idles(nodes), ClaimsOf(AllReservations(running + [Job(exp, rs, lifetime)])),
        Fulls(nodes))
      modifies this`running, this`launches
      ensures Valid()
      ensures running == old(running) + [Job(exp, rs, lifetime)] &&
        launches == old(launches) + [Launch(exp, ClaimsOf(rs))]
    {
      hide Held, Balanced, Orderly, AllReservations;
      ghost var jobs := running + [Job(exp, rs, lifetime)];
      ghost var books := AllReservations(jobs);
      ghost var claims := ClaimsOf(books);
      RunJob(exp, rs, lifetime);
      assert running == jobs && ClaimsOf(books) == claims;
    }

    /** A granted request: sorts the slots and starts the experiment taken off the queue. */
    method StartJob(exp: Exp, rs: seq<Reservation>, lifetime: nat, ghost claims: seq<Claim>)
      requires Orderly(nodes, [exp] + queue, running, experimentCount, launches)
      requires NoDup(AllReservations(running) + rs) && forall r :: r in rs ==> r.node in nodes
      requires claims == ClaimsOf(AllReservations(running)) && |rs| == exp.numNodes &&
        Grants(ClaimsOf(rs), nodes, exp.numGpus)
      requires Balanced(nodes, Idles(nodes), claims + ClaimsOf(rs), Fulls(nodes))
      modifies this`running, this`launches, rs
      ensures Valid()
      ensures running == old(running) + [Job(exp, rs, lifetime)] &&
        launches == old(launches) + [Launch(exp, ClaimsOf(rs))]
    {
      hide Held, Balanced, Grants, SoundLaunch, Orderly, NoDup, AllReservations;
      ghost var granted, jobs := ClaimsOf(rs), running;
      Apart(AllReservations(jobs), rs);
      SortSlots(rs, AllReservations(jobs));
      ghost var sorted := ClaimsOf(rs);
      SortedBalance(nodes, Idles(nodes), claims, granted, sorted);
      LaunchIsSound(nodes, Idles(nodes), exp, granted, sorted, claims);
      ghost var job := Job(exp, rs, lifetime);
      StartIsOrderly(nodes, queue, jobs, experimentCount, launches, job, Launch(exp, sorted));
      JobAdded(jobs, job);
      BookJob(exp, rs, lifetime);
    }

    /** One turn of the loop of `run`: the first experiment of the queue is started, exactly when its request can be
        granted now, or put back and the running ones are checked. */
    method Step(lifetime: Exp -> nat)
      requires Valid() && queue != []
      modifies this`queue, this`running, this`finished, this`launches, nodes
      ensures Valid()
      ensures |queue| < |old(queue)| <==> old(queue)[0].numNodes > 0 && Satisfiable(old(Idles(nodes)), old(queue)[0])
      ensures
        if |queue| < |old(queue)|
        then Started(old(queue), queue, old(running), running, old(launches), launches, lifetime) &&
          finished == old(finished)
        else queue == old(queue) && launches == old(launches) &&
             running == Survivors(old(running)) && finished == RecordAll(old(finished), Finishers(old(running)))
      ensures Grantable(old(queue)[0], nodes) && |queue| == |old(queue)| ==> old(running) != []
      ensures !Grantable(old(queue)[0], nodes) ==> queue == old(queue)
    {
      hide Held, Balanced, Satisfiable, Grants, SoundLaunch, Orderly, AllReservations, Survivors, Finishers, RecordAll,
        Grantable;
      ghost var idles, books, jobs := Idles(nodes), AllReservations(running), running;
      ghost var claims := ClaimsOf(books);
      NodesAreDistinct(nodes, queue, jobs, experimentCount, launches);
      var exp := queue[0];
      queue := queue[1..];
      assert [exp] + queue == old(queue);
      var rs := ResourceRequest(nodes, exp);
      assert ClaimsOf(books) == claims;
      if rs.None? || rs.value == [] {
        queue := [exp] + queue;
        if rs.None? && Grantable(exp, nodes) { RefusedMeansRunning(nodes, idles, exp, jobs, claims); }
        AskedForSomething(exp, nodes);
        BalancedAfter(nodes, idles, claims, Fulls(nodes), Idles(nodes), []);
        assert claims + [] == claims;
        ExperimentCheck();
      } else {
        GrantedIsGrantable(nodes, idles, exp, claims);
        BalancedAfter(nodes, idles, claims, Fulls(nodes), Idles(nodes), ClaimsOf(rs.value));
        GrantedNodes(rs.value, nodes, exp.numGpus);
        FreshApart(books, rs.value);
        StartJob(exp, rs.value, lifetime(exp), claims);
      }
    }

    /** The loop of `run` for any number of turns: it never gets past a request that is not grantable. */
    method Turns(lifetime: Exp -> nat, turns: nat, blocked: nat) returns (started: nat)
      requires Valid() && blocked < |queue| && !Grantable(queue[blocked], nodes)
      modifies this`queue, this`running, this`finished, this`launches, nodes
      ensures Valid() && started <= blocked && queue == old(queue)[started..]
      ensures Exps(launches) == old(Exps(launches)) + old(queue)[..started]
    {
      hide Held, Balanced, Orderly, AllReservations, Survivors, Finishers, RecordAll, Exps, Started, Satisfiable,
        Grantable;
      ghost var waiting, first := queue, Exps(launches);
      started := 0;
      for turn := 0 to turns
        invariant Valid() && started <= blocked && queue == waiting[started..]
        invariant Exps(launches) == first + waiting[..started]
      {
        ghost var jobs, history := running, launches;
        var length := |queue|;
        Step(lifetime);
        if |queue| < length {
          OneMoreStarted(waiting, first, started, queue, jobs, running, history, launches, lifetime);
          started := started + 1;
        }
      }
    }

    /** `run`: when every queued request is grantable, it ends, has launched the queued experiments in queue order,
        has recorded every queued and running experiment as finished, and leaves every slot idle. */
    method Run(lifetime: Exp -> nat)
      requires Valid() && forall e :: e in queue ==> Grantable(e, nodes)
      modifies this`queue, this`running, this`finished, this`launches, nodes
      ensures Valid() && queue == [] && running == []
      ensures Exps(launches) == old(Exps(launches)) + old(queue)
      ensures forall e :: e in old(queue) || IsRunning(old(running), e) ==> IsFinished(finished, e)
      ensures forall id :: id in finished ==> id in old(finished) || InPool(old(queue), old(running), finished[id])
      ensures forall p :: 0 <= p < |nodes| ==> multiset(nodes[p].idle) == multiset(Range(nodes[p].maxSlots))
    {
      hide Held, Balanced, Orderly, AllReservations, Survivors, Finishers, RecordAll, Exps, Tracked, Started,
        Satisfiable, Grantable;
      TrackingStarts(nodes, queue, running, experimentCount, launches, finished);
      while queue != []
        invariant Valid() && Tracked(old(queue), old(running), queue, running, finished, old(finished))
        invariant forall e :: e in queue ==> Grantable(e, nodes)
        invariant Exps(launches) + queue == old(Exps(launches)) + old(queue)
        decreases |queue|, TotalLeft(running)
      {
        ghost var q, jobs, done, history := queue, running, finished, launches;
        Step(lifetime);
        if |queue| < |q| {
          StartTracked(old(queue), old(running), q, queue, jobs, running, history, launches, lifetime, finished,
            old(finished));
        } else {
          SurvivorsDecrease(jobs);
          CheckTracked(old(queue), old(running), queue, jobs, done, old(finished));
        }
      }
      while running != []
        invariant Valid() && queue == [] && Tracked(old(queue), old(running), queue, running, finished, old(finished))
        invariant Exps(launches) + queue == old(Exps(launches)) + old(queue)
        decreases TotalLeft(running)
      {
        ghost var jobs, done := running, finished;
        ExperimentCheck();
        SurvivorsDecrease(jobs);
        CheckTracked(old(queue), old(running), queue, jobs, done, old(finished));
      }
      TrackingEnds(old(queue), old(running), finished, old(finished));
      NobodyRuns(nodes, Idles(nodes), running);
    }

    /** `schedule_experiments`: takes in the files one by one. */
    method ScheduleExperiments(files: seq<ExpFile>)
      requires Valid()
      modifies this`queue, this`finished, this`expPaths, this`experimentCount
      ensures Valid()
      ensures Intake(queue, finished, expPaths, experimentCount) ==
              AdmitAll(old(Intake(queue, finished, expPaths, experimentCount)), files)
      ensures TakesIn(old(Intake(queue, finished, expPaths, experimentCount)), files,
                      Intake(queue, finished, expPaths, experimentCount))
    {
      hide Held, Balanced, Orderly, AllReservations, Idles, Fulls, ClaimsOf, TakesIn;
      IntakeTakesIn(Intake(queue, finished, expPaths, experimentCount), files);
      assert files[..0] == [];
      for k := 0 to |files|
        invariant Valid()
        invariant Intake(queue, finished, expPaths, experimentCount) ==
                  AdmitAll(old(Intake(queue, finished, expPaths, experimentCount)), files[..k])
      {
        assert files[..k + 1][..k] == files[..k];
        if files[k].path !in expPaths {
          expPaths := expPaths + {files[k].path};
          var exp := Exp(experimentCount, files[k].numGpus, files[k].numNodes);
          OneMoreId(nodes, queue, running, experimentCount, launches, exp);
          experimentCount := experimentCount + 1;
          if files[k].results.Complete? || files[k].results.Empty? {
            finished := finished[exp.id := exp];
          }
          if !files[k].results.Complete? {
            queue := queue + [exp];
          }
        }
      }
      assert files[..|files|] == files;
    }
  }

  /** The first experiment of the queue became the last running one and the last launch. */
  ghost predicate Started(queue: seq<Exp>, queue': seq<Exp>, running: seq<Job>, running': seq<Job>,
                          launches: seq<Launch>, launches': seq<Launch>, lifetime: Exp -> nat) {
    queue != [] && queue' == queue[1..] && |running'| == |running| + 1 && running'[..|running|] == running &&
    running'[|running|].exp == queue[0] && running'[|running|].left == lifetime(queue[0]) &&
    |launches'| == |launches| + 1 && launches'[..|launches|] == launches && launches'[|launches|].exp == queue[0]
  }

  // ---------------------------------------------------------------------------------------------
  // Runs
  // ---------------------------------------------------------------------------------------------

  ghost predicate InPool(queue: seq<Exp>, running: seq<Job>, e: Exp) {
    e in queue || IsRunning(running, e)
  }

  ghost predicate DistinctPool(queue: seq<Exp>, running: seq<Job>) {
    forall a, b :: InPool(queue, running, a) && InPool(queue, running, b) && a.id == b.id ==> a == b
  }

  /** Every experiment of the pool (queue0, running0) is still queued, is running, or has been recorded; only
      experiments of the pool are queued, run, or have been recorded since. */
  ghost predicate Tracked(queue0: seq<Exp>, running0: seq<Job>, queue: seq<Exp>, running: seq<Job>,
                          finished: map<nat, Exp>, finished0: map<nat, Exp>) {
    DistinctPool(queue0, running0) &&
    (forall e :: InPool(queue0, running0, e) ==> InPool(queue, running, e) || IsFinished(finished, e)) &&
    (forall e :: InPool(queue, running, e) ==> InPool(queue0, running0, e)) &&
    forall id :: id in finished ==> id in finished0 || InPool(queue0, running0, finished[id])
  }

  lemma TrackingStarts(nodes: seq<Node>, queue: seq<Exp>, running: seq<Job>, count: nat, launches: seq<Launch>,
                       finished: map<nat, Exp>)
    requires Orderly(nodes, queue, running, count, launches)
    ensures Tracked(queue, running, queue, running, finished, finished)
  {
  }

  lemma AskedForSomething(exp: Exp, nodes: seq<Node>)
    ensures Grantable(exp, nodes) ==> exp.numNodes > 0
  {
  }

  lemma StartOrder(queue: seq<Exp>, queue': seq<Exp>, running: seq<Job>, running': seq<Job>, launches: seq<Launch>,
                   launches': seq<Launch>, lifetime: Exp -> nat)
    requires Started(queue, queue', running, running', launches, launches', lifetime)
    ensures queue' == queue[1..] && Exps(launches') == Exps(launches) + [queue[0]]
  {
  }

  /** The front of the waiting experiments joins the started ones. */
  lemma OneMoreStarted(waiting: seq<Exp>, first: seq<Exp>, started: nat, queue': seq<Exp>, running: seq<Job>,
                       running': seq<Job>, launches: seq<Launch>, launches': seq<Launch>, lifetime: Exp -> nat)
    requires started < |waiting| && Exps(launches) == first + waiting[..started]
    requires Started(waiting[started..], queue', running, running', launches, launches', lifetime)
    ensures queue' == waiting[started + 1..] && Exps(launches') == first + waiting[..started + 1]
  {
    StartOrder(waiting[started..], queue', running, running', launches, launches', lifetime);
    assert waiting[..started + 1] == waiting[..started] + [waiting[started]];
  }

  lemma StartTracked(queue0: seq<Exp>, running0: seq<Job>, queue: seq<Exp>, queue': seq<Exp>, running: seq<Job>,
                     running': seq<Job>, launches: seq<Launch>, launches': seq<Launch>, lifetime: Exp -> nat,
                     finished: map<nat, Exp>, finished0: map<nat, Exp>)
    requires Started(queue, queue', running, running', launches, launches', lifetime)
    requires Tracked(queue0, running0, queue, running, finished, finished0)
    ensures Tracked(queue0, running0, queue', running', finished, finished0)
    ensures Exps(launches') + queue' == Exps(launches) + queue && forall e :: e in queue' ==> e in queue
  {
    assert queue == [queue[0]] + queue';
    var job := running'[|running|];
    assert running' == running + [job];
    forall e ensures InPool(queue', running', e) <==> InPool(queue, running, e) { RunningGrows(running, job, e); }
  }

  lemma CheckTracked(queue0: seq<Exp>, running0: seq<Job>, queue: seq<Exp>, jobs: seq<Job>,
                     finished: map<nat, Exp>, finished0: map<nat, Exp>)
    requires Tracked(queue0, running0, queue, jobs, finished, finished0)
    ensures Tracked(queue0, running0, queue, Survivors(jobs), RecordAll(finished, Finishers(jobs)), finished0)
  {
    hide RecordAll, Survivors, Finishers, IsRunning;
    var done := Finishers(jobs);
    forall e ensures IsRunning(jobs, e) <==> IsRunning(Survivors(jobs), e) || IsRunning(done, e) {
      CheckSplits(jobs, e);
    }
    forall e | InPool(queue0, running0, e)
      ensures InPool(queue, Survivors(jobs), e) || IsFinished(RecordAll(finished, done), e)
    {
      forall k | 0 <= k < |done| && done[k].exp.id == e.id ensures done[k].exp == e {
        RunsAt(done, k);
        assert InPool(queue, jobs, done[k].exp);
      }
      Recorded(finished, done, e);
    }
    forall id | id in RecordAll(finished, done)
      ensures id in finished0 || InPool(queue0, running0, RecordAll(finished, done)[id])
    {
      OnlyRecorded(finished, done, id);
      if IsRunning(done, RecordAll(finished, done)[id]) { assert InPool(queue, jobs, RecordAll(finished, done)[id]); }
    }
  }

  lemma RunsAt(jobs: seq<Job>, k: nat)
    requires k < |jobs|
    ensures IsRunning(jobs, jobs[k].exp)
  {
  }

  /** An experiment stays recorded when no other one of its number finishes, and is recorded when it finishes. */
  lemma {:induction false} Recorded(finished: map<nat, Exp>, done: seq<Job>, e: Exp)
    requires forall k :: 0 <= k < |done| && done[k].exp.id == e.id ==> done[k].exp == e
    ensures IsFinished(finished, e) || IsRunning(done, e) ==> IsFinished(RecordAll(finished, done), e)
  {
    if done != [] {
      var n := |done| - 1;
      Recorded(finished, done[..n], e);
      assert done == done[..n] + [done[n]];
      RunningGrows(done[..n], done[n], e);
    }
  }

  lemma {:induction false} OnlyRecorded(finished: map<nat, Exp>, done: seq<Job>, id: nat)
    requires id in RecordAll(finished, done)
    ensures (id in finished && RecordAll(finished, done)[id] == finished[id]) ||
      IsRunning(done, RecordAll(finished, done)[id])
  {
    if done != [] {
      var n := |done| - 1;
      assert done == done[..n] + [done[n]];
      RunningGrows(done[..n], done[n], RecordAll(finished, done)[id]);
      if id != done[n].exp.id { OnlyRecorded(finished, done[..n], id); }
    }
  }

  lemma TrackingEnds(queue0: seq<Exp>, running0: seq<Job>, finished: map<nat, Exp>, finished0: map<nat, Exp>)
    requires Tracked(queue0, running0, [], [], finished, finished0)
    ensures forall e :: InPool(queue0, running0, e) ==> IsFinished(finished, e)
    ensures forall id :: id in finished ==> id in finished0 || InPool(queue0, running0, finished[id])
  {
    forall e ensures !InPool([], [], e) {}
  }

  lemma NobodyRuns(nodes: seq<Node>, idles: seq<seq<nat>>, running: seq<Job>)
    requires running == [] && Balanced(nodes, idles, ClaimsOf(AllReservations(running)), Fulls(nodes))
    ensures forall p :: 0 <= p < |nodes| ==> multiset(idles[p]) == multiset(Range(nodes[p].maxSlots))
  {
    assert ClaimsOf(AllReservations(running)) == [];
    NothingHeld(nodes, idles);
  }

  // ---------------------------------------------------------------------------------------------
  // Intake
  // ---------------------------------------------------------------------------------------------

  /** What the result directory of an experiment holds: nothing usable (missing or interrupted), a run
      without error that left no metrics, or a run that need not be repeated. */
  datatype Results = Missing | Empty | Complete

  datatype ExpFile = ExpFile(path: string, numGpus: nat, numNodes: nat, results: Results)

  datatype Intake = Intake(queue: seq<Exp>, finished: map<nat, Exp>, paths: set<string>, count: nat)

  ghost function Admit(s: Intake, f: ExpFile): Intake {
    if f.path in s.paths then s
    else
      var e := Exp(s.count, f.numGpus, f.numNodes);
      Intake(if f.results.Complete? then s.queue else s.queue + [e],
             if f.results.Missing? then s.finished else s.finished[e.id := e],
             s.paths + {f.path},
             s.count + 1)
  }

  ghost function AdmitAll(s: Intake, files: seq<ExpFile>): Intake {
    if files == [] then s else Admit(AdmitAll(s, files[..|files| - 1]), files[|files| - 1])
  }

  /** Every path is known afterwards, and every new path has taken exactly one number. */
  lemma {:induction false} IntakePaths(s: Intake, files: seq<ExpFile>)
    ensures AdmitAll(s, files).count - |AdmitAll(s, files).paths| == s.count - |s.paths|
    ensures forall path :: path in AdmitAll(s, files).paths <==> path in s.paths || HasPath(files, path)
  {
    if files != [] {
      var n := |files| - 1;
      IntakePaths(s, files[..n]);
      forall path ensures HasPath(files, path) <==> HasPath(files[..n], path) || path == files[n].path {
        if HasPath(files[..n], path) {
          var k :| 0 <= k < n && files[..n][k].path == path;
          assert files[k].path == path;
        }
        if HasPath(files, path) && path != files[n].path {
          var k :| 0 <= k < |files| && files[k].path == path;
          assert files[..n][k].path == path;
        }
      }
    }
  }

  ghost predicate HasPath(files: seq<ExpFile>, path: string) {
    exists k :: 0 <= k < |files| && files[k].path == path
  }

  /** The queue is extended by experiments with increasing new numbers. */
  lemma {:induction false} IntakeQueue(s: Intake, files: seq<ExpFile>)
    ensures s.queue <= AdmitAll(s, files).queue && s.count <= AdmitAll(s, files).count
    ensures NewIds(AdmitAll(s, files).queue[|s.queue|..], s.count, AdmitAll(s, files).count)
  {
    if files != [] {
      var n := |files| - 1;
      IntakeQueue(s, files[..n]);
      var t, f := AdmitAll(s, files[..n]), files[n];
      var e := Exp(t.count, f.numGpus, f.numNodes);
      assert (t.queue + [e])[|s.queue|..] == t.queue[|s.queue|..] + [e];
    }
  }

  /** File k is the first one of its path, and its path was not known before. */
  ghost predicate IsNew(paths: set<string>, files: seq<ExpFile>, k: nat) {
    k < |files| && files[k].path !in paths && forall j :: 0 <= j < k ==> files[j].path != files[k].path
  }

  /** The new files before position n. */
  ghost function NewFiles(paths: set<string>, files: seq<ExpFile>, n: nat): set<nat> {
    set k: nat | k < n && IsNew(paths, files, k)
  }

  /** The experiment of file k: its number counts the new files before it, its resources are those of the file. */
  ghost function ExpOf(s: Intake, files: seq<ExpFile>, k: nat): Exp
    requires k < |files|
  {
    Exp(s.count + |NewFiles(s.paths, files, k)|, files[k].numGpus, files[k].numNodes)
  }

  /** The positions of the new files that have yet to run, in file order. */
  ghost predicate AreWaiting(ks: seq<nat>, paths: set<string>, files: seq<ExpFile>) {
    (forall k: nat :: k in ks <==> IsNew(paths, files, k) && !files[k].results.Complete?) &&
    forall i, j :: 0 <= i < j < |ks| ==> ks[i] < ks[j]
  }

  /** The queue is extended, in file order, by the experiments of the new files that have yet to run. */
  ghost predicate QueueTakesIn(s: Intake, files: seq<ExpFile>, t: Intake, ks: seq<nat>) {
    AreWaiting(ks, s.paths, files) && |t.queue| == |s.queue| + |ks| && t.queue[..|s.queue|] == s.queue &&
    forall i :: 0 <= i < |ks| ==> ks[i] < |files| && t.queue[|s.queue| + i] == ExpOf(s, files, ks[i])
  }

  /** A new number is recorded as finished exactly when its file left results; nothing else is. */
  ghost predicate FinishedTakesIn(s: Intake, files: seq<ExpFile>, t: Intake) {
    (forall k: nat :: IsNew(s.paths, files, k) ==>
      var e := ExpOf(s, files, k);
      s.count <= e.id < t.count &&
      if files[k].results.Missing? then e.id in t.finished <==> e.id in s.finished else IsFinished(t.finished, e)) &&
    forall id :: (id < s.count || id >= t.count) ==>
      (id in t.finished <==> id in s.finished) && (id in s.finished ==> t.finished[id] == s.finished[id])
  }

  /** What taking in the files means: every path is known, the new files took the next numbers, those that have yet to
      run are queued in file order, and those that left results are recorded as finished. */
  ghost predicate TakesIn(s: Intake, files: seq<ExpFile>, t: Intake) {
    (forall path :: path in t.paths <==> path in s.paths || HasPath(files, path)) &&
    t.count == s.count + |NewFiles(s.paths, files, |files|)| &&
    (exists ks :: QueueTakesIn(s, files, t, ks)) && FinishedTakesIn(s, files, t)
  }

  lemma FirstOfPath(s: Intake, files: seq<ExpFile>, n: nat)
    requires n < |files|
    ensures IsNew(s.paths, files, n) <==> files[n].path !in s.paths && !HasPath(files[..n], files[n].path)
  {
    assert forall j :: 0 <= j < n ==> files[..n][j].path == files[j].path;
  }

  /** Files to come do not matter for the files before them. */
  lemma PrefixIsNew(s: Intake, files: seq<ExpFile>, n: nat)
    requires n <= |files|
    ensures forall k: nat :: k < n ==> (IsNew(s.paths, files[..n], k) <==> IsNew(s.paths, files, k))
    ensures forall k: nat :: k < n ==> ExpOf(s, files[..n], k) == ExpOf(s, files, k)
    ensures NewFiles(s.paths, files[..n], n) == NewFiles(s.paths, files, n)
  {
    forall k: nat | k <= n ensures NewFiles(s.paths, files[..n], k) == NewFiles(s.paths, files, k) {}
  }

  /** One more file: what the new files before the end are, and the number a new file gets. */
  lemma OneMoreFile(s: Intake, files: seq<ExpFile>, t: Intake)
    requires files != [] && t.count == s.count + |NewFiles(s.paths, files[..|files| - 1], |files| - 1)|
    requires forall path :: path in t.paths <==> path in s.paths || HasPath(files[..|files| - 1], path)
    ensures var n := |files| - 1;
      (IsNew(s.paths, files, n) <==> files[n].path !in t.paths) &&
      ExpOf(s, files, n) == Exp(t.count, files[n].numGpus, files[n].numNodes) &&
      Admit(t, files[n]).count == s.count + |NewFiles(s.paths, files, n + 1)|
  {
    var n := |files| - 1;
    FirstOfPath(s, files, n);
    PrefixIsNew(s, files, n);
    var before := NewFiles(s.paths, files, n);
    assert NewFiles(s.paths, files, n + 1) == if IsNew(s.paths, files, n) then before + {n} else before;
  }

  lemma WaitingStep(paths: set<string>, files: seq<ExpFile>, n: nat, ks: seq<nat>, more: seq<nat>)
    requires |files| == n + 1 && AreWaiting(ks, paths, files[..n])
    requires forall k: nat :: k < n ==> (IsNew(paths, files[..n], k) <==> IsNew(paths, files, k))
    requires more == if IsNew(paths, files, n) && !files[n].results.Complete? then ks + [n] else ks
    ensures (forall i :: 0 <= i < |ks| ==> ks[i] < n) && AreWaiting(more, paths, files)
  {
    OnlyInside(paths, files);
    OnlyInside(paths, files[..n]);
    hide IsNew;
    forall k | k in ks ensures k < n { assert IsNew(paths, files[..n], k); }
    assert forall i :: 0 <= i < |ks| ==> ks[i] in ks;
    forall k: nat ensures k in more <==> IsNew(paths, files, k) && !files[k].results.Complete? {
      if k < n { assert files[..n][k] == files[k]; }
    }
  }

  lemma QueueStep(s: Intake, files: seq<ExpFile>, t: Intake, ks: seq<nat>) returns (more: seq<nat>)
    requires files != [] && QueueTakesIn(s, files[..|files| - 1], t, ks)
    requires var n := |files| - 1;
      (IsNew(s.paths, files, n) <==> files[n].path !in t.paths) &&
      ExpOf(s, files, n) == Exp(t.count, files[n].numGpus, files[n].numNodes)
    ensures QueueTakesIn(s, files, Admit(t, files[|files| - 1]), more)
  {
    hide NewFiles, ExpOf, IsNew, AreWaiting;
    var n := |files| - 1;
    PrefixIsNew(s, files, n);
    more := if files[n].path !in t.paths && !files[n].results.Complete? then ks + [n] else ks;
    WaitingStep(s.paths, files, n, ks, more);
  }

  lemma OnlyInside(paths: set<string>, files: seq<ExpFile>)
    ensures forall k: nat :: IsNew(paths, files, k) ==> k < |files|
  {
  }

  lemma FinishedStep(s: Intake, files: seq<ExpFile>, t: Intake)
    requires files != [] && FinishedTakesIn(s, files[..|files| - 1], t) && s.count <= t.count
    requires var n := |files| - 1;
      (IsNew(s.paths, files, n) <==> files[n].path !in t.paths) &&
      ExpOf(s, files, n) == Exp(t.count, files[n].numGpus, files[n].numNodes)
    ensures FinishedTakesIn(s, files, Admit(t, files[|files| - 1]))
  {
    hide NewFiles, ExpOf, IsNew;
    var n := |files| - 1;
    var after := Admit(t, files[n]);
    PrefixIsNew(s, files, n);
    OnlyInside(s.paths, files);
    forall k: nat | IsNew(s.paths, files, k)
      ensures var e := ExpOf(s, files, k);
        s.count <= e.id < after.count &&
        if files[k].results.Missing? then e.id in after.finished <==> e.id in s.finished
        else IsFinished(after.finished, e)
    {
      if k < n { assert IsNew(s.paths, files[..n], k) && files[..n][k] == files[k]; }
    }
  }

  /** What an intake adds, read off the files alone. */
  lemma {:induction false} IntakeMeaning(s: Intake, files: seq<ExpFile>) returns (ks: seq<nat>)
    ensures QueueTakesIn(s, files, AdmitAll(s, files), ks)
    ensures FinishedTakesIn(s, files, AdmitAll(s, files))
    ensures AdmitAll(s, files).count == s.count + |NewFiles(s.paths, files, |files|)|
  {
    if files == [] {
      assert NewFiles(s.paths, files, 0) == {};
      ks := [];
    } else {
      hide QueueTakesIn, FinishedTakesIn, IsNew, NewFiles, ExpOf, Admit;
      var n := |files| - 1;
      var t := AdmitAll(s, files[..n]);
      ks := IntakeMeaning(s, files[..n]);
      IntakePaths(s, files[..n]);
      OneMoreFile(s, files, t);
      FinishedStep(s, files, t);
      ks := QueueStep(s, files, t, ks);
    }
  }

  lemma IntakeTakesIn(s: Intake, files: seq<ExpFile>)
    ensures TakesIn(s, files, AdmitAll(s, files))
  {
    IntakePaths(s, files);
    var ks := IntakeMeaning(s, files);
  }

  ghost predicate NewIds(exps: seq<Exp>, lo: nat, hi: nat) {
    (forall k :: 0 <= k < |exps| ==> lo <= exps[k].id < hi) &&
    forall j, k :: 0 <= j < k < |exps| ==> exps[j].id < exps[k].id
  }

  /** Scheduling files whose paths are known changes nothing. */
  lemma {:induction false} KnownChangeNothing(s: Intake, files: seq<ExpFile>)
    requires forall k :: 0 <= k < |files| ==> files[k].path in s.paths
    ensures AdmitAll(s, files) == s
  {
    if files != [] { KnownChangeNothing(s, files[..|files| - 1]); }
  }

  /** So scheduling the same files again changes nothing. */
  lemma ScheduleTwice(s: Intake, files: seq<ExpFile>)
    ensures AdmitAll(AdmitAll(s, files), files) == AdmitAll(s, files)
  {
    IntakePaths(s, files);
    KnownChangeNothing(AdmitAll(s, files), files);
  }

  lemma OneMoreId(nodes: seq<Node>, queue: seq<Exp>, jobs: seq<Job>, count: nat, launches: seq<Launch>, e: Exp)
    requires Orderly(nodes, queue, jobs, count, launches) && e.id == count
    ensures Orderly(nodes, queue, jobs, count + 1, launches)
    ensures Orderly(nodes, queue + [e], jobs, count + 1, launches)
  {
    hide AllReservations, NoDup, SoundLaunch;
  }

  ghost function RecordAll(finished: map<nat, Exp>, jobs: seq<Job>): map<nat, Exp> {
    if jobs == [] then finished
    else
      var e := jobs[|jobs| - 1].exp;
      RecordAll(finished, jobs[..|jobs| - 1])[e.id := e]
  }

  lemma {:induction false} SurvivorFrom(jobs: seq<Job>, k: nat) returns (m: nat)
    requires k < |Survivors(jobs)|
    ensures m < |jobs| && jobs[m].exp == Survivors(jobs)[k].exp
  {
    m := |jobs| - 1;
    if k < |Survivors(jobs[..m])| { m := SurvivorFrom(jobs[..m], k); }
  }

  lemma {:induction false} SurvivorsDistinct(queue: seq<Exp>, jobs: seq<Job>, count: nat)
    requires DistinctIds(queue, jobs, count)
    ensures DistinctIds(queue, Survivors(jobs), count)
  {
    if jobs != [] {
      var n := |jobs| - 1;
      SurvivorsDistinct(queue, jobs[..n], count);
      if jobs[n].left > 0 {
        var s := Survivors(jobs[..n]);
        forall k | 0 <= k < |s| ensures s[k].exp.id != jobs[n].exp.id { var m := SurvivorFrom(jobs[..n], k); }
        JobJoins(queue, s, count, jobs[n].(left := jobs[n].left - 1));
      }
    }
  }

  lemma JobJoins(queue: seq<Exp>, jobs: seq<Job>, count: nat, job: Job)
    requires DistinctIds(queue, jobs, count) && job.exp.id < count
    requires forall k :: 0 <= k < |jobs| ==> jobs[k].exp.id != job.exp.id
    requires forall k :: 0 <= k < |queue| ==> queue[k].id != job.exp.id
    ensures DistinctIds(queue, jobs + [job], count)
  {
  }

  lemma {:induction false} SurvivorReservations(jobs: seq<Job>)
    requires NoDup(AllReservations(jobs))
    ensures NoDup(AllReservations(Survivors(jobs)))
  {
    hide NoDup;
    if jobs != [] {
      var n := |jobs| - 1;
      Apart(AllReservations(jobs[..n]), jobs[n].reservations);
      SurvivorReservations(jobs[..n]);
      if jobs[n].left > 0 {
        PartOfReservations(jobs[..n]);
        LastReservations(Survivors(jobs[..n]), jobs[n].(left := jobs[n].left - 1));
        FreshApart(AllReservations(Survivors(jobs[..n])), jobs[n].reservations);
      }
    } else {
      assert Survivors(jobs) == jobs;
    }
  }

  /** The balance, with the claims of survivors and finishers apart. */
  lemma BalancedSplit(nodes: seq<Node>, idles: seq<seq<nat>>, jobs: seq<Job>)
    requires Balanced(nodes, idles, ClaimsOf(AllReservations(jobs)), Fulls(nodes))
    ensures Balanced(nodes, idles,
      ClaimsOf(AllReservations(Survivors(jobs))) + ClaimsOf(AllReservations(Finishers(jobs))), Fulls(nodes))
  {
    hide Held;
    var a, b := ClaimsOf(AllReservations(Survivors(jobs))), ClaimsOf(AllReservations(Finishers(jobs)));
    forall p | 0 <= p < |nodes| ensures Held(ClaimsOf(AllReservations(jobs)), nodes[p]) == Held(a + b, nodes[p]) {
      HeldSplits(jobs, nodes[p]);
      HeldConcat(a, b, nodes[p]);
    }
    BalancedSame(nodes, idles, ClaimsOf(AllReservations(jobs)), a + b, Fulls(nodes));
  }

  lemma FirstJobLast(nodes: seq<Node>, idles: seq<seq<nat>>, kept: seq<Claim>, jobs: seq<Job>)
    requires jobs != [] && Balanced(nodes, idles, kept + ClaimsOf(AllReservations(jobs)), Fulls(nodes))
    ensures Balanced(nodes, idles, kept + ClaimsOf(AllReservations(jobs[1..])) + ClaimsOf(jobs[0].reservations),
      Fulls(nodes))
  {
    hide Held;
    var rs, rest := jobs[0].reservations, AllReservations(jobs[1..]);
    assert jobs == [jobs[0]] + jobs[1..];
    ReservationsConcat([jobs[0]], jobs[1..]);
    LastReservations([], jobs[0]);
    assert [] + [jobs[0]] == [jobs[0]] && AllReservations([jobs[0]]) == rs;
    forall p | 0 <= p < |nodes|
      ensures Held(kept + ClaimsOf(AllReservations(jobs)), nodes[p]) ==
        Held(kept + ClaimsOf(rest) + ClaimsOf(rs), nodes[p])
    {
      HeldConcat(kept, ClaimsOf(AllReservations(jobs)), nodes[p]);
      HeldOfConcat(rs, rest, nodes[p]);
      HeldConcat(kept + ClaimsOf(rest), ClaimsOf(rs), nodes[p]);
      HeldConcat(kept, ClaimsOf(rest), nodes[p]);
    }
    BalancedSame(nodes, idles, kept + ClaimsOf(AllReservations(jobs)), kept + ClaimsOf(rest) + ClaimsOf(rs),
      Fulls(nodes));
  }

  /** The second loop of `experiment_check`: every reservation of the finished experiments goes back. */
  method GiveBackJobs(nodes: seq<Node>, done: seq<Job>, ghost kept: seq<Claim>)
    requires NoDup(nodes) && forall r :: r in AllReservations(done) ==> r.node in nodes
    requires Balanced(nodes, Idles(nodes), kept + ClaimsOf(AllReservations(done)), Fulls(nodes))
    modifies nodes
    ensures Balanced(nodes, Idles(nodes), kept, Fulls(nodes))
  {
    hide Held, Balanced;
    assert done[0..] == done;
    for k := 0 to |done|
      invariant Balanced(nodes, Idles(nodes), kept + ClaimsOf(AllReservations(done[k..])), Fulls(nodes))
    {
      assert done[k..][1..] == done[k + 1..];
      FirstJobLast(nodes, Idles(nodes), kept, done[k..]);
      JobReservations(done, k);
      RestoreAll(nodes, done[k].reservations, Fulls(nodes), kept + ClaimsOf(AllReservations(done[k + 1..])));
    }
    assert ClaimsOf(AllReservations(done[|done|..])) == [];
    assert kept + [] == kept;
  }

  lemma {:induction false} JobReservations(jobs: seq<Job>, k: nat)
    requires k < |jobs|
    ensures forall r :: r in jobs[k].reservations ==> r in AllReservations(jobs)
  {
    if k < |jobs| - 1 { JobReservations(jobs[..|jobs| - 1], k); }
  }

  /** No state grants more than the state with every slot idle. */
  lemma GrantedIsGrantable(nodes: seq<Node>, idles: seq<seq<nat>>, exp: Exp, claims: seq<Claim>)
    requires Balanced(nodes, idles, claims, Fulls(nodes)) && exp.numNodes > 0 && Satisfiable(idles, exp)
    ensures Grantable(exp, nodes)
  {
    hide Held;
    forall p | 0 <= p < |nodes| ensures |idles[p]| <= |Fulls(nodes)[p]| {
      assert |multiset(idles[p]) + Held(claims, nodes[p])| == |multiset(Fulls(nodes)[p])|;
    }
    AbleGrows(idles, Fulls(nodes), exp.numGpus);
  }

  /** When a grantable request is refused, something is running: with all slots idle it is granted. */
  lemma RefusedMeansRunning(nodes: seq<Node>, idles: seq<seq<nat>>, exp: Exp, jobs: seq<Job>, claims: seq<Claim>)
    requires Balanced(nodes, idles, claims, Fulls(nodes)) && Grantable(exp, nodes)
    requires claims == ClaimsOf(AllReservations(jobs))
    ensures jobs == [] ==> Satisfiable(idles, exp)
  {
    if jobs == [] {
      assert claims == [];
      NothingHeld(nodes, idles);
      AbleGrows(Fulls(nodes), idles, exp.numGpus);
    }
  }

  lemma GrantedNodes(rs: seq<Reservation>, nodes: seq<Node>, g: nat)
    requires Grants(ClaimsOf(rs), nodes, g)
    ensures forall r :: r in rs ==> r.node in nodes
  {
    forall k | 0 <= k < |rs| ensures rs[k].node in nodes { assert ClaimsOf(rs)[k].node in nodes; }
  }

  lemma Apart(a: seq<Reservation>, b: seq<Reservation>)
    requires NoDup(a + b)
    ensures NoDup(a) && NoDup(b) && forall r :: r in a ==> r !in b
  {
    assert (a + b)[..|a|] == a;
    forall i, j | 0 <= i < |a| && 0 <= j < |b| ensures a[i] != b[j] {
      assert (a + b)[i] == a[i] && (a + b)[|a| + j] == b[j];
    }
    forall i, j | 0 <= i < j < |b| ensures b[i] != b[j] {
      assert (a + b)[|a| + i] == b[i] && (a + b)[|a| + j] == b[j];
    }
  }

  lemma SortedBalance(nodes: seq<Node>, idles: seq<seq<nat>>, claims: seq<Claim>, granted: seq<Claim>,
                      sorted: seq<Claim>)
    requires Balanced(nodes, idles, claims + granted, Fulls(nodes)) && SortedClaims(sorted, granted)
    ensures Balanced(nodes, idles, claims + sorted, Fulls(nodes))
  {
    hide Held;
    forall p | 0 <= p < |nodes| ensures Held(claims + granted, nodes[p]) == Held(claims + sorted, nodes[p]) {
      HeldConcat(claims, granted, nodes[p]);
      HeldConcat(claims, sorted, nodes[p]);
      SortedHeld(sorted, granted, nodes[p]);
    }
    BalancedSame(nodes, idles, claims + granted, claims + sorted, Fulls(nodes));
  }

  lemma JobAdded(jobs: seq<Job>, job: Job)
    ensures AllReservations(jobs + [job]) == AllReservations(jobs) + job.reservations
    ensures ClaimsOf(AllReservations(jobs + [job])) == ClaimsOf(AllReservations(jobs)) + ClaimsOf(job.reservations)
  {
    LastReservations(jobs, job);
  }
}
