/** Elastic batch sizing: deepspeed/elasticity/elasticity.py. */
module Elastic {
  import opened Arithmetic
  import opened Sequences
  import opened Wrappers

  const HCN_LIST: seq<nat> := [
    1, 2, 4, 6, 12, 24, 36, 48, 60, 120, 180, 240, 360, 720, 840, 1260, 1680, 2520, 5040, 7560, 10080, 15120, 20160,
    25200, 27720, 45360, 50400, 55440, 83160, 110880, 166320, 221760, 277200, 332640, 498960, 554400, 665280, 720720]

  ghost predicate Increasing(s: seq<nat>) {
    forall i, j :: 0 <= i < j < |s| ==> s[i] < s[j]
  }

  /** Micro batches the configuration accepts: at least one, all positive. */
  ghost predicate MicroBatches(micro: seq<nat>) {
    micro != [] && forall i :: 0 <= i < |micro| ==> micro[i] > 0
  }

  // ---------------------------------------------------------------------------------------------
  // get_valid_gpus
  // ---------------------------------------------------------------------------------------------

  /** g GPUs decompose the batch: some micro batch m has m * g dividing it. */
  ghost predicate Decomposes(batch: nat, micro: seq<nat>, g: nat) {
    exists i :: 0 <= i < |micro| && DecomposesWith(batch, micro[i], g)
  }

  ghost predicate DecomposesWith(batch: nat, m: nat, g: nat) {
    m > 0 && g > 0 && batch % (m * g) == 0
  }

  /** m * g divides the batch exactly when m does and g divides the quotient. */
  lemma DividesProduct(batch: nat, m: nat, g: nat)
    requires m > 0 && g > 0
    ensures m * g > 0
    ensures batch % (m * g) == 0 <==> batch % m == 0 && (batch / m) % g == 0
  {
    ProductSign(m, g);
    if batch % (m * g) == 0 {
      var k := batch / (m * g);
      assert batch == (m * g) * k;
      MulAssoc(m, g, k);
      MulCommute(m, g * k);
      DivModUnique(batch, m, g * k, 0);
      MulCommute(g, k);
      DivModUnique(g * k, g, k, 0);
    }
    if batch % m == 0 && (batch / m) % g == 0 {
      var k := (batch / m) / g;
      assert batch == m * (batch / m) && batch / m == g * k;
      MulAssoc(m, g, k);
      MulCommute(m * g, k);
      DivModUnique(batch, m * g, k, 0);
    }
  }

  /** A proper divisor is at most half. */
  lemma ProperDivisor(n: nat, g: nat)
    requires n > 0 && g > 0 && n % g == 0 && g != n
    ensures g <= n / 2
  {
    var k := n / g;
    assert n == g * k;
    MulCommute(g, k);
    assert k == 1 ==> n == g;
    ProductSign(k - 2, g);
    Distribute(k, 2, g);
  }

  /** The GPU counts of one micro batch: the quotient itself, then its divisors up to half of it. */
  method GpusOfMicroBatch(batch: nat, m: nat, minGpus: nat, maxGpus: nat) returns (gpus: seq<nat>)
    requires batch > 0 && m > 0 && batch % m == 0 && minGpus >= 1
    ensures forall g: nat :: g in gpus <==> minGpus <= g <= maxGpus && (batch / m) % g == 0
  {
    var quotient := batch / m;
    ghost var product := m * quotient;
    assert batch == product;
    assert quotient > 0;
    gpus := [];
    if minGpus <= quotient <= maxGpus { gpus := gpus + [quotient]; }
    var i := 1;
    while i < quotient / 2 + 1
      invariant 1 <= i <= quotient / 2 + 1
      invariant forall g: nat :: g in gpus <==>
        minGpus <= g <= maxGpus && quotient % g == 0 && (g < i || g == quotient)
    {
      if i > maxGpus { break; }
      if i >= minGpus && quotient % i == 0 { gpus := gpus + [i]; }
      i := i + 1;
    }
    forall g: nat | minGpus <= g <= maxGpus && quotient % g == 0 ensures g in gpus {
      if g != quotient { ProperDivisor(quotient, g); }
    }
  }

  /** `sorted(list(set(s)))`. */
  method SortedSet(s: seq<nat>) returns (r: seq<nat>)
    ensures Increasing(r) && forall x :: x in r <==> x in s
  {
    r := [];
    for i := 0 to |s|
      invariant Increasing(r) && forall x :: x in r <==> x in s[..i]
    {
      r := InsertSorted(r, s[i]);
      assert s[..i + 1] == s[..i] + [s[i]];
    }
    assert s[..|s|] == s;
  }

  function InsertSorted(s: seq<nat>, x: nat): (r: seq<nat>)
    requires Increasing(s)
    ensures Increasing(r) && forall y :: y in r <==> y == x || y in s
  {
    if s == [] then [x]
    else if x < s[0] then [x] + s
    else if x == s[0] then s
    else
      var rest := InsertSorted(s[1..], x);
      ConsIncreasing(s[0], s[1..], rest, x);
      assert s == [s[0]] + s[1..];
      [s[0]] + rest
  }

  lemma ConsIncreasing(head: nat, tail: seq<nat>, rest: seq<nat>, x: nat)
    requires Increasing([head] + tail) && Increasing(rest) && head < x
    requires forall y :: y in rest <==> y == x || y in tail
    ensures Increasing([head] + rest)
  {
    var s := [head] + tail;
    forall y | y in rest ensures y > head {
      if y in tail {
        var i :| 0 <= i < |tail| && tail[i] == y;
        assert s[i + 1] == y && s[0] == head;
      }
    }
    forall j | 0 <= j < |rest| ensures rest[j] > head { assert rest[j] in rest; }
  }

  /** The result of `get_valid_gpus`: sorted, without duplicates, and exactly the counts in range that
      decompose the batch. */
  ghost predicate IsValidGpus(gpus: seq<nat>, batch: nat, micro: seq<nat>, minGpus: nat, maxGpus: nat) {
    Increasing(gpus) && forall g: nat :: g in gpus <==> minGpus <= g <= maxGpus && Decomposes(batch, micro, g)
  }

  /** `get_valid_gpus`. */
  method GetValidGpus(batch: nat, micro: seq<nat>, minGpus: nat, maxGpus: nat) returns (gpus: seq<nat>)
    requires batch > 0 && MicroBatches(micro) && minGpus >= 1
    ensures IsValidGpus(gpus, batch, micro, minGpus, maxGpus)
  {
    var valid: seq<nat> := [];
    for i := 0 to |micro|
      invariant forall g: nat :: g in valid <==> minGpus <= g <= maxGpus && Decomposes(batch, micro[..i], g)
    {
      ghost var before := valid;
      if batch % micro[i] == 0 {
        var more := GpusOfMicroBatch(batch, micro[i], minGpus, maxGpus);
        valid := valid + more;
      }
      forall g: nat ensures g in valid <==> minGpus <= g <= maxGpus && Decomposes(batch, micro[..i + 1], g) {
        if minGpus <= g <= maxGpus {
          DividesProduct(batch, micro[i], g);
          DecomposesPrefix(batch, micro, i, g);
        }
      }
    }
    assert micro[..|micro|] == micro;
    gpus := SortedSet(valid);
  }

  lemma DecomposesPrefix(batch: nat, micro: seq<nat>, i: nat, g: nat)
    requires i < |micro|
    ensures Decomposes(batch, micro[..i + 1], g) <==>
      Decomposes(batch, micro[..i], g) || DecomposesWith(batch, micro[i], g)
  {
    if Decomposes(batch, micro[..i], g) {
      var k :| 0 <= k < i && DecomposesWith(batch, micro[..i][k], g);
      assert micro[..i + 1][k] == micro[..i][k];
    }
    if DecomposesWith(batch, micro[i], g) { assert micro[..i + 1][i] == micro[i]; }
    if Decomposes(batch, micro[..i + 1], g) {
      var k :| 0 <= k < i + 1 && DecomposesWith(batch, micro[..i + 1][k], g);
      if k < i { assert micro[..i][k] == micro[..i + 1][k]; }
    }
  }

  lemma NonEmpty(s: seq<nat>)
    ensures s != [] ==> exists x :: x in s
  {
    if s != [] { assert s[0] in s; }
  }

  /** Two sorted duplicate-free lists with the same elements are equal. */
  lemma {:induction false} IncreasingUnique(a: seq<nat>, b: seq<nat>)
    requires Increasing(a) && Increasing(b) && forall x :: x in a <==> x in b
    ensures a == b
    decreases |a|
  {
    if a == [] {
      NonEmpty(b);
    } else {
      assert a[0] in b && b != [] && b[0] in a;
      assert a[0] == b[0] by {
        var i :| 0 <= i < |b| && b[i] == a[0];
        var j :| 0 <= j < |a| && a[j] == b[0];
      }
      forall x ensures x in a[1..] <==> x in b[1..] {
        if x in a[1..] { assert x in a && x > a[0] && x in b; }
        if x in b[1..] { assert x in b && x > b[0] && x in a; }
      }
      IncreasingUnique(a[1..], b[1..]);
    }
  }

  // ---------------------------------------------------------------------------------------------
  // get_candidate_batch_sizes
  // ---------------------------------------------------------------------------------------------

  lemma TableIncreases()
    ensures Increasing(HCN_LIST)
  {
  }

  /** `np.argmax(table > value)`: the first index beyond the value, or 0 when there is none. */
  method ArgmaxGreater(table: seq<nat>, value: nat) returns (index: nat)
    requires table != []
    ensures index < |table|
    ensures table[index] > value ==> forall k :: 0 <= k < index ==> table[k] <= value
    ensures table[index] <= value ==> index == 0 && forall k :: 0 <= k < |table| ==> table[k] <= value
  {
    for i := 0 to |table|
      invariant forall k :: 0 <= k < i ==> table[k] <= value
    {
      if table[i] > value { return i; }
    }
    index := 0;
  }

  /** The largest multiple of the base, by a table entry, that does not exceed the maximum. */
  ghost predicate LargestMultiple(table: seq<nat>, candidate: nat, base: nat, maxBatch: nat) {
    exists k :: 0 <= k < |table| && candidate == table[k] * base <= maxBatch &&
      forall l :: 0 <= l < |table| && table[l] * base <= maxBatch ==> table[l] <= table[k]
  }

  ghost predicate IsCandidate(candidate: nat, base: nat, maxBatch: nat) {
    if base >= maxBatch then candidate == base else LargestMultiple(HCN_LIST, candidate, base, maxBatch)
  }

  /** The candidate of one base. */
  method CandidateOf(base: nat, maxBatch: nat) returns (candidate: nat)
    requires base > 0
    ensures IsCandidate(candidate, base, maxBatch)
  {
    if base >= maxBatch { return base; }
    TableIncreases();
    candidate := ScaleByTable(HCN_LIST, base, maxBatch);
  }

  /** Scales the base by the table entry before the first one that is too large. The list index -1 of the
      source is the last entry: it is used when no entry is too large. */
  method ScaleByTable(table: seq<nat>, base: nat, maxBatch: nat) returns (candidate: nat)
    requires 0 < base < maxBatch && Increasing(table) && table != [] && table[0] == 1
    ensures LargestMultiple(table, candidate, base, maxBatch)
  {
    var value := maxBatch / base;
    ValueBound(maxBatch, base);
    var index := ArgmaxGreater(table, value);
    var entry := if index == 0 then |table| - 1 else index - 1;
    candidate := table[entry] * base;
    LargestAt(table, entry, base, maxBatch);
  }

  lemma LargestAt(table: seq<nat>, entry: nat, base: nat, maxBatch: nat)
    requires base > 0 && Increasing(table) && entry < |table| && table[entry] <= maxBatch / base
    requires entry + 1 < |table| ==> table[entry + 1] > maxBatch / base
    ensures LargestMultiple(table, table[entry] * base, base, maxBatch)
  {
    AtMostQuotient(table[entry], maxBatch, base);
    forall l | 0 <= l < |table| && table[l] * base <= maxBatch ensures table[l] <= table[entry] {
      AtMostQuotient(table[l], maxBatch, base);
      assert l <= entry;
    }
  }

  lemma ValueBound(maxBatch: nat, base: nat)
    requires 0 < base < maxBatch
    ensures maxBatch / base >= 1
  {
  }

  lemma AtMostQuotient(e: nat, n: nat, d: nat)
    requires d > 0
    ensures e <= n / d <==> e * d <= n
  {
    var q := n / d;
    assert n == q * d + n % d by { MulCommute(d, q); }
    Distribute(q, e, d);
    ProductSign(q - e, d);
    Distribute(q, e - 1, d);
    ProductSign(q - e + 1, d);
    ProductSign(e - q - 1, d);
    Distribute(e, q + 1, d);
    Distribute(q, 1, d);
  }

  ghost predicate FromSomeBase(c: nat, bases: seq<nat>, maxBatch: nat) {
    exists i :: 0 <= i < |bases| && IsCandidate(c, bases[i], maxBatch)
  }

  ghost predicate HasCandidate(candidates: set<nat>, base: nat, maxBatch: nat) {
    exists c :: c in candidates && IsCandidate(c, base, maxBatch)
  }

  /** Every base has its candidate, and every candidate comes from a base. */
  ghost predicate IsCandidateSet(candidates: set<nat>, bases: seq<nat>, maxBatch: nat) {
    (forall c :: c in candidates ==> FromSomeBase(c, bases, maxBatch)) &&
    forall i :: 0 <= i < |bases| ==> HasCandidate(candidates, bases[i], maxBatch)
  }

  /** A base has one candidate. */
  lemma CandidateIsUnique(c: nat, d: nat, base: nat, maxBatch: nat)
    requires IsCandidate(c, base, maxBatch) && IsCandidate(d, base, maxBatch)
    ensures c == d
  {
    if base < maxBatch {
      var k :| 0 <= k < |HCN_LIST| && c == HCN_LIST[k] * base <= maxBatch &&
        forall l :: 0 <= l < |HCN_LIST| && HCN_LIST[l] * base <= maxBatch ==> HCN_LIST[l] <= HCN_LIST[k];
      var m :| 0 <= m < |HCN_LIST| && d == HCN_LIST[m] * base <= maxBatch &&
        forall l :: 0 <= l < |HCN_LIST| && HCN_LIST[l] * base <= maxBatch ==> HCN_LIST[l] <= HCN_LIST[m];
      SameProduct(HCN_LIST[k], HCN_LIST[m], base);
    }
  }

  lemma SameProduct(a: nat, b: nat, c: nat)
    requires a == b
    ensures a * c == b * c
  {
  }

  lemma CandidatesFrom(s: set<nat>, t: set<nat>, bases: seq<nat>, maxBatch: nat)
    requires IsCandidateSet(s, bases, maxBatch) && IsCandidateSet(t, bases, maxBatch)
    ensures s <= t
  {
    hide IsCandidate;
    forall c | c in s ensures c in t {
      assert FromSomeBase(c, bases, maxBatch);
      var i :| 0 <= i < |bases| && IsCandidate(c, bases[i], maxBatch);
      assert HasCandidate(t, bases[i], maxBatch);
      var d :| d in t && IsCandidate(d, bases[i], maxBatch);
      CandidateIsUnique(c, d, bases[i], maxBatch);
    }
  }

  /** `get_candidate_batch_sizes`. The list of a set has no particular order. */
  method GetCandidateBatchSizes(bases: seq<nat>, maxBatch: nat) returns (candidates: set<nat>)
    requires forall i :: 0 <= i < |bases| ==> bases[i] > 0
    ensures IsCandidateSet(candidates, bases, maxBatch)
  {
    var list: seq<nat> := [];
    for i := 0 to |bases|
      invariant |list| == i
      invariant forall k :: 0 <= k < i ==> IsCandidate(list[k], bases[k], maxBatch)
    {
      var c := CandidateOf(bases[i], maxBatch);
      list := list + [c];
    }
    candidates := ToSet(list);
    forall i | 0 <= i < |bases| ensures HasCandidate(candidates, bases[i], maxBatch) {
      assert list[i] in candidates && IsCandidate(list[i], bases[i], maxBatch);
    }
    forall c | c in candidates ensures FromSomeBase(c, bases, maxBatch) {
      var i :| 0 <= i < |list| && list[i] == c;
      assert IsCandidate(list[i], bases[i], maxBatch);
    }
  }

  lemma CandidateBounds(candidate: nat, base: nat, maxBatch: nat)
    requires base > 0 && IsCandidate(candidate, base, maxBatch)
    ensures candidate >= base && (base <= maxBatch ==> candidate <= maxBatch)
  {
    if base < maxBatch {
      TableIncreases();
      MultipleBounds(HCN_LIST, candidate, base, maxBatch);
    }
  }

  lemma MultipleBounds(table: seq<nat>, candidate: nat, base: nat, maxBatch: nat)
    requires base > 0 && Increasing(table) && table != [] && table[0] == 1
    requires LargestMultiple(table, candidate, base, maxBatch)
    ensures base <= candidate <= maxBatch
  {
    var k :| 0 <= k < |table| && candidate == table[k] * base <= maxBatch &&
      forall l :: 0 <= l < |table| && table[l] * base <= maxBatch ==> table[l] <= table[k];
    AtLeastBase(table[k], base);
  }

  lemma AtLeastBase(e: nat, base: nat)
    requires e >= 1 && base > 0
    ensures e * base >= base
  {
  }

  // ---------------------------------------------------------------------------------------------
  // get_best_candidates
  // ---------------------------------------------------------------------------------------------

  /** The limits and preference of one selection. */
  datatype Limits = Limits(micro: seq<nat>, minGpus: nat, maxGpus: nat, preferLarger: bool)

  ghost predicate ValidLimits(l: Limits) {
    MicroBatches(l.micro) && l.minGpus >= 1
  }

  ghost function ValidSet(batch: nat, l: Limits): set<nat> {
    set g: nat | l.minGpus <= g <= l.maxGpus && Decomposes(batch, l.micro, g)
  }

  /** What the loop compares: first the number of valid GPU counts, then the batch size. */
  datatype Score = Score(count: nat, batch: nat)

  ghost function ScoreOf(batch: nat, l: Limits): Score {
    Score(|ValidSet(batch, l)|, batch)
  }

  predicate Better(a: Score, b: Score, preferLarger: bool) {
    a.count > b.count || (a.count == b.count && if preferLarger then a.batch > b.batch else a.batch < b.batch)
  }

  function MinOf(s: seq<nat>): (m: nat)
    requires s != []
    ensures m in s && forall x :: x in s ==> m <= x
  {
    if |s| == 1 then s[0]
    else
      var rest := MinOf(s[1..]);
      assert s == [s[0]] + s[1..];
      if s[0] <= rest then s[0] else rest
  }

  /** The score the loop starts from. */
  ghost function StartScore(l: Limits): Score
    requires ValidLimits(l)
  {
    Score(0, MinOf(l.micro))
  }

  /** The selection among a set of candidates: the best candidate, unless none beats the start. */
  ghost predicate IsBest(batch: nat, valid: Option<seq<nat>>, candidates: set<nat>, l: Limits)
    requires ValidLimits(l)
  {
    match valid
    case None =>
      batch == MinOf(l.micro) && forall c :: c in candidates ==> !Better(ScoreOf(c, l), StartScore(l), l.preferLarger)
    case Some(gpus) =>
      batch in candidates && IsValidGpus(gpus, batch, l.micro, l.minGpus, l.maxGpus) &&
      Better(ScoreOf(batch, l), StartScore(l), l.preferLarger) &&
      forall c :: c in candidates ==> !Better(ScoreOf(c, l), ScoreOf(batch, l), l.preferLarger)
  }

  lemma ValidCount(gpus: seq<nat>, batch: nat, l: Limits)
    requires IsValidGpus(gpus, batch, l.micro, l.minGpus, l.maxGpus)
    ensures |gpus| == |ValidSet(batch, l)|
  {
    IncreasingSize(gpus);
    assert ValidSet(batch, l) == ToSet(gpus);
  }

  lemma {:induction false} IncreasingSize(s: seq<nat>)
    requires Increasing(s)
    ensures |ToSet(s)| == |s|
  {
    if s != [] {
      var k := |s| - 1;
      IncreasingSize(s[..k]);
      assert ToSet(s) == ToSet(s[..k]) + {s[k]};
    }
  }

  /** `get_best_candidates`, for the candidates in any order. */
  method GetBestCandidates(candidates: seq<nat>, l: Limits) returns (batch: nat, valid: Option<seq<nat>>)
    requires ValidLimits(l) && forall i :: 0 <= i < |candidates| ==> candidates[i] > 0
    ensures IsBest(batch, valid, ToSet(candidates), l)
  {
    var maxValid: nat := 0;
    valid := None;
    batch := MinOf(l.micro);
    for i := 0 to |candidates|
      invariant IsBest(batch, valid, ToSet(candidates[..i]), l)
      invariant Score(maxValid, batch) == if valid.None? then StartScore(l) else ScoreOf(batch, l)
    {
      ghost var seen := ToSet(candidates[..i]);
      var current := GetValidGpus(candidates[i], l.micro, l.minGpus, l.maxGpus);
      ValidCount(current, candidates[i], l);
      if Better(Score(|current|, candidates[i]), Score(maxValid, batch), l.preferLarger) {
        maxValid, valid, batch := |current|, Some(current), candidates[i];
      }
      assert ToSet(candidates[..i + 1]) == seen + {candidates[i]};
    }
    assert candidates[..|candidates|] == candidates;
  }

  /** The selection depends on the set of candidates only, not on the order they were tried in. */
  lemma SelectionIsUnique(b1: nat, v1: Option<seq<nat>>, b2: nat, v2: Option<seq<nat>>, candidates: set<nat>, l: Limits)
    requires ValidLimits(l) && IsBest(b1, v1, candidates, l) && IsBest(b2, v2, candidates, l)
    ensures b1 == b2 && v1 == v2
  {
    if v1.Some? && v2.Some? {
      assert !Better(ScoreOf(b1, l), ScoreOf(b2, l), l.preferLarger);
      assert !Better(ScoreOf(b2, l), ScoreOf(b1, l), l.preferLarger);
      IncreasingUnique(v1.value, v2.value);
    }
  }

  /** No candidate has more valid GPU counts than the selected batch. */
  lemma SelectedHasMostGpus(batch: nat, gpus: seq<nat>, candidates: set<nat>, l: Limits, c: nat)
    requires ValidLimits(l) && IsBest(batch, Some(gpus), candidates, l) && c in candidates
    ensures |ValidSet(c, l)| <= |gpus|
  {
    ValidCount(gpus, batch, l);
    assert !Better(ScoreOf(c, l), ScoreOf(batch, l), l.preferLarger);
  }

  /** Among candidates with as many valid GPU counts the selected batch is the largest when larger ones are preferred,
      and the smallest when they are not. It has a valid count, or is preferred to the least micro batch. */
  lemma SelectedWinsTies(batch: nat, gpus: seq<nat>, candidates: set<nat>, l: Limits)
    requires ValidLimits(l) && IsBest(batch, Some(gpus), candidates, l)
    ensures forall c :: c in candidates && |ValidSet(c, l)| == |gpus| ==>
      if l.preferLarger then c <= batch else c >= batch
    ensures gpus != [] || if l.preferLarger then batch > MinOf(l.micro) else batch < MinOf(l.micro)
  {
    ValidCount(gpus, batch, l);
    forall c | c in candidates && |ValidSet(c, l)| == |gpus|
      ensures if l.preferLarger then c <= batch else c >= batch
    {
      assert !Better(ScoreOf(c, l), ScoreOf(batch, l), l.preferLarger);
    }
  }

  /** When nothing is selected, no candidate has a valid GPU count, nor is one preferred to the least micro batch. */
  lemma NothingSelected(batch: nat, candidates: set<nat>, l: Limits)
    requires ValidLimits(l)
    ensures IsBest(batch, None, candidates, l) <==>
      batch in l.micro && (forall m :: m in l.micro ==> batch <= m) &&
      forall c :: c in candidates ==> ValidSet(c, l) == {} && if l.preferLarger then c <= batch else c >= batch
  {
    forall c | c in candidates
      ensures !Better(ScoreOf(c, l), StartScore(l), l.preferLarger) <==>
        ValidSet(c, l) == {} && if l.preferLarger then c <= MinOf(l.micro) else c >= MinOf(l.micro)
    {
    }
  }

  // ---------------------------------------------------------------------------------------------
  // _get_compatible_gpus_v01
  // ---------------------------------------------------------------------------------------------

  /** The least common multiple, which the source takes from a library. */
  ghost predicate IsLcm(lcm: nat, s: seq<nat>)
    requires MicroBatches(s)
  {
    CommonMultiple(lcm, s) && forall n: nat :: CommonMultiple(n, s) ==> lcm <= n
  }

  ghost predicate CommonMultiple(n: nat, s: seq<nat>)
    requires MicroBatches(s)
  {
    n > 0 && forall i :: 0 <= i < |s| ==> n % s[i] == 0
  }

  /** The limits after the defaults for missing (or zero) GPU bounds. */
  function Effective(micro: seq<nat>, maxBatch: nat, minGpus: nat, maxGpus: nat, preferLarger: bool): (l: Limits)
    requires MicroBatches(micro)
    ensures ValidLimits(l)
  {
    Limits(micro, if minGpus == 0 then 1 else minGpus,
           if maxGpus == 0 then assert MinOf(micro) > 0; maxBatch / MinOf(micro) else maxGpus, preferLarger)
  }

  /** Limits that are given are kept. A missing lower limit is one GPU; a missing upper limit admits exactly the counts
      for which some micro batch on every GPU stays within the maximum. */
  lemma EffectiveLimits(micro: seq<nat>, maxBatch: nat, minGpus: nat, maxGpus: nat, preferLarger: bool, g: nat)
    requires MicroBatches(micro)
    ensures
      var l := Effective(micro, maxBatch, minGpus, maxGpus, preferLarger);
      l.micro == micro && l.preferLarger == preferLarger &&
      (l.minGpus <= g <==> if minGpus > 0 then minGpus <= g else g > 0) &&
      (g <= l.maxGpus <==> if maxGpus > 0 then g <= maxGpus else exists m :: m in micro && m * g <= maxBatch)
  {
    var least := MinOf(micro);
    assert least > 0;
    AtMostQuotient(g, maxBatch, least);
    MulCommute(g, least);
    forall m | m in micro && m * g <= maxBatch ensures least * g <= maxBatch {
      Distribute(m, least, g);
      if g > 0 { ProductSign(m - least, g); }
    }
  }

  datatype Plan = Plan(batch: nat, gpus: Option<seq<nat>>)

  /** The plan selects the best among the candidates of the micro batches and of their LCM. */
  ghost predicate IsPlan(plan: Plan, lcm: nat, maxBatch: nat, l: Limits)
    requires ValidLimits(l)
  {
    exists candidates ::
      IsCandidateSet(candidates, l.micro + [lcm], maxBatch) && IsBest(plan.batch, plan.gpus, candidates, l)
  }

  /** A configuration has one plan, whatever order the set of candidates is tried in. */
  lemma PlanIsUnique(p: Plan, q: Plan, lcm: nat, maxBatch: nat, l: Limits)
    requires ValidLimits(l) && IsPlan(p, lcm, maxBatch, l) && IsPlan(q, lcm, maxBatch, l)
    ensures p == q
  {
    hide IsCandidateSet, IsBest;
    var s :| IsCandidateSet(s, l.micro + [lcm], maxBatch) && IsBest(p.batch, p.gpus, s, l);
    var t :| IsCandidateSet(t, l.micro + [lcm], maxBatch) && IsBest(q.batch, q.gpus, t, l);
    CandidatesFrom(s, t, l.micro + [lcm], maxBatch);
    CandidatesFrom(t, s, l.micro + [lcm], maxBatch);
    assert s == t;
    SelectionIsUnique(p.batch, p.gpus, q.batch, q.gpus, s, l);
  }

  ghost predicate Advertises(plan: Plan, world: nat) {
    plan.gpus.Some? && world in plan.gpus.value
  }

  /** `_get_compatible_gpus_v01`. */
  method GetCompatibleGpusV01(micro: seq<nat>, lcm: nat, maxBatch: nat, minGpus: nat, maxGpus: nat, preferLarger: bool)
    returns (r: Result<Plan>)
    requires MicroBatches(micro) && IsLcm(lcm, micro)
    ensures r.Ok? <==> forall m :: m in micro ==> m <= maxBatch
    ensures r.Ok? ==>
      r.value.batch > 0 && IsPlan(r.value, lcm, maxBatch, Effective(micro, maxBatch, minGpus, maxGpus, preferLarger))
    ensures r.Ok? && lcm <= maxBatch ==> r.value.batch <= maxBatch
  {
    var l := Effective(micro, maxBatch, minGpus, maxGpus, preferLarger);
    if exists m :: m in micro && m > maxBatch { return Error; }
    var bases := micro + [lcm];
    var candidates := GetCandidateBatchSizes(bases, maxBatch);
    CandidatesInRange(candidates, micro, lcm, maxBatch);
    var list := ListOf(candidates);
    assert forall i :: 0 <= i < |list| ==> list[i] in candidates;
    var batch, gpus := GetBestCandidates(list, l);
    assert ToSet(list) == candidates;
    r := Ok(Plan(batch, gpus));
  }

  lemma CandidatesInRange(candidates: set<nat>, micro: seq<nat>, lcm: nat, maxBatch: nat)
    requires MicroBatches(micro) && lcm > 0 && IsCandidateSet(candidates, micro + [lcm], maxBatch)
    requires forall m :: m in micro ==> m <= maxBatch
    ensures forall c :: c in candidates ==> c > 0 && (lcm <= maxBatch ==> c <= maxBatch)
  {
    var bases := micro + [lcm];
    forall c | c in candidates ensures c > 0 && (lcm <= maxBatch ==> c <= maxBatch) {
      assert FromSomeBase(c, bases, maxBatch);
      var i :| 0 <= i < |bases| && IsCandidate(c, bases[i], maxBatch);
      assert i < |micro| ==> bases[i] in micro;
      CandidateBounds(c, bases[i], maxBatch);
    }
  }

  /** The elements of a set, in some order. */
  method ListOf(s: set<nat>) returns (list: seq<nat>)
    ensures forall x :: x in list <==> x in s
  {
    list := [];
    var todo := s;
    while todo != {}
      invariant todo <= s && forall x :: x in list <==> x in s - todo
      decreases todo
    {
      var x :| x in todo;
      list := list + [x];
      todo := todo - {x};
    }
  }

  // ---------------------------------------------------------------------------------------------
  // Micro-batch selection
  // ---------------------------------------------------------------------------------------------

  /** m is the largest micro batch that divides the share of one of `world` GPUs. */
  ghost predicate LargestMicro(m: nat, share: nat, micro: seq<nat>)
    requires MicroBatches(micro)
  {
    m in micro && m > 0 && share % m == 0 &&
    forall i :: 0 <= i < |micro| && share % micro[i] == 0 ==> micro[i] <= m
  }

  /** The selection loop of `compute_elastic_config`: micro batches from large to small. */
  method PickMicroBatch(batch: nat, world: nat, micro: seq<nat>) returns (m: Option<nat>)
    requires MicroBatches(micro) && world > 0
    ensures m.None? <==> forall i :: 0 <= i < |micro| ==> (batch / world) % micro[i] != 0
    ensures m.Some? ==> LargestMicro(m.value, batch / world, micro)
  {
    var sorted := SortedSet(micro);
    var k := |sorted|;
    while k > 0
      invariant 0 <= k <= |sorted|
      invariant forall j ::
        k <= j < |sorted| ==> sorted[j] in micro && sorted[j] > 0 && (batch / world) % sorted[j] != 0
    {
      k := k - 1;
      assert sorted[k] in sorted;
      assert sorted[k] > 0 by { var i :| 0 <= i < |micro| && micro[i] == sorted[k]; }
      if (batch / world) % sorted[k] == 0 {
        forall i | 0 <= i < |micro| && (batch / world) % micro[i] == 0 ensures micro[i] <= sorted[k] {
          assert micro[i] in sorted;
        }
        return Some(sorted[k]);
      }
    }
    forall i | 0 <= i < |micro| ensures (batch / world) % micro[i] != 0 { assert micro[i] in sorted; }
    m := None;
  }

  ghost predicate IsProduct(batch: nat, m: nat, steps: nat, world: nat) {
    batch == m * steps * world
  }

  /** The batch is micro batch x accumulation steps x GPUs exactly, for some number of steps. */
  ghost predicate ExactDecomposition(batch: nat, m: nat, world: nat) {
    exists steps: nat :: IsProduct(batch, m, steps, world)
  }

  /** When the GPU count divides the batch, a micro batch divides one GPU's share exactly when it decomposes
      the batch. */
  lemma ShareDivides(batch: nat, m: nat, world: nat)
    requires m > 0 && world > 0 && batch % world == 0
    ensures (batch / world) % m == 0 <==> DecomposesWith(batch, m, world)
    ensures (batch / world) % m == 0 ==> ExactDecomposition(batch, m, world)
  {
    DividesProduct(batch, world, m);
    MulCommute(m, world);
    if (batch / world) % m == 0 {
      var steps := (batch / world) / m;
      assert batch / world == m * steps && batch == world * (batch / world);
      MulCommute(world, m * steps);
      assert IsProduct(batch, m, steps, world);
    }
  }

  lemma DecomposedByWorld(batch: nat, m: nat, world: nat)
    requires DecomposesWith(batch, m, world)
    ensures batch % world == 0 && (batch / world) % m == 0
  {
    MulCommute(m, world);
    DividesProduct(batch, world, m);
  }

  /** For a GPU count that decomposes the batch the selection succeeds: the batch is exactly micro batch x
      accumulation steps x GPUs, with the largest micro batch for which that is possible. */
  method MicroBatchForWorld(batch: nat, world: nat, micro: seq<nat>) returns (m: nat)
    requires MicroBatches(micro) && world > 0 && Decomposes(batch, micro, world)
    ensures m in micro && m > 0 && ExactDecomposition(batch, m, world)
    ensures forall i :: 0 <= i < |micro| && DecomposesWith(batch, micro[i], world) ==> micro[i] <= m
  {
    ghost var i :| 0 <= i < |micro| && DecomposesWith(batch, micro[i], world);
    DecomposedByWorld(batch, micro[i], world);
    var picked := PickMicroBatch(batch, world, micro);
    m := picked.value;
    ShareDivides(batch, m, world);
    forall k | 0 <= k < |micro| && DecomposesWith(batch, micro[k], world) ensures micro[k] <= m {
      DecomposedByWorld(batch, micro[k], world);
    }
  }

  datatype Config = Config(batch: nat, gpus: seq<nat>, micro: nat)

  /** What `compute_elastic_config` promises for a world size: it is advertised, and the batch is an exact product
      with the largest possible micro batch. */
  ghost predicate GoodConfig(c: Config, micro: seq<nat>, world: nat) {
    world in c.gpus && world > 0 && c.micro in micro && c.micro > 0 &&
    ExactDecomposition(c.batch, c.micro, world) &&
    forall i :: 0 <= i < |micro| && DecomposesWith(c.batch, micro[i], world) ==> micro[i] <= c.micro
  }

  /** `compute_elastic_config`, version 0.1 with a world size: succeeds exactly when no micro batch exceeds the
      maximum and the plan of the configuration advertises the world size. */
  method ComputeElasticConfigV01(micro: seq<nat>, lcm: nat, maxBatch: nat, minGpus: nat, maxGpus: nat,
                                 preferLarger: bool, world: nat)
    returns (r: Result<Config>)
    requires MicroBatches(micro) && IsLcm(lcm, micro) && world > 0
    ensures var l := Effective(micro, maxBatch, minGpus, maxGpus, preferLarger);
      r.Ok? <==>
        (forall m :: m in micro ==> m <= maxBatch) &&
          exists plan :: IsPlan(plan, lcm, maxBatch, l) && Advertises(plan, world)
    ensures var l := Effective(micro, maxBatch, minGpus, maxGpus, preferLarger);
      r.Ok? ==>
        IsPlan(Plan(r.value.batch, Some(r.value.gpus)), lcm, maxBatch, l) && GoodConfig(r.value, micro, world) &&
        l.minGpus <= world <= l.maxGpus
  {
    hide IsPlan, Decomposes, DecomposesWith, ExactDecomposition, IsLcm;
    ghost var l := Effective(micro, maxBatch, minGpus, maxGpus, preferLarger);
    var found := GetCompatibleGpusV01(micro, lcm, maxBatch, minGpus, maxGpus, preferLarger);
    if found.Error? { return Error; }
    forall plan | IsPlan(plan, lcm, maxBatch, l) ensures plan == found.value {
      PlanIsUnique(plan, found.value, lcm, maxBatch, l);
    }
    if found.value.gpus.None? { return Error; }
    var batch, gpus := found.value.batch, found.value.gpus.value;
    if world !in gpus { return Error; }
    assert Advertises(found.value, world);
    AdvertisedDecompose(found.value, lcm, maxBatch, l, world);
    var m := MicroBatchForWorld(batch, world, micro);
    r := Ok(Config(batch, gpus, m));
  }

  /** Every advertised GPU count of a plan decomposes its batch and lies in the limits. */
  lemma AdvertisedDecompose(plan: Plan, lcm: nat, maxBatch: nat, l: Limits, world: nat)
    requires ValidLimits(l) && IsPlan(plan, lcm, maxBatch, l) && plan.gpus.Some? && world in plan.gpus.value
    ensures Decomposes(plan.batch, l.micro, world) && l.minGpus <= world <= l.maxGpus
  {
    var candidates :| IsCandidateSet(candidates, l.micro + [lcm], maxBatch) &&
      IsBest(plan.batch, plan.gpus, candidates, l);
  }

  // ---------------------------------------------------------------------------------------------
  // Version 0.2 with model-parallel size 1, on its first return path
  // ---------------------------------------------------------------------------------------------

  function Times(a: nat, b: nat): nat {
    ProductSign(a + 1, b + 1);
    a * b
  }

  /** The values scaled from nodes to GPUs. */
  method Scaled(s: seq<nat>, k: nat) returns (r: seq<nat>)
    ensures AreScaled(r, s, k)
  {
    r := [];
    for i := 0 to |s|
      invariant AreScaled(r, s[..i], k)
    {
      r := r + [Times(s[i], k)];
    }
    assert s[..|s|] == s;
  }

  lemma ScaledDecomposes(batch: nat, micro: seq<nat>, nodes: nat, perNode: nat)
    requires perNode > 0 && Decomposes(batch, micro, nodes)
    ensures Decomposes(batch * perNode, micro, nodes * perNode)
  {
    hide DecomposesWith;
    var i :| 0 <= i < |micro| && DecomposesWith(batch, micro[i], nodes);
    ScaledWith(batch, micro[i], nodes, perNode);
  }

  lemma ScaledWith(batch: nat, m: nat, nodes: nat, perNode: nat)
    requires perNode > 0 && DecomposesWith(batch, m, nodes)
    ensures DecomposesWith(batch * perNode, m, nodes * perNode)
  {
    ProductSign(m, nodes);
    ProductSign(nodes, perNode);
    ProductSign(m, nodes * perNode);
    MulAssoc(m, nodes, perNode);
    ScaledMultiple(batch, m * nodes, perNode);
  }

  lemma ScaledMultiple(n: nat, d: nat, k: nat)
    requires d > 0 && k > 0 && n % d == 0
    ensures d * k > 0 && (n * k) % (d * k) == 0
  {
    var q := n / d;
    ProductSign(d, k);
    assert n == q * d by { MulCommute(q, d); }
    MulAssoc(q, d, k);
    DivModUnique(n * k, d * k, q, 0);
  }

  /** `get_microbatch`: the first micro batch that divides a GPU's share, or the largest when larger ones are
      preferred. */
  method GetMicrobatch(batch: nat, current: nat, micro: seq<nat>, preferLarger: bool) returns (m: Option<nat>)
    requires MicroBatches(micro) && current > 0
    ensures m.None? <==> forall i :: 0 <= i < |micro| ==> (batch / current) % micro[i] != 0
    ensures m.Some? ==> m.value in micro && m.value > 0 && (batch / current) % m.value == 0
    ensures m.Some? && preferLarger ==> LargestMicro(m.value, batch / current, micro)
    ensures m.Some? && !preferLarger ==>
      exists i ::
        0 <= i < |micro| && micro[i] == m.value && forall k :: 0 <= k < i ==> (batch / current) % micro[k] != 0
  {
    m := None;
    for i := 0 to |micro|
      invariant m.None? <==> forall k :: 0 <= k < i ==> (batch / current) % micro[k] != 0
      invariant m.Some? ==> m.value in micro && m.value > 0 && (batch / current) % m.value == 0
      invariant m.Some? && preferLarger ==>
        forall k :: 0 <= k < i && (batch / current) % micro[k] == 0 ==> micro[k] <= m.value
      invariant m.Some? && !preferLarger ==>
        exists j :: 0 <= j < i && micro[j] == m.value && forall k :: 0 <= k < j ==> (batch / current) % micro[k] != 0
    {
      if (batch / current) % micro[i] == 0 {
        if m.None? { m := Some(micro[i]); }
        if preferLarger && m.value < micro[i] { m := Some(micro[i]); }
      }
    }
  }

  /** `get_microbatch` for a GPU count that decomposes the batch. */
  method GetMicrobatchFor(batch: nat, current: nat, micro: seq<nat>, preferLarger: bool) returns (m: nat)
    requires MicroBatches(micro) && current > 0 && Decomposes(batch, micro, current)
    ensures m in micro && m > 0 && ExactDecomposition(batch, m, current)
    ensures preferLarger ==> forall i :: 0 <= i < |micro| && DecomposesWith(batch, micro[i], current) ==> micro[i] <= m
  {
    ghost var i :| 0 <= i < |micro| && DecomposesWith(batch, micro[i], current);
    DecomposedByWorld(batch, micro[i], current);
    var found := GetMicrobatch(batch, current, micro, preferLarger);
    m := found.value;
    ShareDivides(batch, m, current);
    forall k | 0 <= k < |micro| && DecomposesWith(batch, micro[k], current) ensures (batch / current) % micro[k] == 0 {
      DecomposedByWorld(batch, micro[k], current);
    }
  }

  lemma ScaledPlan(plan: Plan, lcm: nat, maxBatch: nat, l: Limits, gpus: seq<nat>, perNode: nat, g: nat)
    requires ValidLimits(l) && IsPlan(plan, lcm, maxBatch, l) && plan.gpus.Some? && perNode > 0
    requires AreScaled(gpus, plan.gpus.value, perNode)
    requires g in gpus
    ensures Decomposes(Times(plan.batch, perNode), l.micro, g)
  {
    var i :| 0 <= i < |gpus| && gpus[i] == g;
    var nodes := plan.gpus.value[i];
    AdvertisedDecompose(plan, lcm, maxBatch, l, nodes);
    ScaledDecomposes(plan.batch, l.micro, nodes, perNode);
  }

  /** The GPU counts are the node counts scaled by the GPUs per node. */
  ghost predicate AreScaled(gpus: seq<nat>, nodes: seq<nat>, perNode: nat) {
    |gpus| == |nodes| && forall i :: 0 <= i < |gpus| ==> gpus[i] == Times(nodes[i], perNode)
  }

  /** The result is the node-level plan scaled up; it is given exactly when the current count is advertised. */
  ghost predicate ScalesPlan(r: Option<Config>, plan: Plan, perNode: nat, current: nat)
    requires plan.gpus.Some?
  {
    match r
    case None => forall i :: 0 <= i < |plan.gpus.value| ==> Times(plan.gpus.value[i], perNode) != current
    case Some(c) => c.batch == Times(plan.batch, perNode) && AreScaled(c.gpus, plan.gpus.value, perNode)
  }

  /** `_get_compatible_gpus_v02` once the limits are expressed in nodes. */
  method GpusFromNodes(micro: seq<nat>, lcm: nat, nodeBatch: nat, current: nat, minNodes: nat, maxNodes: nat,
                       preferLarger: bool, perNode: nat)
    returns (r: Result<Option<Config>>, ghost plan: Result<Plan>)
    requires MicroBatches(micro) && IsLcm(lcm, micro) && current > 0 && perNode > 0
    ensures plan.Ok? <==> forall m :: m in micro ==> m <= nodeBatch
    ensures plan.Ok? ==>
      IsPlan(plan.value, lcm, nodeBatch, Effective(micro, nodeBatch, minNodes, maxNodes, preferLarger))
    ensures r.Ok? <==> plan.Ok? && plan.value.gpus.Some?
    ensures r.Ok? ==> ScalesPlan(r.value, plan.value, perNode, current)
    ensures plan.Ok? && lcm <= nodeBatch ==> plan.value.batch <= nodeBatch
    ensures r.Ok? && r.value.Some? ==>
      var c := r.value.value;
      current in c.gpus && c.micro in micro && c.micro > 0 && ExactDecomposition(c.batch, c.micro, current) &&
      (preferLarger ==> GoodConfig(c, micro, current)) &&
      forall g :: g in c.gpus ==> Decomposes(c.batch, micro, g)
  {
    hide IsPlan, Decomposes, DecomposesWith, ExactDecomposition, IsLcm, Times, IsBest;
    var found := GetCompatibleGpusV01(micro, lcm, nodeBatch, minNodes, maxNodes, preferLarger);
    plan := found;
    if found.Error? || found.value.gpus.None? { return Error, plan; }
    ghost var l := Effective(micro, nodeBatch, minNodes, maxNodes, preferLarger);
    var batch := Times(found.value.batch, perNode);
    var gpus := Scaled(found.value.gpus.value, perNode);
    forall g | g in gpus ensures Decomposes(batch, micro, g) {
      ScaledPlan(found.value, lcm, nodeBatch, l, gpus, perNode, g);
    }
    if current !in gpus {
      assert forall i :: 0 <= i < |gpus| ==> gpus[i] in gpus;
      return Ok(None), plan;
    }
    var m := GetMicrobatchFor(batch, current, micro, preferLarger);
    r := Ok(Some(Config(batch, gpus, m)));
  }

  /** When the advertised counts respect the GPU limits, which are divided by the GPUs per node and rounded down: the
      upper one exactly when it allows one node, the lower one exactly when it allows one node, is a whole number of
      nodes, or its rounded-down node count is not advertised. */
  ghost predicate LimitsKept(gpus: seq<nat>, minGpus: nat, maxGpus: nat, perNode: nat)
    requires perNode > 0
  {
    ((forall g :: g in gpus ==> g <= maxGpus) <==> gpus == [] || perNode <= maxGpus) &&
    ((forall g :: g in gpus ==> minGpus <= g) <==>
     minGpus <= perNode || minGpus % perNode == 0 || Times(minGpus / perNode, perNode) !in gpus)
  }

  /** Node counts in the node limits, as GPU counts. */
  lemma ScaledLimits(nodes: nat, minNodes: nat, maxNodes: nat, minGpus: nat, maxGpus: nat, perNode: nat)
    requires perNode > 0 && minNodes <= nodes <= maxNodes &&
      minNodes == (if minGpus / perNode == 0 then 1 else minGpus / perNode)
    requires maxGpus / perNode > 0 ==> maxNodes == maxGpus / perNode
    ensures Times(nodes, perNode) <= maxGpus <==> perNode <= maxGpus
    ensures minGpus <= Times(nodes, perNode) <==>
      minGpus <= perNode || minGpus % perNode == 0 || nodes != minGpus / perNode
  {
    AtMostQuotient(1, maxGpus, perNode);
    AtMostQuotient(nodes, maxGpus, perNode);
    Distribute(nodes, 1, perNode);
    ProductSign(nodes - 1, perNode);
    LeastNodes(nodes, minGpus, perNode);
  }

  lemma LeastNodes(nodes: nat, minGpus: nat, perNode: nat)
    requires perNode > 0 && nodes > 0 && nodes >= minGpus / perNode
    ensures minGpus <= nodes * perNode <==> minGpus <= perNode || minGpus % perNode == 0 || nodes != minGpus / perNode
  {
    var q := minGpus / perNode;
    assert minGpus == q * perNode + minGpus % perNode by { MulCommute(q, perNode); }
    Distribute(nodes, q, perNode);
    ProductSign(nodes - q, perNode);
    Distribute(nodes, 1, perNode);
    ProductSign(nodes - 1, perNode);
  }

  /** The advertised counts of a node-level plan respect the GPU limits exactly under those conditions. */
  lemma PlanKeepsLimits(plan: Plan, lcm: nat, nodeBatch: nat, micro: seq<nat>, minGpus: nat, maxGpus: nat,
                        preferLarger: bool, perNode: nat, gpus: seq<nat>)
    requires MicroBatches(micro) && perNode > 0 && plan.gpus.Some? && AreScaled(gpus, plan.gpus.value, perNode)
    requires IsPlan(plan, lcm, nodeBatch,
      Effective(micro, nodeBatch, minGpus / perNode, maxGpus / perNode, preferLarger))
    ensures LimitsKept(gpus, minGpus, maxGpus, perNode)
  {
    hide Times, IsPlan;
    var l := Effective(micro, nodeBatch, minGpus / perNode, maxGpus / perNode, preferLarger);
    var nodes := plan.gpus.value;
    forall k | 0 <= k < |gpus|
      ensures gpus[k] <= maxGpus <==> perNode <= maxGpus
      ensures minGpus <= gpus[k] <==> minGpus <= perNode || minGpus % perNode == 0 || nodes[k] != minGpus / perNode
    {
      AdvertisedDecompose(plan, lcm, nodeBatch, l, nodes[k]);
      ScaledLimits(nodes[k], l.minGpus, l.maxGpus, minGpus, maxGpus, perNode);
    }
    assert gpus != [] ==> gpus[0] in gpus;
    LowestNode(gpus, nodes, minGpus, perNode);
  }

  lemma LowestNode(gpus: seq<nat>, nodes: seq<nat>, minGpus: nat, perNode: nat)
    requires perNode > 0 && AreScaled(gpus, nodes, perNode)
    requires forall k :: 0 <= k < |gpus| ==>
      (minGpus <= gpus[k] <==> minGpus <= perNode || minGpus % perNode == 0 || nodes[k] != minGpus / perNode)
    ensures (forall g :: g in gpus ==> minGpus <= g) <==>
      minGpus <= perNode || minGpus % perNode == 0 || Times(minGpus / perNode, perNode) !in gpus
  {
    var q := minGpus / perNode;
    if Times(q, perNode) in gpus {
      var k :| 0 <= k < |gpus| && gpus[k] == Times(q, perNode);
      SameFactor(nodes[k], q, perNode);
      assert gpus[k] in gpus;
    } else {
      forall k | 0 <= k < |gpus| ensures nodes[k] != q { assert gpus[k] in gpus; }
    }
  }

  lemma SameFactor(a: nat, b: nat, d: nat)
    requires d > 0 && Times(a, d) == Times(b, d)
    ensures a == b
  {
    Distribute(a, b, d);
    ProductSign(a - b, d);
  }

  /** Both limits can be left. With 8 GPUs a node and at least 1 and at most 4 asked for, 8 and 16 are advertised;
      with at least 12 and at most 16 asked for, so are they. */
  lemma LimitsLeft()
    ensures MicroBatches([1]) && IsLcm(1, [1]) && AreScaled([8, 16], [1, 2], 8)
    ensures IsPlan(Plan(2, Some([1, 2])), 1, 16 / 8, Effective([1], 16 / 8, 1 / 8, 4 / 8, true))
    ensures IsPlan(Plan(2, Some([1, 2])), 1, 16 / 8, Effective([1], 16 / 8, 12 / 8, 16 / 8, true))
  {
    hide IsCandidateSet, IsBest;
    var l := Limits([1], 1, 2, true);
    assert [1] + [1] == [1, 1];
    OnlyTwo();
    TwoIsBest(l);
  }

  lemma TwoIsCandidate()
    ensures IsCandidate(2, 1, 2)
  {
    assert HCN_LIST[1] * 1 == 2;
  }

  lemma OnlyTwo()
    ensures IsCandidateSet({2}, [1, 1], 2)
  {
    hide IsCandidate;
    TwoIsCandidate();
    assert FromSomeBase(2, [1, 1], 2) by { assert IsCandidate(2, [1, 1][0], 2); }
    assert HasCandidate({2}, 1, 2);
  }

  lemma TwoIsBest(l: Limits)
    requires l == Limits([1], 1, 2, true)
    ensures IsBest(2, Some([1, 2]), {2}, l)
  {
    forall g: nat ensures g in [1, 2] <==> 1 <= g <= 2 && Decomposes(2, [1], g) {
      if 1 <= g <= 2 { assert DecomposesWith(2, [1][0], g); }
    }
    ValidCount([1, 2], 2, l);
  }

  /** `_get_compatible_gpus_v02`. An error is raised exactly when version 0.1 fails at node level or selects
      nothing; None stands for the floating-point path taken when the current GPU count is not advertised.
      Otherwise every advertised count decomposes the batch, a micro batch is found, and the GPU limits are kept under
      the conditions above. */
  method GetCompatibleGpusV02(micro: seq<nat>, lcm: nat, maxBatch: nat, current: nat, minGpus: nat, maxGpus: nat,
                              preferLarger: bool, perNode: nat)
    returns (r: Result<Option<Config>>, ghost plan: Result<Plan>)
    requires MicroBatches(micro) && IsLcm(lcm, micro) && current > 0 && perNode > 0
    ensures plan.Ok? <==> forall m :: m in micro ==> m <= maxBatch / perNode
    ensures plan.Ok? ==>
      IsPlan(plan.value, lcm, maxBatch / perNode,
        Effective(micro, maxBatch / perNode, minGpus / perNode, maxGpus / perNode, preferLarger))
    ensures r.Ok? <==> plan.Ok? && plan.value.gpus.Some?
    ensures r.Ok? ==> ScalesPlan(r.value, plan.value, perNode, current)
    ensures r.Ok? && r.value.Some? ==>
      var c := r.value.value;
      current in c.gpus && c.micro in micro && c.micro > 0 && ExactDecomposition(c.batch, c.micro, current) &&
      (preferLarger ==> GoodConfig(c, micro, current)) &&
      forall g :: g in c.gpus ==> Decomposes(c.batch, micro, g)
    ensures r.Ok? && r.value.Some? ==> LimitsKept(r.value.value.gpus, minGpus, maxGpus, perNode)
    ensures r.Ok? && r.value.Some? && lcm <= maxBatch / perNode ==> r.value.value.batch <= maxBatch
  {
    hide IsPlan, Decomposes, DecomposesWith, ExactDecomposition, IsLcm, Times, LimitsKept, GoodConfig, Effective;
    r, plan := GpusFromNodes(micro, lcm, maxBatch / perNode, current, minGpus / perNode, maxGpus / perNode,
      preferLarger, perNode);
    if r.Ok? && r.value.Some? {
      PlanKeepsLimits(plan.value, lcm, maxBatch / perNode, micro, minGpus, maxGpus, preferLarger, perNode,
        r.value.value.gpus);
      ScaledBatch(plan.value.batch, maxBatch, perNode);
    }
  }

  lemma ScaledBatch(nodeBatch: nat, maxBatch: nat, perNode: nat)
    requires perNode > 0
    ensures nodeBatch <= maxBatch / perNode ==> Times(nodeBatch, perNode) <= maxBatch
  {
    AtMostQuotient(nodeBatch, maxBatch, perNode);
  }
}
