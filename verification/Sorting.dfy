/** `list.sort` on slot numbers. */
module Sorting {

  ghost predicate Ordered(s: seq<nat>) {
    forall i, j :: 0 <= i < j < |s| ==> s[i] <= s[j]
  }

  function Insert(s: seq<nat>, x: nat): (r: seq<nat>)
    ensures multiset(r) == multiset(s) + multiset{x} && |r| == |s| + 1
    ensures Ordered(s) ==> Ordered(r)
  {
    if s == [] then [x]
    else
      assert s == [s[0]] + s[1..];
      if x <= s[0] then [x] + s
      else
        var rest := Insert(s[1..], x);
        InsertKeepsOrder(s, rest, x);
        [s[0]] + rest
  }

  lemma InsertKeepsOrder(s: seq<nat>, rest: seq<nat>, x: nat)
    requires s != [] && x > s[0] && multiset(rest) == multiset(s[1..]) + multiset{x}
    ensures Ordered(s) && Ordered(rest) ==> Ordered([s[0]] + rest)
  {
    if Ordered(s) && Ordered(rest) {
      forall j | 0 <= j < |rest| ensures s[0] <= rest[j] {
        assert rest[j] in multiset(rest);
        if rest[j] != x {
          assert rest[j] in multiset(s[1..]);
          var k :| 0 <= k < |s[1..]| && s[1..][k] == rest[j];
          assert s[k + 1] == rest[j];
        }
      }
    }
  }

  /** The ordered list with the same elements. */
  function Sort(s: seq<nat>): (r: seq<nat>)
    ensures Ordered(r) && multiset(r) == multiset(s) && |r| == |s|
  {
    if s == [] then []
    else
      assert s == [s[0]] + s[1..];
      Insert(Sort(s[1..]), s[0])
  }
}
