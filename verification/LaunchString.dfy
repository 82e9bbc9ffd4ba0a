/** The include string a launched experiment is started with, and what the launcher makes of it:
    run_experiment of deepspeed/autotuning/scheduler.py and deepspeed/launcher/runner.py. */
module LaunchString {
  import opened ResourceFilter
  import opened Scheduler
  import opened Sequences
  import opened Sorting
  import opened Text
  import opened Wrappers

  /** Slots of a host, as a reservation prints them. */
  datatype Share = Share(host: string, slots: seq<nat>)

  function Numerals(slots: seq<nat>): (texts: seq<string>)
    ensures |texts| == |slots| && forall k :: 0 <= k < |slots| ==> texts[k] == NatToString(slots[k])
  {
    seq(|slots|, k requires 0 <= k < |slots| => NatToString(slots[k]))
  }

  function NodeText(share: Share): string {
    share.host + ":" + Join(Numerals(share.slots), ',')
  }

  ghost function NodeTexts(shares: seq<Share>): (texts: seq<string>)
    ensures |texts| == |shares| && forall k :: 0 <= k < |shares| ==> texts[k] == NodeText(shares[k])
  {
    seq(|shares|, k requires 0 <= k < |shares| => NodeText(shares[k]))
  }

  ghost function IncludeString(shares: seq<Share>): string {
    Join(NodeTexts(shares), '@')
  }

  ghost function SharesOf(claims: seq<Claim>): (shares: seq<Share>)
    ensures |shares| == |claims| &&
      forall k :: 0 <= k < |claims| ==> shares[k] == Share(claims[k].node.host, claims[k].slots)
  {
    seq(|claims|, k requires 0 <= k < |claims| => Share(claims[k].node.host, claims[k].slots))
  }

  // ---------------------------------------------------------------------------------------------
  // Printing
  // ---------------------------------------------------------------------------------------------

  /** The node texts, each followed by the separator. */
  ghost function Trailed(shares: seq<Share>): string {
    if shares == [] then "" else Trailed(shares[..|shares| - 1]) + NodeText(shares[|shares| - 1]) + "@"
  }

  lemma {:induction false} TrailedIsJoined(shares: seq<Share>)
    requires shares != []
    ensures Trailed(shares) == IncludeString(shares) + "@"
  {
    hide NodeText;
    var n := |shares| - 1;
    var texts := NodeTexts(shares);
    if n > 0 {
      TrailedIsJoined(shares[..n]);
      JoinGrows(NodeTexts(shares[..n]), texts[n], '@');
      assert texts == NodeTexts(shares[..n]) + [texts[n]];
    } else {
      assert Trailed(shares[..0]) == "";
      JoinOne(texts[0], '@');
      assert texts == [texts[0]];
    }
  }

  /** The first lines of `run_experiment`: sorts the slots of every reservation, prints `host:slots@` for each,
      and cuts off the last character. */
  method PrintInclude(rs: seq<Reservation>) returns (text: string)
    requires NoDup(rs)
    modifies rs
    ensures SortedClaims(ClaimsOf(rs), old(ClaimsOf(rs)))
    ensures text == IncludeString(SharesOf(ClaimsOf(rs)))
  {
    hide Sort, NodeText, Join;
    text := "";
    ghost var shares: seq<Share> := [];
    for k := 0 to |rs|
      invariant forall j :: 0 <= j < k ==> rs[j].slots == Sort(old(rs[j].slots))
      invariant forall j :: k <= j < |rs| ==> rs[j].slots == old(rs[j].slots)
      invariant |shares| == k && forall j :: 0 <= j < k ==> shares[j] == Share(rs[j].node.host, rs[j].slots)
      invariant text == Trailed(shares)
    {
      rs[k].slots := Sort(rs[k].slots);
      var share := Share(rs[k].node.host, rs[k].slots);
      text := text + NodeText(share) + "@";
      assert (shares + [share])[..k] == shares;
      shares := shares + [share];
    }
    assert shares == SharesOf(ClaimsOf(rs));
    if rs == [] {
      NothingToPrint(shares);
    } else {
      TrailedIsJoined(shares);
      text := text[..|text| - 1];
    }
  }

  lemma NothingToPrint(shares: seq<Share>)
    requires shares == []
    ensures IncludeString(shares) == ""
  {
  }

  // ---------------------------------------------------------------------------------------------
  // Parsing back
  // ---------------------------------------------------------------------------------------------

  lemma DigitsFreeOf(text: string, c: char)
    requires AllDigits(text) && !IsDigit(c)
    ensures c !in text
  {
  }

  lemma NumeralsFreeOf(slots: seq<nat>, c: char)
    requires !IsDigit(c)
    ensures FreeOf(Numerals(slots), c)
  {
    forall k | 0 <= k < |slots| ensures c !in Numerals(slots)[k] { DigitsFreeOf(NatToString(slots[k]), c); }
  }

  lemma ParsePrintedSlots(slots: seq<nat>)
    requires slots != []
    ensures ParseSlots(Split(Join(Numerals(slots), ','), ',')) == Good(slots)
  {
    hide Split, Join, ParseInt, NatToString, ParseSlots;
    NumeralsFreeOf(slots, ',');
    SplitOfJoin(Numerals(slots), ',');
    forall k | 0 <= k < |slots| ensures ParseInt(Numerals(slots)[k]) == Some(slots[k]) { ParsePrinted(slots[k]); }
    var parsed := ParseSlots(Numerals(slots));
    assert parsed.Good? && parsed.value == slots;
  }

  /** A printed reservation is read as the slots of its host. */
  lemma ParsePrintedNode(share: Share)
    requires ':' !in share.host && share.slots != []
    ensures ParseNode(NodeText(share)) == Good(Slots(share.host, share.slots))
  {
    hide Split, Join, ParseSlots, Numerals;
    var slots := Join(Numerals(share.slots), ',');
    var text := NodeText(share);
    assert text == share.host + [':'] + slots && text[|share.host|] == ':';
    NumeralsFreeOf(share.slots, ':');
    JoinFreeOf(Numerals(share.slots), ',', ':');
    SplitFirst(share.host, ':', slots);
    SplitSingle(slots, ':');
    ParsePrintedSlots(share.slots);
  }

  lemma NodeTextFreeOf(share: Share)
    requires '@' !in share.host
    ensures '@' !in NodeText(share)
  {
    hide Join, Numerals;
    NumeralsFreeOf(share.slots, '@');
    JoinFreeOf(Numerals(share.slots), ',', '@');
  }

  /** The shares can be printed so that they are read back: host names without '@' and ':', and slots. */
  ghost predicate Printable(shares: seq<Share>) {
    shares != [] && forall k :: 0 <= k < |shares| ==>
      '@' !in shares[k].host && ':' !in shares[k].host && shares[k].slots != []
  }

  lemma SplitIncludeString(shares: seq<Share>)
    requires Printable(shares)
    ensures Split(IncludeString(shares), '@') == NodeTexts(shares) && IncludeString(shares) != ""
  {
    hide Split, Join, NodeText;
    var texts := NodeTexts(shares);
    forall k | 0 <= k < |texts| ensures '@' !in texts[k] { NodeTextFreeOf(shares[k]); }
    SplitOfJoin(texts, '@');
    if IncludeString(shares) == "" {
      SplitSingle("", '@');
      ParsePrintedNode(shares[0]);
      assert texts[0] == "";
      assert NodeText(shares[0]) == "";
      NotEmptyNode(shares[0]);
    }
  }

  lemma NotEmptyNode(share: Share)
    ensures NodeText(share) != ""
  {
    hide Join, Numerals;
    assert |NodeText(share)| >= |share.host| + 1;
  }

  ghost predicate DistinctHosts(shares: seq<Share>) {
    forall a, b :: 0 <= a < b < |shares| ==> shares[a].host != shares[b].host
  }

  /** The shares are distinct slots that known hosts have. */
  ghost predicate Offered(info: seq<Host>, shares: seq<Share>) {
    forall k :: 0 <= k < |shares| ==>
      Find(info, shares[k].host).Some? && NoDup(shares[k].slots) &&
      forall x :: x in shares[k].slots ==> x in SlotsAt(info, shares[k].host)
  }

  lemma PrintedAreGood(info: seq<Host>, shares: seq<Share>)
    requires Printable(shares) && Offered(info, shares)
    ensures GoodSpecs(info, NodeTexts(shares))
  {
    hide NodeText, ParseNode, Find;
    forall k | 0 <= k < |shares| ensures GoodSpec(info, NodeTexts(shares)[k]) { ParsePrintedNode(shares[k]); }
  }

  lemma {:induction false} LastPrinted(info: seq<Host>, shares: seq<Share>, k: nat)
    requires Printable(shares) && DistinctHosts(shares) && k < |shares|
    ensures LastNamed(info, NodeTexts(shares), shares[k].host) == shares[k].slots
  {
    hide NodeText, ParseNode, Find;
    var n := |shares| - 1;
    ParsePrintedNode(shares[n]);
    if k < n {
      LastPrinted(info, shares[..n], k);
      assert NodeTexts(shares)[..n] == NodeTexts(shares[..n]);
    }
  }

  lemma {:induction false} NonePrinted(info: seq<Host>, shares: seq<Share>, name: string)
    requires shares != [] ==> Printable(shares)
    requires forall k :: 0 <= k < |shares| ==> shares[k].host != name
    ensures LastNamed(info, NodeTexts(shares), name) == []
  {
    hide NodeText, ParseNode, Find;
    if shares != [] {
      var n := |shares| - 1;
      ParsePrintedNode(shares[n]);
      NonePrinted(info, shares[..n], name);
      assert NodeTexts(shares)[..n] == NodeTexts(shares[..n]);
    }
  }

  /** The launcher reads a printed include string as exactly the printed slots of the printed hosts, in
      `host_info` order. */
  lemma RoundTrip(info: seq<Host>, shares: seq<Share>)
    requires DistinctNames(info) && Printable(shares) && DistinctHosts(shares) && Offered(info, shares)
    ensures Filtered(info, IncludeString(shares), "").Good?
    ensures
      var result := Filtered(info, IncludeString(shares), "").value;
      Tidy(result, info) &&
      (forall k :: 0 <= k < |shares| ==> SlotsAt(result, shares[k].host) == shares[k].slots) &&
      forall p :: 0 <= p < |info| && (forall k :: 0 <= k < |shares| ==> shares[k].host != info[p].name) ==>
        SlotsAt(result, info[p].name) == []
  {
    hide Split, Join, Filtered, LastNamed, GoodSpecs, NodeText, Tidy, Find, SlotsAt;
    var text, texts := IncludeString(shares), NodeTexts(shares);
    SplitIncludeString(shares);
    PrintedAreGood(info, shares);
    IncludeMeaning(info, text);
    forall k | 0 <= k < |shares| ensures SlotsAt(Filtered(info, text, "").value, shares[k].host) == shares[k].slots {
      FindNamed(info, shares[k].host);
      var p :| 0 <= p < |info| && info[p].name == shares[k].host;
      LastPrinted(info, shares, k);
      UniqueSame(shares[k].slots);
      assert SlotsAt(Filtered(info, text, "").value, info[p].name) == Unique(LastNamed(info, texts, info[p].name));
    }
    forall p | 0 <= p < |info| && (forall k :: 0 <= k < |shares| ==> shares[k].host != info[p].name)
      ensures SlotsAt(Filtered(info, text, "").value, info[p].name) == []
    {
      NonePrinted(info, shares, info[p].name);
      UniqueSame([]);
      assert SlotsAt(Filtered(info, text, "").value, info[p].name) == Unique(LastNamed(info, texts, info[p].name));
    }
  }

  /** The nodes of a manager are hosts of the launcher that have the slots below the manager's count. */
  ghost predicate Hosted(nodes: seq<Node>, info: seq<Host>) {
    (forall a, b :: 0 <= a < b < |nodes| ==> nodes[a].host != nodes[b].host) &&
    forall p :: 0 <= p < |nodes| ==>
      Find(info, nodes[p].host).Some? && '@' !in nodes[p].host && ':' !in nodes[p].host &&
      forall x :: 0 <= x < nodes[p].maxSlots ==> x in SlotsAt(info, nodes[p].host)
  }

  lemma SharesAreOffered(nodes: seq<Node>, l: Launch, info: seq<Host>)
    requires SoundLaunch(l, nodes) && Hosted(nodes, info) && l.claims != []
    ensures Printable(SharesOf(l.claims)) && DistinctHosts(SharesOf(l.claims)) && Offered(info, SharesOf(l.claims))
  {
    hide Find, SlotsAt;
    var claims := l.claims;
    forall k | 0 <= k < |claims| ensures exists p :: 0 <= p < |nodes| && nodes[p] == claims[k].node {
      assert claims[k].node in nodes;
    }
  }

  /** Every sound launch reaches the launcher unchanged: it is started on exactly the slots it reserved. */
  lemma LaunchReachesItsSlots(nodes: seq<Node>, l: Launch, info: seq<Host>)
    requires SoundLaunch(l, nodes) && DistinctNames(info) && Hosted(nodes, info) && l.claims != []
    ensures Filtered(info, IncludeString(SharesOf(l.claims)), "").Good?
    ensures
      var result := Filtered(info, IncludeString(SharesOf(l.claims)), "").value;
      Tidy(result, info) &&
      (forall k :: 0 <= k < |l.claims| ==> SlotsAt(result, l.claims[k].node.host) == l.claims[k].slots) &&
      forall p :: 0 <= p < |info| && (forall k :: 0 <= k < |l.claims| ==> l.claims[k].node.host != info[p].name) ==>
        SlotsAt(result, info[p].name) == []
  {
    hide SoundLaunch, Hosted, Filtered, IncludeString, Tidy, SlotsAt, Find;
    SharesAreOffered(nodes, l, info);
    var shares := SharesOf(l.claims);
    RoundTrip(info, shares);
    var result := Filtered(info, IncludeString(shares), "").value;
    forall k | 0 <= k < |l.claims| ensures SlotsAt(result, l.claims[k].node.host) == l.claims[k].slots {
      assert shares[k] == Share(l.claims[k].node.host, l.claims[k].slots);
    }
  }

  // ---------------------------------------------------------------------------------------------
  // A host named twice
  // ---------------------------------------------------------------------------------------------

  /** The condition for sharing out is needed: a host named twice keeps only the later slots when included and
      none when excluded. */
  lemma NamedTwice(name: string)
    requires ':' !in name && '@' !in name
    ensures
      var info, text := [Host(name, [0, 1])], IncludeString([Share(name, [0]), Share(name, [1])]);
      Filtered(info, text, "") == Good([Host(name, [1])]) && Filtered(info, "", text) == Good([])
  {
    hide NodeText, Join, Split, ParseNode;
    var shares := [Share(name, [0]), Share(name, [1])];
    var info, texts := [Host(name, [0, 1])], NodeTexts(shares);
    SplitIncludeString(shares);
    ParsePrintedNode(shares[0]);
    ParsePrintedNode(shares[1]);
    assert texts[..1] == [texts[0]] && texts[..1][..0] == [];
    assert info[..0] == [];
    TwiceIncluded(info, texts, name);
    TwiceExcluded(info, texts, name);
  }

  lemma SelectOne(name: string, filtered: map<string, seq<int>>)
    ensures var info := [Host(name, [0, 1])]; var slots := Unique(At(filtered, name));
      Select(info, filtered) == if slots == [] then [] else [Host(name, slots)]
  {
    hide Unique;
    assert [Host(name, [0, 1])][..0] == [];
  }

  lemma TwiceIncluded(info: seq<Host>, texts: seq<string>, name: string)
    requires info == [Host(name, [0, 1])] && |texts| == 2
    requires ParseNode(texts[0]) == Good(Slots(name, [0])) && ParseNode(texts[1]) == Good(Slots(name, [1]))
    ensures ApplyAll(info, true, texts, map[]).Good? &&
      Select(info, ApplyAll(info, true, texts, map[]).value) == [Host(name, [1])]
  {
    hide ParseNode, ApplyAll, Select;
    assert SlotsAt(info, name) == [0, 1];
    forall k | 0 <= k < 2 ensures GoodSpec(info, texts[k]) {}
    IncludeAll(info, texts);
    SelectOne(name, ApplyAll(info, true, texts, map[]).value);
    UniqueSame([1]);
    assert LastNamed(info, texts, name) == [1];
  }

  lemma TwiceExcluded(info: seq<Host>, texts: seq<string>, name: string)
    requires info == [Host(name, [0, 1])] && |texts| == 2
    requires ParseNode(texts[0]) == Good(Slots(name, [0])) && ParseNode(texts[1]) == Good(Slots(name, [1]))
    ensures ApplyAll(info, false, texts, AsMap(info)).Good? &&
      Select(info, ApplyAll(info, false, texts, AsMap(info)).value) == []
  {
    hide ParseNode, ApplyAll, Select;
    assert SlotsAt(info, name) == [0, 1];
    var first := texts[..1];
    assert first == [texts[0]] && first[..0] == [];
    assert Dropped(info, first[..0], name) == {};
    assert Dropped(info, first, name) == {0};
    assert Dropped(info, texts, name) == {0, 1};
    assert Removable(info, first[..0]);
    assert Removable(info, first);
    assert Removable(info, texts);
    ExcludeAll(info, texts);
    SelectOne(name, ApplyAll(info, false, texts, AsMap(info)).value);
    WithoutAll([0, 1], {0, 1});
    UniqueSame([]);
  }
}
