/** Longest-prefix match for whole networks; section 5.1 of RFC 4632 and section
    5.2.4.3 of RFC 1812. */
module DeviceRoutes {
  import opened Options
  import opened PrefixCoverage
  import opened Texts

  /** Connected and local routes are direct; all others need a gateway. */
  datatype Protocol = Connected | Local | Routed

  /** `network` is the textual form of `prefix`, `iface` the egress interface and
      `hop` the address that `gateway` names, if it names a usable one. */
  datatype Route = Route(network: string, prefix: Prefix, gateway: string, hop: Option<Prefix>, iface: string,
                         protocol: Protocol, blackhole: bool, vrf: int)

  predicate IsDirect(r: Route) {
    !r.protocol.Routed?
  }

  /** Text and prefix name each other. */
  predicate SameNetwork(r: Route, q: Route) {
    r.network == q.network <==> r.prefix == q.prefix
  }

  ghost predicate RoutesOk(routes: seq<Route>) {
    && (forall i :: 0 <= i < |routes| ==> WellFormed(routes[i].prefix))
    && forall i, j :: 0 <= i < |routes| && 0 <= j < |routes| ==> SameNetwork(routes[i], routes[j])
  }

  // ---------------------------------------------------------------- sorting

  /** Longer prefixes first, then by network, interface and gateway. */
  predicate Before(r: Route, q: Route) {
    if |r.prefix.bits| != |q.prefix.bits| then |r.prefix.bits| > |q.prefix.bits|
    else if r.network != q.network then TextLess(r.network, q.network)
    else if r.iface != q.iface then TextLess(r.iface, q.iface)
    else TextLess(r.gateway, q.gateway)
  }

  /** Text order or equal. */
  ghost predicate UpTo(a: string, b: string) {
    TextLess(a, b) || a == b
  }

  /** `r` may stand before `q`: longest prefixes first, alternatives by their texts. */
  ghost predicate Ranked(r: Route, q: Route) {
    && |r.prefix.bits| >= |q.prefix.bits|
    && (|r.prefix.bits| == |q.prefix.bits| ==>
          && UpTo(r.network, q.network)
          && (r.network == q.network ==> UpTo(r.iface, q.iface) && (r.iface == q.iface ==> UpTo(r.gateway, q.gateway))))
  }

  lemma NotBeforeIsRanked(r: Route, q: Route)
    ensures Ranked(r, q) <==> !Before(q, r)
  {
    TextOrder(r.network, q.network);
    TextOrder(r.iface, q.iface);
    TextOrder(r.gateway, q.gateway);
  }

  lemma BeforeOrder(r: Route, q: Route)
    ensures !(Before(r, q) && Before(q, r)) && !Before(r, r)
  {
    TextOrder(r.network, q.network);
    TextOrder(r.iface, q.iface);
    TextOrder(r.gateway, q.gateway);
    TextOrder(r.gateway, r.gateway);
  }

  /** Not being before is transitive: the order is total up to equal keys. */
  lemma NotBeforeTrans(r: Route, q: Route, s: Route)
    requires !Before(q, r) && !Before(s, q)
    ensures !Before(s, r)
  {
    Totals(r, q);
    Totals(q, s);
    Totals(r, s);
    if Before(r, q) && Before(q, s) { BeforeTrans(r, q, s); }
  }

  predicate SameKey(r: Route, q: Route) {
    |r.prefix.bits| == |q.prefix.bits| && r.network == q.network && r.iface == q.iface && r.gateway == q.gateway
  }

  lemma Totals(r: Route, q: Route)
    ensures Before(r, q) || Before(q, r) || SameKey(r, q)
    ensures !(Before(r, q) && Before(q, r)) && (SameKey(r, q) ==> !Before(r, q) && !Before(q, r))
  {
    TextOrder(r.network, q.network);
    TextOrder(r.iface, q.iface);
    TextOrder(r.gateway, q.gateway);
  }

  lemma BeforeTrans(r: Route, q: Route, s: Route)
    requires Before(r, q) && Before(q, s)
    ensures Before(r, s)
  {
    if TextLess(r.network, q.network) && TextLess(q.network, s.network) { TextTrans(r.network, q.network, s.network); }
    if TextLess(r.iface, q.iface) && TextLess(q.iface, s.iface) { TextTrans(r.iface, q.iface, s.iface); }
    if TextLess(r.gateway, q.gateway) && TextLess(q.gateway, s.gateway) { TextTrans(r.gateway, q.gateway, s.gateway); }
    TextOrder(r.network, s.network);
    TextOrder(r.network, q.network);
    TextOrder(q.network, s.network);
    TextOrder(r.iface, s.iface);
    TextOrder(r.iface, q.iface);
    TextOrder(q.iface, s.iface);
  }

  /** Behind everything that is not after it. */
  function Placed(s: seq<Route>, r: Route): seq<Route> {
    if s == [] then [r]
    else if Before(r, s[|s| - 1]) then Placed(s[..|s| - 1], r) + [s[|s| - 1]]
    else s + [r]
  }

  /** A stable sort. */
  function Sorted(s: seq<Route>): seq<Route> {
    if s == [] then [] else Placed(Sorted(s[..|s| - 1]), s[|s| - 1])
  }

  predicate InOrder(s: seq<Route>) {
    forall i, j :: 0 <= i < j < |s| ==> !Before(s[j], s[i])
  }

  lemma NothingAfter(p: seq<Route>, init: seq<Route>, r: Route, last: Route)
    requires multiset(p) == multiset(init) + multiset{r} && Before(r, last)
    requires forall l :: 0 <= l < |init| ==> !Before(last, init[l])
    ensures forall i :: 0 <= i < |p| ==> !Before(last, p[i])
  {
    hide Before;
    forall i | 0 <= i < |p| ensures !Before(last, p[i]) {
      assert p[i] in multiset(p);
      if p[i] == r {
        BeforeOrder(r, last);
      } else {
        assert p[i] in multiset(init);
      }
    }
  }

  lemma {:induction false} PlacedFacts(s: seq<Route>, r: Route)
    requires InOrder(s)
    ensures InOrder(Placed(s, r)) && multiset(Placed(s, r)) == multiset(s) + multiset{r}
  {
    if s != [] {
      var init, last := s[..|s| - 1], s[|s| - 1];
      assert s == init + [last];
      if Before(r, last) {
        PlacedFacts(init, r);
        NothingAfter(Placed(init, r), init, r, last);
      } else {
        forall i | 0 <= i < |s| ensures !Before(r, s[i]) {
          if i < |s| - 1 { NotBeforeTrans(s[i], last, r); }
        }
      }
    }
  }

  lemma {:induction false} SortedFacts(s: seq<Route>)
    ensures InOrder(Sorted(s)) && multiset(Sorted(s)) == multiset(s)
  {
    if s != [] {
      SortedFacts(s[..|s| - 1]);
      PlacedFacts(Sorted(s[..|s| - 1]), s[|s| - 1]);
      assert s == s[..|s| - 1] + [s[|s| - 1]];
    }
  }

  lemma {:induction false} SortedStays(s: seq<Route>)
    requires InOrder(s)
    ensures Sorted(s) == s
  {
    if s != [] {
      var init, last := s[..|s| - 1], s[|s| - 1];
      assert s == init + [last];
      SortedStays(init);
      if init != [] { assert !Before(last, init[|init| - 1]); }
    }
  }

  // ---------------------------------------------------------------- longest match

  predicate Candidate(r: Route, network: Prefix, vrf: int) {
    r.vrf == vrf && Overlap(r.prefix, network)
  }

  function Candidates(routes: seq<Route>, network: Prefix, vrf: int): seq<Route> {
    if routes == [] then []
    else (if Candidate(routes[0], network, vrf) then [routes[0]] else []) + Candidates(routes[1..], network, vrf)
  }

  /** `r` is a longest match for the address `a` among the routes of the VRF. */
  ghost predicate LongestMatch(routes: seq<Route>, vrf: int, r: Route, a: Prefix) {
    && r in routes && r.vrf == vrf && Within(a, r.prefix)
    && forall q :: q in routes && q.vrf == vrf && Within(a, q.prefix) ==> |q.prefix.bits| <= |r.prefix.bits|
  }

  /** `r` is a longest match for at least one address of the network. */
  ghost predicate Effective(routes: seq<Route>, network: Prefix, vrf: int, r: Route) {
    exists a :: IsAddress(a) && Within(a, network) && LongestMatch(routes, vrf, r, a)
  }

  /** Every address of the network has a longest match, and each of its longest
      matches is a direct route that is not a blackhole. */
  ghost predicate DirectlyConnected(routes: seq<Route>, network: Prefix, vrf: int) {
    forall a :: IsAddress(a) && Within(a, network) ==>
      && (exists r :: LongestMatch(routes, vrf, r, a))
      && forall r :: LongestMatch(routes, vrf, r, a) ==> (r.protocol == Connected || r.protocol == Local) && !r.blackhole
  }

  ghost function Keep(s: seq<Route>, routes: seq<Route>, network: Prefix, vrf: int): seq<Route> {
    if s == [] then []
    else Keep(s[..|s| - 1], routes, network, vrf) + (if Effective(routes, network, vrf, s[|s| - 1]) then [s[|s| - 1]] else [])
  }

  lemma {:induction false} CandidatesAre(routes: seq<Route>, network: Prefix, vrf: int)
    ensures forall r :: r in Candidates(routes, network, vrf) <==> r in routes && Candidate(r, network, vrf)
  {
    if routes != [] {
      CandidatesAre(routes[1..], network, vrf);
      assert forall r :: r in routes <==> r == routes[0] || r in routes[1..];
    }
  }

  lemma SortedCandidates(routes: seq<Route>, network: Prefix, vrf: int)
    requires RoutesOk(routes)
    ensures var c := Sorted(Candidates(routes, network, vrf));
      InOrder(c) && RoutesOk(c) && forall r :: r in c <==> r in routes && Candidate(r, network, vrf)
  {
    var c0 := Candidates(routes, network, vrf);
    var c := Sorted(c0);
    SortedFacts(c0);
    CandidatesAre(routes, network, vrf);
    forall r ensures r in c <==> r in c0 { assert r in multiset(c) <==> r in multiset(c0); }
    forall i | 0 <= i < |c| ensures WellFormed(c[i].prefix) && c[i] in routes { assert c[i] in c; }
  }

  /** The part of the network that a route covers. */
  function Segment(r: Route, network: Prefix): Prefix {
    if |r.prefix.bits| > |network.bits| then r.prefix else network
  }

  lemma SegmentIs(r: Route, network: Prefix, a: Prefix)
    requires Overlap(r.prefix, network)
    ensures Within(a, Segment(r, network)) <==> Within(a, network) && Within(a, r.prefix)
    ensures WellFormed(r.prefix) && WellFormed(network) ==> WellFormed(Segment(r, network))
  {
    if Within(r.prefix, network) {
      if Within(a, r.prefix) { WithinTrans(a, r.prefix, network); }
      if |r.prefix.bits| == |network.bits| { assert r.prefix.bits == network.bits; }
    } else {
      if Within(a, network) { WithinTrans(a, network, r.prefix); }
    }
  }

  /** What the coverage holds once the first `k` candidates are dealt with. */
  ghost predicate Dealt(c: seq<Route>, network: Prefix, k: nat, added: set<Prefix>, a: Prefix)
    requires k <= |c|
  {
    IsAddress(a) && Within(a, network) ==> (Covered(added, a) <==> exists i :: 0 <= i < k && Within(a, c[i].prefix))
  }

  ghost predicate SameGroup(c: seq<Route>, start: nat, end: nat) {
    start < end <= |c| && forall i :: start <= i < end ==> c[i].network == c[start].network
  }

  /** Longer prefixes come first, and equal prefixes stand together. */
  lemma EarlierIsLonger(c: seq<Route>, i: nat, j: nat)
    requires InOrder(c) && RoutesOk(c) && i < j < |c|
    ensures |c[i].prefix.bits| >= |c[j].prefix.bits|
    ensures c[i].network == c[j].network ==> forall l :: i <= l <= j ==> c[l].network == c[i].network
  {
    assert !Before(c[j], c[i]);
    if c[i].network == c[j].network {
      assert SameNetwork(c[i], c[j]);
      forall l | i < l < j ensures c[l].network == c[i].network {
        assert !Before(c[l], c[i]) && !Before(c[j], c[l]);
        TextOrder(c[l].network, c[i].network);
      }
    }
  }

  /** A new group with an uncovered address provides longest matches; a group
      that is covered provides none. */
  lemma GroupIsEffective(routes: seq<Route>, network: Prefix, vrf: int, c: seq<Route>, start: nat, end: nat, added: set<Prefix>, i: nat)
    requires RoutesOk(routes) && c == Sorted(Candidates(routes, network, vrf)) && WellFormed(network)
    requires SameGroup(c, start, end) && start <= i < end && (start > 0 ==> c[start - 1].network != c[start].network)
    requires forall a :: Dealt(c, network, start, added, a)
    ensures Effective(routes, network, vrf, c[i]) <==> !FullyCovered(added, Segment(c[start], network))
  {
    SortedCandidates(routes, network, vrf);
    assert SameNetwork(c[i], c[start]);
    assert c[start] in c && c[i] in c;
    if !FullyCovered(added, Segment(c[start], network)) {
      var a :| IsAddress(a) && Within(a, Segment(c[start], network)) && !Covered(added, a);
      SegmentIs(c[start], network, a);
      assert Dealt(c, network, start, added, a);
      UncoveredIsLongest(routes, network, vrf, c, start, a);
      assert LongestMatch(routes, vrf, c[i], a);
    }
    if Effective(routes, network, vrf, c[i]) {
      var a :| IsAddress(a) && Within(a, network) && LongestMatch(routes, vrf, c[i], a);
      SegmentIs(c[start], network, a);
      assert Dealt(c, network, start, added, a);
      LongestIsUncovered(routes, network, vrf, c, start, i, a);
    }
  }

  lemma UncoveredIsLongest(routes: seq<Route>, network: Prefix, vrf: int, c: seq<Route>, start: nat, a: Prefix)
    requires RoutesOk(routes) && c == Sorted(Candidates(routes, network, vrf)) && start < |c|
    requires Within(a, network) && Within(a, c[start].prefix) && forall i :: 0 <= i < start ==> !Within(a, c[i].prefix)
    ensures LongestMatch(routes, vrf, c[start], a)
    ensures forall r :: r in routes && r.prefix == c[start].prefix && r.vrf == vrf ==> LongestMatch(routes, vrf, r, a)
  {
    SortedCandidates(routes, network, vrf);
    assert c[start] in c;
    forall q | q in routes && q.vrf == vrf && Within(a, q.prefix) ensures |q.prefix.bits| <= |c[start].prefix.bits| {
      CommonMemberNests(a, q.prefix, network);
      CommonMemberNests(a, network, q.prefix);
      assert q in c;
      var j :| 0 <= j < |c| && c[j] == q;
      if j > start { EarlierIsLonger(c, start, j); }
    }
  }

  lemma SameLengthSamePrefix(a: Prefix, p: Prefix, q: Prefix)
    ensures Within(a, p) && Within(a, q) && |p.bits| == |q.bits| ==> p == q
  {
    if Within(a, p) && Within(a, q) && |p.bits| == |q.bits| {
      assert p.bits == a.bits[..|p.bits|] == q.bits;
    }
  }

  lemma LongestIsUncovered(routes: seq<Route>, network: Prefix, vrf: int, c: seq<Route>, start: nat, i: nat, a: Prefix)
    requires RoutesOk(routes) && c == Sorted(Candidates(routes, network, vrf)) && start <= i < |c| && c[i].network == c[start].network
    requires LongestMatch(routes, vrf, c[i], a) && (start > 0 ==> c[start - 1].network != c[start].network)
    ensures forall j :: 0 <= j < start ==> !Within(a, c[j].prefix)
  {
    SortedCandidates(routes, network, vrf);
    assert SameNetwork(c[i], c[start]);
    forall j | 0 <= j < start ensures !Within(a, c[j].prefix) {
      assert c[j] in c;
      EarlierIsLonger(c, j, start);
      assert SameNetwork(c[j], c[start]);
      SameLengthSamePrefix(a, c[i].prefix, c[j].prefix);
    }
  }

  lemma DealtMore(c: seq<Route>, network: Prefix, start: nat, end: nat, added: set<Prefix>, added': set<Prefix>, a: Prefix)
    requires RoutesOk(c) && SameGroup(c, start, end) && Overlap(c[start].prefix, network) && Dealt(c, network, start, added, a)
    requires added' == added + {Segment(c[start], network)} || (added' == added && FullyCovered(added, Segment(c[start], network)))
    ensures Dealt(c, network, end, added', a)
  {
    if IsAddress(a) && Within(a, network) {
      SegmentIs(c[start], network, a);
      CoveredOneMore(added, Segment(c[start], network), a);
      forall i | start <= i < end ensures Within(a, c[i].prefix) <==> Within(a, c[start].prefix) {
        assert SameNetwork(c[i], c[start]);
      }
      if i :| 0 <= i < end && Within(a, c[i].prefix) {
        if i >= start { assert Within(a, c[start].prefix); }
      }
      if Covered(added', a) && !Covered(added, a) { assert Within(a, c[start].prefix); }
    }
  }

  lemma {:induction false} KeepAll(c: seq<Route>, start: nat, end: nat, routes: seq<Route>, network: Prefix, vrf: int, kept: bool)
    requires start <= end <= |c|
    requires forall i :: start <= i < end ==> (Effective(routes, network, vrf, c[i]) <==> kept)
    ensures Keep(c[..end], routes, network, vrf) == Keep(c[..start], routes, network, vrf) + if kept then c[start..end] else []
    decreases end - start
  {
    if start < end {
      KeepAll(c, start, end - 1, routes, network, vrf, kept);
      assert c[..end][..end - 1] == c[..end - 1];
      assert c[start..end] == c[start..end - 1] + [c[end - 1]];
    }
  }

  lemma {:induction false} KeepInOrder(s: seq<Route>, routes: seq<Route>, network: Prefix, vrf: int)
    requires InOrder(s)
    ensures InOrder(Keep(s, routes, network, vrf))
    ensures forall r :: r in Keep(s, routes, network, vrf) <==> r in s && Effective(routes, network, vrf, r)
  {
    if s != [] {
      var init, last := s[..|s| - 1], s[|s| - 1];
      KeepInOrder(init, routes, network, vrf);
      assert s == init + [last];
      var k := Keep(init, routes, network, vrf);
      forall i | 0 <= i < |k| ensures !Before(last, k[i]) {
        assert k[i] in k;
        var l :| 0 <= l < |init| && init[l] == k[i];
        assert s[l] == k[i];
      }
    }
  }

  // ---------------------------------------------------------------- the queries

  method Filter(routes: seq<Route>, network: Prefix, vrf: int) returns (candidates: seq<Route>)
    ensures candidates == Candidates(routes, network, vrf)
  {
    candidates := [];
    var i := 0;
    assert routes[0..] == routes;
    while i < |routes|
      invariant 0 <= i <= |routes|
      invariant candidates + Candidates(routes[i..], network, vrf) == Candidates(routes, network, vrf)
    {
      ghost var rest := Candidates(routes[i + 1..], network, vrf);
      assert routes[i..][1..] == routes[i + 1..];
      assert candidates + [routes[i]] + rest == candidates + ([routes[i]] + rest);
      assert [] + rest == rest;
      if Candidate(routes[i], network, vrf) { candidates := candidates + [routes[i]]; }
      i := i + 1;
    }
  }

  /** The end of the run of candidates with the same network. */
  method GroupEnd(c: seq<Route>, start: nat) returns (end: nat)
    requires start < |c|
    ensures SameGroup(c, start, end) && (end < |c| ==> c[end].network != c[end - 1].network)
  {
    end := start + 1;
    while end < |c| && c[end].network == c[start].network
      invariant SameGroup(c, start, end)
    {
      end := end + 1;
    }
  }

  /** All routes that some address of the network is forwarded by, all
      alternatives of equal length included, in sorted order. */
  method EffectiveRoutes(routes: seq<Route>, network: Prefix, vrf: int) returns (result: seq<Route>)
    requires RoutesOk(routes) && WellFormed(network)
    ensures result == Keep(Sorted(Candidates(routes, network, vrf)), routes, network, vrf)
    ensures forall r :: r in result <==> r in routes && Effective(routes, network, vrf, r)
    ensures forall i, j :: 0 <= i < j < |result| ==> Ranked(result[i], result[j])
  {
    var c := Filter(routes, network, vrf);
    c := Sorted(c);
    SortedCandidates(routes, network, vrf);
    var coverage := new Coverage();
    result := [];
    var start := 0;
    while start < |c|
      invariant 0 <= start <= |c| && coverage.Valid() && fresh(coverage)
      invariant 0 < start < |c| ==> c[start - 1].network != c[start].network
      invariant forall a :: Dealt(c, network, start, coverage.added, a)
      invariant result == Keep(c[..start], routes, network, vrf)
    {
      var end := GroupEnd(c, start);
      assert c[start] in c;
      var segment := Segment(c[start], network);
      SegmentIs(c[start], network, network);
      ghost var added := coverage.added;
      var contained := coverage.Contains(segment);
      ghost var indirect := exists i :: start <= i < end && (c[i].blackhole || !IsDirect(c[i]));
      GroupIsKept(routes, network, vrf, c, start, end, added, contained, indirect);
      if !contained {
        result := result + c[start..end];
        coverage.Add(segment);
      }
      forall a ensures Dealt(c, network, end, coverage.added, a) {
        assert Dealt(c, network, start, added, a);
        DealtMore(c, network, start, end, added, coverage.added, a);
      }
      start := end;
    }
    assert c[..start] == c;
    KeepInOrder(c, routes, network, vrf);
    forall r | r in routes && Effective(routes, network, vrf, r) ensures r in c { EffectiveIsCandidate(routes, network, vrf, r); }
    result := Sorted(result);
    SortedStays(Keep(c, routes, network, vrf));
    forall i, j | 0 <= i < j < |result| ensures Ranked(result[i], result[j]) { NotBeforeIsRanked(result[i], result[j]); }
  }

  lemma EffectiveIsCandidate(routes: seq<Route>, network: Prefix, vrf: int, r: Route)
    requires Effective(routes, network, vrf, r)
    ensures r in routes && Candidate(r, network, vrf)
  {
    var a :| IsAddress(a) && Within(a, network) && LongestMatch(routes, vrf, r, a);
    CommonMemberNests(a, r.prefix, network);
    CommonMemberNests(a, network, r.prefix);
  }

  /** The direct routes of the network, as far as the scan got, and whether the
      network is directly connected as a whole. */
  method DirectRoutes(routes: seq<Route>, network: Prefix, vrf: int) returns (direct: seq<Route>, complete: bool)
    requires RoutesOk(routes) && WellFormed(network)
    ensures complete <==> DirectlyConnected(routes, network, vrf)
    ensures direct <= Keep(Sorted(Candidates(routes, network, vrf)), routes, network, vrf)
    ensures complete ==> direct == Keep(Sorted(Candidates(routes, network, vrf)), routes, network, vrf)
    ensures forall r :: r in direct ==> (r.protocol == Connected || r.protocol == Local) && !r.blackhole
  {
    var c := Filter(routes, network, vrf);
    c := Sorted(c);
    SortedCandidates(routes, network, vrf);
    var coverage := new Coverage();
    direct := [];
    var start, stopped := 0, false;
    while start < |c| && !stopped
      invariant 0 <= start <= |c| && coverage.Valid() && fresh(coverage)
      invariant !stopped && 0 < start < |c| ==> c[start - 1].network != c[start].network
      invariant !stopped ==> forall a :: Dealt(c, network, start, coverage.added, a)
      invariant direct == Keep(c[..start], routes, network, vrf)
      invariant forall r :: r in direct ==> IsDirect(r) && !r.blackhole
      invariant stopped ==> !DirectlyConnected(routes, network, vrf)
      decreases |c| - start, !stopped
    {
      hide Keep, Sorted, Candidates, DirectlyConnected, RoutesOk, InOrder, Effective, Dealt;
      var end := GroupEnd(c, start);
      assert c[start] in c;
      var segment := Segment(c[start], network);
      SegmentIs(c[start], network, network);
      RouteIsOk(c, start);
      ghost var added := coverage.added;
      var contained := coverage.Contains(segment);
      var indirect := AnyIndirect(c, start, end);
      GroupIsKept(routes, network, vrf, c, start, end, added, contained, indirect);
      if !contained && indirect {
        stopped := true;
      } else {
        if !contained {
          direct := direct + c[start..end];
          coverage.Add(segment);
        }
        forall a ensures Dealt(c, network, end, coverage.added, a) {
          assert Dealt(c, network, start, added, a);
          DealtMore(c, network, start, end, added, coverage.added, a);
        }
        start := end;
      }
    }
    complete := false;
    KeepPrefix(c, start, routes, network, vrf);
    if !stopped {
      assert c[..start] == c;
      complete := coverage.Contains(network);
      CoverageDecides(routes, network, vrf, c, coverage.added, complete);
    }
  }

  method AnyIndirect(c: seq<Route>, start: nat, end: nat) returns (found: bool)
    requires start <= end <= |c|
    ensures found <==> exists i :: start <= i < end && (c[i].blackhole || !IsDirect(c[i]))
  {
    found := false;
    for i := start to end
      invariant found <==> exists l :: start <= l < i && (c[l].blackhole || !IsDirect(c[l]))
    {
      if c[i].blackhole || !IsDirect(c[i]) { found := true; }
    }
  }

  lemma GroupIsKept(routes: seq<Route>, network: Prefix, vrf: int, c: seq<Route>, start: nat, end: nat, added: set<Prefix>,
                    contained: bool, indirect: bool)
    requires RoutesOk(routes) && c == Sorted(Candidates(routes, network, vrf)) && WellFormed(network)
    requires SameGroup(c, start, end) && (start > 0 ==> c[start - 1].network != c[start].network)
    requires forall a :: Dealt(c, network, start, added, a)
    requires contained <==> FullyCovered(added, Segment(c[start], network))
    requires indirect <==> exists i :: start <= i < end && (c[i].blackhole || !IsDirect(c[i]))
    ensures Keep(c[..end], routes, network, vrf) == Keep(c[..start], routes, network, vrf) + if contained then [] else c[start..end]
    ensures !contained && indirect ==> !DirectlyConnected(routes, network, vrf)
    ensures !indirect ==> forall r :: r in c[start..end] ==> IsDirect(r) && !r.blackhole
  {
    forall i | start <= i < end ensures Effective(routes, network, vrf, c[i]) <==> !contained {
      GroupIsEffective(routes, network, vrf, c, start, end, added, i);
    }
    KeepAll(c, start, end, routes, network, vrf, !contained);
    if !contained && indirect {
      var i :| start <= i < end && (c[i].blackhole || !IsDirect(c[i]));
      IndirectIsNotConnected(routes, network, vrf, c[i]);
    }
  }

  lemma IndirectIsNotConnected(routes: seq<Route>, network: Prefix, vrf: int, r: Route)
    requires Effective(routes, network, vrf, r) && (r.blackhole || !IsDirect(r))
    ensures !DirectlyConnected(routes, network, vrf)
  {
    var a :| IsAddress(a) && Within(a, network) && LongestMatch(routes, vrf, r, a);
  }

  lemma {:induction false} KeepPrefix(c: seq<Route>, start: nat, routes: seq<Route>, network: Prefix, vrf: int)
    requires start <= |c|
    ensures Keep(c[..start], routes, network, vrf) <= Keep(c, routes, network, vrf)
    decreases |c|
  {
    if start == |c| {
      assert c[..start] == c;
    } else {
      assert c[..|c| - 1][..start] == c[..start];
      KeepPrefix(c[..|c| - 1], start, routes, network, vrf);
    }
  }

  /** With every effective route direct, coverage alone decides. */
  lemma CoverageDecides(routes: seq<Route>, network: Prefix, vrf: int, c: seq<Route>, added: set<Prefix>, complete: bool)
    requires RoutesOk(routes) && c == Sorted(Candidates(routes, network, vrf))
    requires forall a :: Dealt(c, network, |c|, added, a)
    requires forall r :: r in Keep(c, routes, network, vrf) ==> IsDirect(r) && !r.blackhole
    requires complete <==> FullyCovered(added, network)
    ensures complete <==> DirectlyConnected(routes, network, vrf)
  {
    SortedCandidates(routes, network, vrf);
    KeepInOrder(c, routes, network, vrf);
    forall a | IsAddress(a) && Within(a, network)
      ensures Covered(added, a) <==> exists r :: LongestMatch(routes, vrf, r, a)
      ensures forall r :: LongestMatch(routes, vrf, r, a) ==> IsDirect(r) && !r.blackhole
    {
      assert Dealt(c, network, |c|, added, a);
      if Covered(added, a) { FirstIsLongest(routes, network, vrf, c, a); }
      forall r | LongestMatch(routes, vrf, r, a) ensures IsDirect(r) && !r.blackhole && r in c {
        assert Effective(routes, network, vrf, r);
        EffectiveIsCandidate(routes, network, vrf, r);
      }
      if r :| LongestMatch(routes, vrf, r, a) { assert r in c; }
    }
  }

  lemma FirstIsLongest(routes: seq<Route>, network: Prefix, vrf: int, c: seq<Route>, a: Prefix)
    requires RoutesOk(routes) && c == Sorted(Candidates(routes, network, vrf)) && Within(a, network)
    requires exists i :: 0 <= i < |c| && Within(a, c[i].prefix)
    ensures exists r :: LongestMatch(routes, vrf, r, a)
  {
    var i :| 0 <= i < |c| && Within(a, c[i].prefix);
    while exists l :: 0 <= l < i && Within(a, c[l].prefix)
      invariant 0 <= i < |c| && Within(a, c[i].prefix)
      decreases i
    {
      var l :| 0 <= l < i && Within(a, c[l].prefix);
      i := l;
    }
    UncoveredIsLongest(routes, network, vrf, c, i, a);
  }

  lemma RouteIsOk(routes: seq<Route>, i: nat)
    requires RoutesOk(routes) && i < |routes|
    ensures WellFormed(routes[i].prefix)
  {
  }
}
