/** Deriving the path between two networks from the routing tables of all devices. */
module RoutePaths {
  import opened FiniteSets
  import opened Options
  import opened PrefixCoverage
  import opened DeviceRoutes

  datatype InterfaceAddress = InterfaceAddress(address: Prefix, prefix: Option<Prefix>, iface: string, vrf: int)

  datatype DeviceResult = DeviceResult(online: bool, topologyError: bool, routes: seq<Route>, addresses: seq<InterfaceAddress>)

  datatype Status = Empty | NotFound | Partial | Ambiguous | Unreachable | Unresolved | Complete

  datatype Hop = Hop(index: nat, selected: seq<Route>, role: Role)
  datatype Role = Source | Transit | Destination | SourceDestination

  ghost predicate DevicesOk(devices: seq<DeviceResult>) {
    forall i :: 0 <= i < |devices| ==> RoutesOk(devices[i].routes)
  }

  // ---------------------------------------------------------------- links

  /** A route that shows `gateway` to be on the link of an interface. */
  ghost predicate IsLinkRoute(r: Route, gateway: Prefix, iface: string, vrf: int) {
    r.vrf == vrf && !r.blackhole && r.iface == iface && Within(gateway, r.prefix) && r.protocol == Connected
  }

  ghost function GatewayLinks(routes: seq<Route>, gateway: Prefix, iface: string, vrf: int): set<Prefix> {
    set r | r in routes && IsLinkRoute(r, gateway, iface, vrf) :: r.prefix
  }

  ghost function InterfaceLinks(device: DeviceResult, a: InterfaceAddress, vrf: int): set<Prefix> {
    (if a.prefix.Some? && Within(a.address, a.prefix.value) then {a.prefix.value} else {})
    + GatewayLinks(device.routes, a.address, a.iface, vrf)
  }

  ghost predicate OnLink(device: DeviceResult, link: Prefix, vrf: int) {
    && device.online
    && ((exists r :: r in device.routes && r.vrf == vrf && !r.blackhole && r.protocol == Connected && r.prefix == link)
        || (exists a :: a in device.addresses && a.vrf == vrf && a.prefix == Some(link)))
  }

  ghost function Participants(devices: seq<DeviceResult>, link: Prefix, vrf: int): set<nat> {
    set i: nat | i < |devices| && OnLink(devices[i], link, vrf)
  }

  /** Device `i` carries the gateway address on `link`, which `cur` is also attached to. */
  ghost predicate CarriesOn(devices: seq<DeviceResult>, cur: nat, i: nat, route: Route, gateway: Prefix, vrf: int, link: Prefix)
    requires cur < |devices|
  {
    && i < |devices| && i != cur && devices[i].online
    && link in GatewayLinks(devices[cur].routes, gateway, route.iface, vrf)
    && exists a :: a in devices[i].addresses && a.vrf == vrf && a.address == gateway && link in InterfaceLinks(devices[i], a, vrf)
  }

  ghost predicate OwnsOn(devices: seq<DeviceResult>, cur: nat, i: nat, route: Route, gateway: Prefix, vrf: int, link: Prefix)
    requires cur < |devices|
  {
    CarriesOn(devices, cur, i, route, gateway, vrf, link)
    && |Participants(devices, link, vrf)| == 2 && cur in Participants(devices, link, vrf) && i in Participants(devices, link, vrf)
  }

  ghost predicate Owns(devices: seq<DeviceResult>, cur: nat, i: nat, route: Route, gateway: Prefix, vrf: int)
    requires cur < |devices|
  {
    exists link :: OwnsOn(devices, cur, i, route, gateway, vrf, link)
  }

  ghost predicate Crowded(devices: seq<DeviceResult>, cur: nat, i: nat, route: Route, gateway: Prefix, vrf: int, link: Prefix)
    requires cur < |devices|
  {
    CarriesOn(devices, cur, i, route, gateway, vrf, link) && |Participants(devices, link, vrf)| > 2
  }

  ghost predicate AmbiguousLink(devices: seq<DeviceResult>, cur: nat, route: Route, gateway: Prefix, vrf: int)
    requires cur < |devices|
  {
    exists i: nat, link :: Crowded(devices, cur, i, route, gateway, vrf, link)
  }

  // ---------------------------------------------------------------- walks

  /** Every effective route of `cur` hands the destination over to `next`, over a
      link that only these two devices are on. */
  ghost predicate HandsOver(devices: seq<DeviceResult>, cur: nat, next: nat, route: Route, vrf: int)
    requires cur < |devices|
  {
    && !route.blackhole && route.hop.Some?
    && GatewayLinks(devices[cur].routes, route.hop.value, route.iface, vrf) != {}
    && !AmbiguousLink(devices, cur, route, route.hop.value, vrf)
    && forall i: nat :: Owns(devices, cur, i, route, route.hop.value, vrf) <==> i == next
  }

  ghost predicate Forwards(devices: seq<DeviceResult>, destination: Prefix, vrf: int, cur: nat, next: nat) {
    && cur < |devices| && next < |devices|
    && (exists r :: Effective(devices[cur].routes, destination, vrf, r))
    && forall r :: Effective(devices[cur].routes, destination, vrf, r) ==> HandsOver(devices, cur, next, r, vrf)
  }

  predicate Different(w: seq<nat>, i: nat, j: nat) {
    i < j < |w| ==> w[i] != w[j]
  }

  ghost predicate Steps(devices: seq<DeviceResult>, destination: Prefix, vrf: int, w: seq<nat>, j: nat) {
    j + 1 < |w| ==> Forwards(devices, destination, vrf, w[j], w[j + 1])
  }

  ghost predicate Walk(devices: seq<DeviceResult>, destination: Prefix, vrf: int, w: seq<nat>) {
    && w != [] && (forall j :: 0 <= j < |w| ==> w[j] < |devices|)
    && (forall i: nat, j: nat :: Different(w, i, j))
    && (forall j: nat :: Steps(devices, destination, vrf, w, j))
  }

  /** `i` is the only online device to which the network is directly connected. */
  ghost predicate OnlyOwner(devices: seq<DeviceResult>, network: Prefix, vrf: int, i: nat) {
    forall j: nat :: IsEndpoint(devices, network, vrf, j) <==> j == i
  }

  ghost predicate IsEndpoint(devices: seq<DeviceResult>, network: Prefix, vrf: int, j: nat) {
    j < |devices| && devices[j].online && DirectlyConnected(devices[j].routes, network, vrf)
  }

  /** The path that a complete answer describes. */
  ghost predicate IsPath(devices: seq<DeviceResult>, source: Prefix, destination: Prefix, vrf: int, w: seq<nat>) {
    && Walk(devices, destination, vrf, w)
    && OnlyOwner(devices, source, vrf, w[0]) && OnlyOwner(devices, destination, vrf, w[|w| - 1])
    && (forall i :: 0 <= i < |devices| ==> devices[i].online)
    && (|w| > 1 ==> forall i :: 0 <= i < |devices| ==> !devices[i].topologyError)
  }

  function Indices(hops: seq<Hop>): (w: seq<nat>)
    ensures |w| == |hops| && forall j :: 0 <= j < |w| ==> w[j] == hops[j].index
  {
    seq(|hops|, j requires 0 <= j < |hops| => hops[j].index)
  }

  /** What a path means for single packets: at every device but the last, every
      longest match for every destination address points at the next device,
      over a link with exactly two participants. */
  lemma PathForwardsEveryAddress(devices: seq<DeviceResult>, source: Prefix, destination: Prefix, vrf: int, w: seq<nat>,
                                 j: nat, a: Prefix, r: Route)
    requires IsPath(devices, source, destination, vrf, w) && j + 1 < |w|
    requires IsAddress(a) && Within(a, destination) && LongestMatch(devices[w[j]].routes, vrf, r, a)
    ensures !r.blackhole && r.hop.Some?
    ensures exists link :: OwnsOn(devices, w[j], w[j + 1], r, r.hop.value, vrf, link)
              && Participants(devices, link, vrf) == {w[j], w[j + 1]}
  {
    assert Steps(devices, destination, vrf, w, j);
    assert Effective(devices[w[j]].routes, destination, vrf, r);
    assert Owns(devices, w[j], w[j + 1], r, r.hop.value, vrf);
    var link :| OwnsOn(devices, w[j], w[j + 1], r, r.hop.value, vrf, link);
    PairOfTwo(Participants(devices, link, vrf), w[j], w[j + 1]);
  }

  lemma PairOfTwo(s: set<nat>, x: nat, y: nat)
    requires |s| == 2 && x in s && y in s && x != y
    ensures s == {x, y}
  {
    var rest := s - {x} - {y};
    assert |s - {x}| == 1 && |rest| == 0;
    assert s == rest + {x, y};
  }

  function Visited(w: seq<nat>): set<nat> {
    set k | k in w
  }

  /** A walk visits no device twice, so it is no longer than there are devices. */
  lemma WalksAreShort(w: seq<nat>, n: nat)
    requires (forall j :: 0 <= j < |w| ==> w[j] < n) && forall i: nat, j: nat :: Different(w, i, j)
    ensures |w| <= n
  {
    EachVisitCounts(w);
    SmallNumbers(Visited(w), n);
  }

  lemma {:induction false} EachVisitCounts(w: seq<nat>)
    requires forall i: nat, j: nat :: Different(w, i, j)
    ensures |Visited(w)| == |w|
  {
    if w == [] {
      assert Visited(w) == {};
    } else {
      var init, last := w[..|w| - 1], w[|w| - 1];
      forall i: nat, j: nat ensures Different(init, i, j) { assert Different(w, i, j); }
      EachVisitCounts(init);
      forall i | 0 <= i < |init| ensures init[i] != last { assert Different(w, i, |w| - 1); }
      assert w == init + [last];
      assert Visited(w) == Visited(init) + {last} && last !in Visited(init);
    }
  }

  lemma {:induction false} SmallNumbers(s: set<nat>, n: nat)
    requires forall k :: k in s ==> k < n
    ensures |s| <= n
  {
    if n == 0 {
      assert s == {};
    } else {
      SmallNumbers(s - {n - 1}, n - 1);
    }
  }

  // ---------------------------------------------------------------- scanning

  method EndpointCandidates(devices: seq<DeviceResult>, network: Prefix, vrf: int) returns (found: seq<nat>)
    requires DevicesOk(devices) && WellFormed(network)
    ensures forall i: nat :: i in found <==> IsEndpoint(devices, network, vrf, i)
    ensures forall i: nat, j: nat :: Different(found, i, j)
  {
    found := [];
    for i := 0 to |devices|
      invariant forall l: nat :: l in found <==> l < i && IsEndpoint(devices, network, vrf, l)
      invariant forall l: nat, m: nat :: Different(found, l, m)
    {
      var direct, connected := DirectRoutes(devices[i].routes, network, vrf);
      if devices[i].online && connected {
        forall l: nat, m: nat ensures Different(found + [i], l, m) {
          assert Different(found, l, m);
          if l < |found| { assert found[l] in found; }
        }
        found := found + [i];
      }
    }
  }

  lemma OneCandidate(devices: seq<DeviceResult>, network: Prefix, vrf: int, found: seq<nat>)
    requires forall i: nat :: i in found <==> IsEndpoint(devices, network, vrf, i)
    requires forall i: nat, j: nat :: Different(found, i, j)
    ensures |found| == 1 ==> OnlyOwner(devices, network, vrf, found[0])
    ensures |found| != 1 ==> forall i: nat :: !OnlyOwner(devices, network, vrf, i)
  {
    if |found| != 1 {
      forall i: nat ensures !OnlyOwner(devices, network, vrf, i) {
        if |found| > 1 {
          assert Different(found, 0, 1) && found[0] in found && found[1] in found;
          assert IsEndpoint(devices, network, vrf, found[0]) && IsEndpoint(devices, network, vrf, found[1]);
        } else {
          assert !IsEndpoint(devices, network, vrf, i);
        }
      }
    }
  }

  /** The links on which the routes show `gateway` to be. */
  method LinksOf(routes: seq<Route>, gateway: Prefix, iface: string, vrf: int) returns (links: set<Prefix>)
    ensures links == GatewayLinks(routes, gateway, iface, vrf)
  {
    links := {};
    for l := 0 to |routes|
      invariant forall link :: link in links <==> exists m :: 0 <= m < l && IsLinkRoute(routes[m], gateway, iface, vrf) && routes[m].prefix == link
    {
      var route := routes[l];
      if route.vrf == vrf && !route.blackhole && route.iface == iface && Within(gateway, route.prefix) && route.protocol == Connected {
        links := links + {route.prefix};
      }
    }
  }

  method LinksOfAddress(device: DeviceResult, address: InterfaceAddress, vrf: int) returns (links: set<Prefix>)
    ensures links == InterfaceLinks(device, address, vrf)
  {
    links := LinksOf(device.routes, address.address, address.iface, vrf);
    if address.prefix.Some? && Within(address.address, address.prefix.value) { links := links + {address.prefix.value}; }
  }

  lemma ManyOrNone(devices: seq<DeviceResult>, network: Prefix, vrf: int, found: seq<nat>)
    requires forall i: nat :: i in found <==> IsEndpoint(devices, network, vrf, i)
    requires forall i: nat, j: nat :: Different(found, i, j)
    ensures |found| > 1 ==> NoSingleOwner(devices, network, vrf, Ambiguous)
    ensures |found| == 0 ==> NoSingleOwner(devices, network, vrf, if SomeOffline(devices) then Partial else NotFound)
  {
    if |found| > 1 {
      assert Different(found, 0, 1) && found[0] in found && found[1] in found;
    } else if |found| == 0 {
      forall i: nat ensures !IsEndpoint(devices, network, vrf, i) { assert i !in found; }
    }
  }

  method CountParticipants(devices: seq<DeviceResult>, link: Prefix, vrf: int) returns (participants: set<nat>)
    ensures participants == Participants(devices, link, vrf)
  {
    participants := {};
    for index := 0 to |devices|
      invariant participants == set i: nat | i < index && OnLink(devices[i], link, vrf)
    {
      var device := devices[index];
      if device.online {
        var attached := false;
        for l := 0 to |device.routes|
          invariant attached <==> exists m :: 0 <= m < l && IsAttached(device.routes[m], link, vrf)
        {
          if IsAttached(device.routes[l], link, vrf) { attached := true; }
        }
        if !attached {
          for l := 0 to |device.addresses|
            invariant attached <==> exists m :: 0 <= m < l && device.addresses[m].vrf == vrf && device.addresses[m].prefix == Some(link)
          {
            if device.addresses[l].vrf == vrf && device.addresses[l].prefix == Some(link) { attached := true; }
          }
        }
        if attached { participants := participants + {index}; }
      }
    }
  }

  predicate IsAttached(r: Route, link: Prefix, vrf: int) {
    r.vrf == vrf && !r.blackhole && r.protocol == Connected && r.prefix == link
  }

  /** The devices that carry the gateway address on a link shared with `cur`. */
  method GatewayOwners(devices: seq<DeviceResult>, cur: nat, route: Route, gateway: Prefix, vrf: int)
    returns (owners: seq<nat>, directLink: bool, ambiguous: bool)
    requires cur < |devices|
    ensures directLink <==> GatewayLinks(devices[cur].routes, gateway, route.iface, vrf) != {}
    ensures directLink ==> (ambiguous <==> AmbiguousLink(devices, cur, route, gateway, vrf))
    ensures directLink ==> forall i: nat :: i in owners <==> Owns(devices, cur, i, route, gateway, vrf)
    ensures forall i: nat, j: nat :: Different(owners, i, j)
  {
    hide Owns, Crowded, GatewayLinks;
    owners, ambiguous := [], false;
    var links := LinksOf(devices[cur].routes, gateway, route.iface, vrf);
    directLink := links != {};
    if directLink {
      for index := 0 to |devices|
        invariant forall i: nat :: i in owners <==> i < index && Owns(devices, cur, i, route, gateway, vrf)
        invariant forall i: nat, j: nat :: Different(owners, i, j)
        invariant ambiguous <==> exists i: nat, link :: i < index && Crowded(devices, cur, i, route, gateway, vrf, link)
      {
        var owns, crowded := OwnerOn(devices, cur, index, route, gateway, vrf, links);
        if owns {
          forall i: nat, j: nat ensures Different(owners + [index], i, j) {
            assert Different(owners, i, j);
            if i < |owners| { assert owners[i] in owners; }
          }
          assert index !in owners;
          owners := owners + [index];
        }
        if crowded { ambiguous := true; }
      }
      OnlyDevicesCarry(devices, cur, route, gateway, vrf);
    }
  }

  ghost predicate IsPair(devices: seq<DeviceResult>, cur: nat, i: nat, vrf: int, link: Prefix) {
    |Participants(devices, link, vrf)| == 2 && cur in Participants(devices, link, vrf) && i in Participants(devices, link, vrf)
  }

  ghost predicate IsCrowd(devices: seq<DeviceResult>, vrf: int, link: Prefix) {
    |Participants(devices, link, vrf)| > 2
  }

  /** Looks at the participants of every link that an address shares with `cur`. */
  method SharedLinks(devices: seq<DeviceResult>, cur: nat, index: nat, vrf: int, shared: set<Prefix>) returns (owns: bool, crowded: bool)
    ensures owns <==> exists link :: link in shared && IsPair(devices, cur, index, vrf, link)
    ensures crowded <==> exists link :: link in shared && IsCrowd(devices, vrf, link)
  {
    owns, crowded := false, false;
    var todo := shared;
    while todo != {}
      invariant todo <= shared
      invariant owns <==> exists link :: link in shared - todo && IsPair(devices, cur, index, vrf, link)
      invariant crowded <==> exists link :: link in shared - todo && IsCrowd(devices, vrf, link)
      decreases |todo|
    {
      var link :| link in todo;
      var participants := CountParticipants(devices, link, vrf);
      if |participants| > 2 {
        crowded := true;
        assert IsCrowd(devices, vrf, link);
      } else if |participants| == 2 && cur in participants && index in participants {
        owns := true;
        assert IsPair(devices, cur, index, vrf, link);
      }
      todo := todo - {link};
    }
  }

  /** Address `m` of the device is the gateway, on `link`. */
  ghost predicate Meets(device: DeviceResult, m: nat, gateway: Prefix, vrf: int, link: Prefix) {
    && m < |device.addresses| && device.addresses[m].vrf == vrf && device.addresses[m].address == gateway
    && link in InterfaceLinks(device, device.addresses[m], vrf)
  }

  method OwnerOn(devices: seq<DeviceResult>, cur: nat, index: nat, route: Route, gateway: Prefix, vrf: int, links: set<Prefix>)
    returns (owns: bool, crowded: bool)
    requires cur < |devices| && index < |devices| && links == GatewayLinks(devices[cur].routes, gateway, route.iface, vrf)
    ensures owns <==> Owns(devices, cur, index, route, gateway, vrf)
    ensures crowded <==> exists link :: Crowded(devices, cur, index, route, gateway, vrf, link)
  {
    owns, crowded := false, false;
    if index != cur && devices[index].online {
      hide IsPair, IsCrowd, InterfaceLinks, GatewayLinks, Owns, Crowded;
      var device := devices[index];
      for l := 0 to |device.addresses|
        invariant owns <==> exists m: nat, link :: m < l && Meets(device, m, gateway, vrf, link) && link in links && IsPair(devices, cur, index, vrf, link)
        invariant crowded <==> exists m: nat, link :: m < l && Meets(device, m, gateway, vrf, link) && link in links && IsCrowd(devices, vrf, link)
      {
        var address := device.addresses[l];
        if address.vrf == vrf && address.address == gateway {
          var candidates := LinksOfAddress(device, address, vrf);
          var shared := links * candidates;
          var pair, crowd := SharedLinks(devices, cur, index, vrf, shared);
          forall link ensures link in shared <==> link in links && Meets(device, l, gateway, vrf, link) { }
          owns, crowded := owns || pair, crowded || crowd;
        }
      }
      CarrierIs(devices, cur, index, route, gateway, vrf);
    } else {
      NoCarrier(devices, cur, index, route, gateway, vrf);
    }
  }

  lemma CarrierIs(devices: seq<DeviceResult>, cur: nat, index: nat, route: Route, gateway: Prefix, vrf: int)
    requires cur < |devices| && index < |devices| && index != cur && devices[index].online
    ensures var device, links := devices[index], GatewayLinks(devices[cur].routes, gateway, route.iface, vrf);
      && (Owns(devices, cur, index, route, gateway, vrf)
          <==> exists m: nat, link :: m < |device.addresses| && Meets(device, m, gateway, vrf, link) && link in links && IsPair(devices, cur, index, vrf, link))
      && ((exists link :: Crowded(devices, cur, index, route, gateway, vrf, link))
          <==> exists m: nat, link :: m < |device.addresses| && Meets(device, m, gateway, vrf, link) && link in links && IsCrowd(devices, vrf, link))
  {
    hide InterfaceLinks, GatewayLinks, Participants;
    var device, links := devices[index], GatewayLinks(devices[cur].routes, gateway, route.iface, vrf);
    forall link ensures CarriesOn(devices, cur, index, route, gateway, vrf, link)
      <==> link in GatewayLinks(devices[cur].routes, gateway, route.iface, vrf) && exists m: nat :: Meets(device, m, gateway, vrf, link)
    {
      CarriesByIndex(devices, cur, index, route, gateway, vrf, link);
    }
    if Owns(devices, cur, index, route, gateway, vrf) {
      var link :| OwnsOn(devices, cur, index, route, gateway, vrf, link);
      var m: nat :| Meets(device, m, gateway, vrf, link);
      assert IsPair(devices, cur, index, vrf, link);
    }
    if m: nat, link :| m < |device.addresses| && Meets(device, m, gateway, vrf, link) && link in links && IsPair(devices, cur, index, vrf, link) {
      assert OwnsOn(devices, cur, index, route, gateway, vrf, link);
    }
    if link :| Crowded(devices, cur, index, route, gateway, vrf, link) {
      var m: nat :| Meets(device, m, gateway, vrf, link);
      assert IsCrowd(devices, vrf, link);
    }
    if m: nat, link :| m < |device.addresses| && Meets(device, m, gateway, vrf, link) && link in links && IsCrowd(devices, vrf, link) {
      assert Crowded(devices, cur, index, route, gateway, vrf, link);
    }
  }

  lemma CarriesByIndex(devices: seq<DeviceResult>, cur: nat, index: nat, route: Route, gateway: Prefix, vrf: int, link: Prefix)
    requires cur < |devices| && index < |devices| && index != cur && devices[index].online
    ensures CarriesOn(devices, cur, index, route, gateway, vrf, link)
      <==> link in GatewayLinks(devices[cur].routes, gateway, route.iface, vrf) && exists m: nat :: Meets(devices[index], m, gateway, vrf, link)
  {
    hide InterfaceLinks, GatewayLinks;
    var device := devices[index];
    if CarriesOn(devices, cur, index, route, gateway, vrf, link) {
      var a :| a in device.addresses && a.vrf == vrf && a.address == gateway && link in InterfaceLinks(device, a, vrf);
      var m: nat :| m < |device.addresses| && device.addresses[m] == a;
      assert Meets(device, m, gateway, vrf, link);
    }
    if m: nat :| Meets(device, m, gateway, vrf, link) {
      assert device.addresses[m] in device.addresses;
    }
  }

  lemma OnlyDevicesCarry(devices: seq<DeviceResult>, cur: nat, route: Route, gateway: Prefix, vrf: int)
    requires cur < |devices|
    ensures forall i: nat :: Owns(devices, cur, i, route, gateway, vrf) ==> i < |devices|
    ensures forall i: nat, link :: Crowded(devices, cur, i, route, gateway, vrf, link) ==> i < |devices|
  {
    hide GatewayLinks, InterfaceLinks, Participants;
  }

  lemma NoCarrier(devices: seq<DeviceResult>, cur: nat, index: nat, route: Route, gateway: Prefix, vrf: int)
    requires cur < |devices| && index < |devices| && (index == cur || !devices[index].online)
    ensures !Owns(devices, cur, index, route, gateway, vrf)
    ensures forall link :: !Crowded(devices, cur, index, route, gateway, vrf, link)
  {
  }

  // ---------------------------------------------------------------- one hop

  /** What the routes of a hop rule out before any link is looked at. */
  method Usable(selected: seq<Route>) returns (status: Status)
    ensures status == Complete <==> selected != [] && forall m :: 0 <= m < |selected| ==> !selected[m].blackhole && selected[m].hop.Some?
    ensures status == Unreachable <==> selected == [] || exists m :: 0 <= m < |selected| && selected[m].blackhole
    ensures status in {Complete, Unreachable, Unresolved}
  {
    status := if selected == [] then Unreachable else Complete;
    for l := 0 to |selected|
      invariant status == Complete <==> selected != [] && forall m :: 0 <= m < l ==> !selected[m].blackhole
      invariant status in {Complete, Unreachable}
    {
      if selected[l].blackhole { status := Unreachable; }
    }
    if status == Complete {
      for l := 0 to |selected|
        invariant status == Complete <==> forall m :: 0 <= m < l ==> selected[m].hop.Some?
        invariant status in {Complete, Unresolved}
      {
        if selected[l].hop.None? { status := Unresolved; }
      }
    }
  }

  ghost predicate Selected(devices: seq<DeviceResult>, destination: Prefix, vrf: int, cur: nat, selected: seq<Route>) {
    cur < |devices| && forall r :: r in selected <==> Effective(devices[cur].routes, destination, vrf, r)
  }

  ghost predicate Nobody(devices: seq<DeviceResult>, cur: nat, route: Route, gateway: Prefix, vrf: int)
    requires cur < |devices|
  {
    forall i: nat :: !Owns(devices, cur, i, route, gateway, vrf)
  }

  /** Why a usable route hands the destination to no device. */
  ghost predicate Stuck(devices: seq<DeviceResult>, cur: nat, route: Route, vrf: int, incomplete: bool, status: Status)
    requires cur < |devices| && route.hop.Some?
  {
    var gateway := route.hop.value;
    if GatewayLinks(devices[cur].routes, gateway, route.iface, vrf) == {} then
      status == Unresolved
    else if AmbiguousLink(devices, cur, route, gateway, vrf) then
      status == Ambiguous
    else if Nobody(devices, cur, route, gateway, vrf) then
      status == if incomplete then Partial else Unresolved
    else
      status == Ambiguous && forall n: nat :: !HandsOver(devices, cur, n, route, vrf)
  }

  ghost predicate Passes(devices: seq<DeviceResult>, cur: nat, route: Route, vrf: int)
    requires cur < |devices|
  {
    exists n: nat :: HandsOver(devices, cur, n, route, vrf)
  }

  /** Route `m` is the first one that hands the destination to no device. */
  ghost predicate StuckAt(devices: seq<DeviceResult>, cur: nat, vrf: int, selected: seq<Route>, incomplete: bool, status: Status, m: nat) {
    && cur < |devices| && m < |selected| && selected[m].hop.Some? && Stuck(devices, cur, selected[m], vrf, incomplete, status)
    && forall l :: 0 <= l < m ==> Passes(devices, cur, selected[l], vrf)
  }

  /** Why the routes that a device selected have no next device. */
  ghost predicate Blocks(devices: seq<DeviceResult>, cur: nat, vrf: int, selected: seq<Route>, incomplete: bool, status: Status) {
    if selected == [] || (exists r :: r in selected && r.blackhole) then status == Unreachable
    else if exists r :: r in selected && r.hop.None? then status == Unresolved
    else (exists m: nat :: StuckAt(devices, cur, vrf, selected, incomplete, status, m)) || (status == Ambiguous && Split(devices, cur, vrf, selected))
  }

  /** Every route hands the destination to a device, but not all to the same. */
  ghost predicate Split(devices: seq<DeviceResult>, cur: nat, vrf: int, selected: seq<Route>) {
    && cur < |devices| && (forall r :: r in selected ==> Passes(devices, cur, r, vrf))
    && exists n: nat, r, q :: r in selected && q in selected && HandsOver(devices, cur, n, r, vrf) && !HandsOver(devices, cur, n, q, vrf)
  }

  /** The one device that a route hands the destination to. */
  method OwnerOf(devices: seq<DeviceResult>, cur: nat, route: Route, vrf: int, incomplete: bool) returns (owner: Option<nat>, status: Status)
    requires cur < |devices| && !route.blackhole && route.hop.Some?
    ensures owner.Some? ==> HandsOver(devices, cur, owner.value, route, vrf) && owner.value < |devices| && status == Complete
    ensures owner.None? ==> status != Complete && forall n: nat :: !HandsOver(devices, cur, n, route, vrf)
    ensures owner.None? ==> Stuck(devices, cur, route, vrf, incomplete, status)
  {
    hide GatewayLinks, AmbiguousLink, Owns;
    owner, status := None, Complete;
    var owners, directLink, ambiguous := GatewayOwners(devices, cur, route, route.hop.value, vrf);
    if !directLink {
      status := Unresolved;
    } else if ambiguous {
      status := Ambiguous;
    } else if |owners| == 0 {
      status := if incomplete then Partial else Unresolved;
      NoOneOwner(devices, cur, route, vrf, owners);
      assert Nobody(devices, cur, route, route.hop.value, vrf);
    } else if |owners| > 1 {
      status := Ambiguous;
      NoOneOwner(devices, cur, route, vrf, owners);
      assert owners[0] in owners;
    } else {
      assert owners[0] in owners;
      OwnerIsDevice(devices, cur, owners[0], route, vrf);
      owner := Some(owners[0]);
    }
  }

  lemma NoOneOwner(devices: seq<DeviceResult>, cur: nat, route: Route, vrf: int, owners: seq<nat>)
    requires cur < |devices| && route.hop.Some? && |owners| != 1
    requires forall i: nat :: i in owners <==> Owns(devices, cur, i, route, route.hop.value, vrf)
    requires forall i: nat, j: nat :: Different(owners, i, j)
    ensures forall n: nat :: !HandsOver(devices, cur, n, route, vrf)
  {
    hide GatewayLinks, AmbiguousLink, Owns;
    forall n: nat ensures !HandsOver(devices, cur, n, route, vrf) {
      if |owners| > 1 {
        assert Different(owners, 0, 1) && owners[0] in owners && owners[1] in owners;
      } else {
        assert n !in owners;
      }
    }
  }

  /** The devices that usable routes hand the destination to. */
  method NextDevices(devices: seq<DeviceResult>, destination: Prefix, vrf: int, cur: nat, selected: seq<Route>, incomplete: bool)
    returns (nexts: set<nat>, status: Status)
    requires Selected(devices, destination, vrf, cur, selected) && cur < |devices|
    requires forall m :: 0 <= m < |selected| ==> !selected[m].blackhole && selected[m].hop.Some?
    ensures status == Complete ==> HandedTo(devices, cur, vrf, selected, |selected|, nexts)
    ensures status != Complete ==> forall n: nat :: !Forwards(devices, destination, vrf, cur, n)
    ensures status != Complete ==> exists m: nat :: StuckAt(devices, cur, vrf, selected, incomplete, status, m)
  {
    hide HandsOver, HandedTo, Forwards, Selected, Stuck, StuckAt, Passes;
    nexts, status := {}, Complete;
    var l := 0;
    NoneHanded(devices, cur, vrf, selected);
    while l < |selected| && status == Complete
      invariant 0 <= l <= |selected|
      invariant status == Complete ==> HandedTo(devices, cur, vrf, selected, l, nexts)
      invariant status != Complete ==> forall n: nat :: !Forwards(devices, destination, vrf, cur, n)
      invariant status != Complete ==> exists m: nat :: StuckAt(devices, cur, vrf, selected, incomplete, status, m)
    {
      var owner: Option<nat>;
      owner, status := OwnerOf(devices, cur, selected[l], vrf, incomplete);
      if owner.Some? {
        HandedMore(devices, cur, vrf, selected, l, nexts, owner.value);
        nexts := nexts + {owner.value};
      } else {
        Blocked(devices, destination, vrf, cur, selected, l);
        FirstStuck(devices, cur, vrf, selected, incomplete, status, l, nexts);
      }
      l := l + 1;
    }
  }

  lemma FirstStuck(devices: seq<DeviceResult>, cur: nat, vrf: int, selected: seq<Route>, incomplete: bool, status: Status, l: nat, nexts: set<nat>)
    requires cur < |devices| && l < |selected| && HandedTo(devices, cur, vrf, selected, l, nexts)
    requires selected[l].hop.Some? && Stuck(devices, cur, selected[l], vrf, incomplete, status)
    ensures StuckAt(devices, cur, vrf, selected, incomplete, status, l)
  {
    hide HandsOver, Stuck;
  }

  method OnlyNext(devices: seq<DeviceResult>, destination: Prefix, vrf: int, cur: nat, selected: seq<Route>, nexts: set<nat>)
    returns (next: Option<nat>, status: Status)
    requires Selected(devices, destination, vrf, cur, selected) && selected != [] && cur < |devices|
    requires HandedTo(devices, cur, vrf, selected, |selected|, nexts)
    ensures next.Some? ==> Forwards(devices, destination, vrf, cur, next.value)
    ensures next.None? ==> status == Ambiguous && Split(devices, cur, vrf, selected) && forall n: nat :: !Forwards(devices, destination, vrf, cur, n)
  {
    hide *;
    next, status := None, Ambiguous;
    if |nexts| == 1 {
      var n :| n in nexts;
      AllToOne(devices, destination, vrf, cur, selected, nexts, n);
      next, status := Some(n), Complete;
    } else {
      TwoNexts(devices, destination, vrf, cur, selected, nexts);
    }
  }

  /** The one device that all effective routes of `cur` hand the destination to. */
  method NextDevice(devices: seq<DeviceResult>, destination: Prefix, vrf: int, cur: nat, selected: seq<Route>, incomplete: bool)
    returns (next: Option<nat>, status: Status)
    requires Selected(devices, destination, vrf, cur, selected)
    ensures next.Some? ==> Forwards(devices, destination, vrf, cur, next.value)
    ensures next.None? ==> status != Complete && forall n: nat :: !Forwards(devices, destination, vrf, cur, n)
    ensures next.None? ==> Blocks(devices, cur, vrf, selected, incomplete, status)
  {
    assert cur < |devices|;
    hide *;
    next := None;
    status := Usable(selected);
    if status == Complete {
      var nexts: set<nat>;
      nexts, status := NextDevices(devices, destination, vrf, cur, selected, incomplete);
      if status == Complete {
        next, status := OnlyNext(devices, destination, vrf, cur, selected, nexts);
      }
      if next.None? { StuckOrSplit(devices, cur, vrf, selected, incomplete, status); }
    } else {
      RuledOut(devices, cur, vrf, selected, incomplete, status);
      Unusable(devices, destination, vrf, cur, selected);
    }
  }

  lemma StuckOrSplit(devices: seq<DeviceResult>, cur: nat, vrf: int, selected: seq<Route>, incomplete: bool, status: Status)
    requires selected != [] && forall m :: 0 <= m < |selected| ==> !selected[m].blackhole && selected[m].hop.Some?
    requires (exists m: nat :: StuckAt(devices, cur, vrf, selected, incomplete, status, m)) || (status == Ambiguous && Split(devices, cur, vrf, selected))
    ensures Blocks(devices, cur, vrf, selected, incomplete, status)
  {
    hide StuckAt, Split;
  }

  lemma RuledOut(devices: seq<DeviceResult>, cur: nat, vrf: int, selected: seq<Route>, incomplete: bool, status: Status)
    requires selected == [] || exists m :: 0 <= m < |selected| && (selected[m].blackhole || selected[m].hop.None?)
    requires status == Unreachable <==> selected == [] || exists m :: 0 <= m < |selected| && selected[m].blackhole
    requires status in {Unreachable, Unresolved}
    ensures Blocks(devices, cur, vrf, selected, incomplete, status)
  {
    hide StuckAt, Split;
    assert (exists r :: r in selected && r.blackhole) <==> exists m :: 0 <= m < |selected| && selected[m].blackhole;
    if status == Unresolved {
      var m :| 0 <= m < |selected| && (selected[m].blackhole || selected[m].hop.None?);
      assert selected[m] in selected;
    }
  }

  lemma NoneHanded(devices: seq<DeviceResult>, cur: nat, vrf: int, selected: seq<Route>)
    requires cur < |devices|
    ensures HandedTo(devices, cur, vrf, selected, 0, {})
  {
  }

  /** The first `l` routes are handed over to exactly the devices in `nexts`. */
  ghost predicate HandedTo(devices: seq<DeviceResult>, cur: nat, vrf: int, selected: seq<Route>, l: nat, nexts: set<nat>)
    requires cur < |devices| && l <= |selected|
  {
    && (forall m :: 0 <= m < l ==> exists n :: n in nexts && HandsOver(devices, cur, n, selected[m], vrf))
    && (forall n :: n in nexts ==> n < |devices| && exists m :: 0 <= m < l && HandsOver(devices, cur, n, selected[m], vrf))
  }

  lemma HandedMore(devices: seq<DeviceResult>, cur: nat, vrf: int, selected: seq<Route>, l: nat, nexts: set<nat>, owner: nat)
    requires cur < |devices| && l < |selected| && HandedTo(devices, cur, vrf, selected, l, nexts)
    requires HandsOver(devices, cur, owner, selected[l], vrf) && owner < |devices|
    ensures HandedTo(devices, cur, vrf, selected, l + 1, nexts + {owner})
  {
    hide HandsOver;
  }

  lemma Blocked(devices: seq<DeviceResult>, destination: Prefix, vrf: int, cur: nat, selected: seq<Route>, l: nat)
    requires Selected(devices, destination, vrf, cur, selected) && l < |selected|
    requires forall n: nat :: !HandsOver(devices, cur, n, selected[l], vrf)
    ensures forall n: nat :: !Forwards(devices, destination, vrf, cur, n)
  {
    hide HandsOver, Effective;
    assert selected[l] in selected;
  }

  lemma AllToOne(devices: seq<DeviceResult>, destination: Prefix, vrf: int, cur: nat, selected: seq<Route>, nexts: set<nat>, n: nat)
    requires Selected(devices, destination, vrf, cur, selected) && selected != [] && |nexts| == 1 && n in nexts
    requires HandedTo(devices, cur, vrf, selected, |selected|, nexts)
    ensures Forwards(devices, destination, vrf, cur, n)
  {
    hide HandsOver, Effective;
    OnlyMember(nexts, n);
    assert selected[0] in selected;
  }

  lemma OwnerIsDevice(devices: seq<DeviceResult>, cur: nat, i: nat, route: Route, vrf: int)
    requires cur < |devices| && route.hop.Some? && Owns(devices, cur, i, route, route.hop.value, vrf)
    ensures i < |devices|
  {
  }

  lemma Unusable(devices: seq<DeviceResult>, destination: Prefix, vrf: int, cur: nat, selected: seq<Route>)
    requires Selected(devices, destination, vrf, cur, selected)
    requires selected == [] || exists m :: 0 <= m < |selected| && (selected[m].blackhole || selected[m].hop.None?)
    ensures forall n: nat :: !Forwards(devices, destination, vrf, cur, n)
  {
    hide Effective;
    if m :| 0 <= m < |selected| && (selected[m].blackhole || selected[m].hop.None?) {
      assert selected[m] in selected;
    }
  }

  lemma TwoNexts(devices: seq<DeviceResult>, destination: Prefix, vrf: int, cur: nat, selected: seq<Route>, nexts: set<nat>)
    requires Selected(devices, destination, vrf, cur, selected) && |nexts| != 1 && selected != []
    requires HandedTo(devices, cur, vrf, selected, |selected|, nexts)
    ensures forall n: nat :: !Forwards(devices, destination, vrf, cur, n)
    ensures Split(devices, cur, vrf, selected)
  {
    hide Effective, HandsOver;
    NotAllToOne(devices, cur, vrf, selected, nexts);
    forall n: nat ensures !Forwards(devices, destination, vrf, cur, n) {
      if Forwards(devices, destination, vrf, cur, n) {
        forall k | k in nexts ensures k == n {
          var m :| 0 <= m < |selected| && HandsOver(devices, cur, k, selected[m], vrf);
          assert selected[m] in selected;
          SameNext(devices, cur, k, n, selected[m], vrf);
        }
        var k :| k in nexts && HandsOver(devices, cur, k, selected[0], vrf);
        OnlyElement(nexts, n, k);
      }
    }
  }

  lemma NotAllToOne(devices: seq<DeviceResult>, cur: nat, vrf: int, selected: seq<Route>, nexts: set<nat>)
    requires |nexts| != 1 && selected != [] && cur < |devices| && HandedTo(devices, cur, vrf, selected, |selected|, nexts)
    ensures Split(devices, cur, vrf, selected)
  {
    hide HandsOver, HandedTo, Passes;
    forall r | r in selected ensures Passes(devices, cur, r, vrf) {
      HandedPasses(devices, cur, vrf, selected, nexts, r);
    }
    var n := TakerOf(devices, cur, selected[0], vrf);
    if forall r :: r in selected ==> HandsOver(devices, cur, n, r, vrf) {
      OneDevice(devices, cur, vrf, selected, nexts, n);
    }
  }

  lemma TakerOf(devices: seq<DeviceResult>, cur: nat, route: Route, vrf: int) returns (n: nat)
    requires cur < |devices| && Passes(devices, cur, route, vrf)
    ensures HandsOver(devices, cur, n, route, vrf)
  {
    hide HandsOver;
    n :| HandsOver(devices, cur, n, route, vrf);
  }

  lemma HandedPasses(devices: seq<DeviceResult>, cur: nat, vrf: int, selected: seq<Route>, nexts: set<nat>, r: Route)
    requires cur < |devices| && HandedTo(devices, cur, vrf, selected, |selected|, nexts) && r in selected
    ensures Passes(devices, cur, r, vrf)
  {
    hide HandsOver;
    var m: nat :| m < |selected| && selected[m] == r;
  }

  lemma OneDevice(devices: seq<DeviceResult>, cur: nat, vrf: int, selected: seq<Route>, nexts: set<nat>, n: nat)
    requires selected != [] && cur < |devices| && HandedTo(devices, cur, vrf, selected, |selected|, nexts)
    requires forall r :: r in selected ==> HandsOver(devices, cur, n, r, vrf)
    ensures |nexts| == 1
  {
    hide HandsOver;
    forall k | k in nexts ensures k == n {
      var m :| 0 <= m < |selected| && HandsOver(devices, cur, k, selected[m], vrf);
      assert selected[m] in selected;
      SameNext(devices, cur, k, n, selected[m], vrf);
    }
    var k := TakerIn(devices, cur, vrf, selected, nexts, 0);
    OnlyElement(nexts, n, k);
  }

  lemma TakerIn(devices: seq<DeviceResult>, cur: nat, vrf: int, selected: seq<Route>, nexts: set<nat>, m: nat) returns (k: nat)
    requires m < |selected| && cur < |devices| && HandedTo(devices, cur, vrf, selected, |selected|, nexts)
    ensures k in nexts && HandsOver(devices, cur, k, selected[m], vrf)
  {
    hide HandsOver;
    var route := selected[m];
    assert exists n :: n in nexts && HandsOver(devices, cur, n, route, vrf);
    k :| k in nexts && HandsOver(devices, cur, k, selected[m], vrf);
  }

  lemma SameNext(devices: seq<DeviceResult>, cur: nat, i: nat, j: nat, route: Route, vrf: int)
    requires cur < |devices| && HandsOver(devices, cur, i, route, vrf) && HandsOver(devices, cur, j, route, vrf)
    ensures i == j
  {
    assert Owns(devices, cur, i, route, route.hop.value, vrf);
  }

  lemma OnlyElement(s: set<nat>, n: nat, k: nat)
    requires k in s && forall l :: l in s ==> l == n
    ensures |s| == 1
  {
    assert s == {n};
  }

  lemma ForwardsToOne(devices: seq<DeviceResult>, destination: Prefix, vrf: int, cur: nat, i: nat, j: nat)
    requires Forwards(devices, destination, vrf, cur, i) && Forwards(devices, destination, vrf, cur, j)
    ensures i == j
  {
    hide Effective;
    var r :| Effective(devices[cur].routes, destination, vrf, r);
    SameNext(devices, cur, i, j, r, vrf);
  }

  // ---------------------------------------------------------------- the path

  function RoleAt(n: nat, j: nat, reached: bool): Role {
    if j == 0 then (if reached && n == 1 then SourceDestination else Source)
    else if reached && j + 1 == n then Destination
    else Transit
  }

  method AssignRoles(hops: seq<Hop>, reached: bool) returns (r: seq<Hop>)
    ensures |r| == |hops|
    ensures forall j :: 0 <= j < |hops| ==> r[j] == hops[j].(role := RoleAt(|hops|, j, reached))
  {
    r := [];
    for j := 0 to |hops|
      invariant |r| == j && forall l :: 0 <= l < j ==> r[l] == hops[l].(role := Transit)
    {
      r := r + [hops[j].(role := Transit)];
    }
    if |r| > 0 {
      r := r[0 := r[0].(role := Source)];
      if reached {
        if |r| == 1 {
          r := r[0 := r[0].(role := SourceDestination)];
        } else {
          r := r[|r| - 1 := r[|r| - 1].(role := Destination)];
        }
      }
    }
  }

  /** The walk so far, ending at `cur`, is the beginning of every path there is. */
  ghost predicate LeadsOn(devices: seq<DeviceResult>, source: Prefix, destination: Prefix, vrf: int, p: seq<nat>) {
    forall w :: IsPath(devices, source, destination, vrf, w) ==> p <= w
  }

  lemma WalkGoesOn(devices: seq<DeviceResult>, source: Prefix, destination: Prefix, vrf: int, p: seq<nat>, last: nat, next: nat)
    requires Walk(devices, destination, vrf, p) && p[|p| - 1] == last && Forwards(devices, destination, vrf, last, next) && next !in p
    requires LeadsOn(devices, source, destination, vrf, p) && !OnlyOwner(devices, destination, vrf, last)
    ensures Walk(devices, destination, vrf, p + [next]) && LeadsOn(devices, source, destination, vrf, p + [next])
  {
    assert next < |devices|;
    hide Forwards, OnlyOwner;
    forall i: nat, j: nat ensures Different(p + [next], i, j) { assert Different(p, i, j); }
    forall j: nat ensures Steps(devices, destination, vrf, p + [next], j) { assert Steps(devices, destination, vrf, p, j); }
    forall w | IsPath(devices, source, destination, vrf, w) ensures p + [next] <= w {
      PathGoesOn(devices, source, destination, vrf, p, last, w);
      ForwardsToOne(devices, destination, vrf, last, next, w[|p|]);
    }
  }

  /** A path that begins with `p` but does not end there has a next device. */
  lemma PathGoesOn(devices: seq<DeviceResult>, source: Prefix, destination: Prefix, vrf: int, p: seq<nat>, last: nat, w: seq<nat>)
    requires p != [] && p[|p| - 1] == last && p <= w && IsPath(devices, source, destination, vrf, w)
    requires !OnlyOwner(devices, destination, vrf, last)
    ensures |p| < |w| && Forwards(devices, destination, vrf, last, w[|p|])
  {
    hide Forwards, OnlyOwner;
    assert Steps(devices, destination, vrf, w, |p| - 1);
  }

  lemma NoReturn(devices: seq<DeviceResult>, source: Prefix, destination: Prefix, vrf: int, w: seq<nat>, i: nat, j: nat)
    requires IsPath(devices, source, destination, vrf, w) && i < j < |w|
    ensures w[i] != w[j]
  {
    assert Different(w, i, j);
  }

  lemma DeadEnd(devices: seq<DeviceResult>, source: Prefix, destination: Prefix, vrf: int, p: seq<nat>, last: nat)
    requires p != [] && p[|p| - 1] == last && LeadsOn(devices, source, destination, vrf, p)
    requires !OnlyOwner(devices, destination, vrf, last)
    requires (forall n: nat :: !Forwards(devices, destination, vrf, last, n))
      || (exists n: nat :: n in p && Forwards(devices, destination, vrf, last, n))
    ensures forall w :: !IsPath(devices, source, destination, vrf, w)
  {
    hide Forwards, OnlyOwner;
    forall w ensures !IsPath(devices, source, destination, vrf, w) {
      if IsPath(devices, source, destination, vrf, w) {
        PathGoesOn(devices, source, destination, vrf, p, last, w);
        var n: nat :| n in p && Forwards(devices, destination, vrf, last, n);
        ForwardsToOne(devices, destination, vrf, last, n, w[|p|]);
        var i: nat :| i < |p| && p[i] == n;
        NoReturn(devices, source, destination, vrf, w, i, |p|);
      }
    }
  }

  lemma PathEnds(devices: seq<DeviceResult>, source: Prefix, destination: Prefix, vrf: int, p: seq<nat>)
    requires p != [] && LeadsOn(devices, source, destination, vrf, p) && OnlyOwner(devices, destination, vrf, p[|p| - 1])
    ensures forall w :: IsPath(devices, source, destination, vrf, w) ==> w == p
  {
    hide Forwards;
    forall w | IsPath(devices, source, destination, vrf, w) ensures w == p {
      assert IsEndpoint(devices, destination, vrf, p[|p| - 1]);
      assert Different(w, |p| - 1, |w| - 1);
    }
  }

  ghost predicate SomeOffline(devices: seq<DeviceResult>) {
    exists i :: 0 <= i < |devices| && !devices[i].online
  }

  ghost predicate SomeUnread(devices: seq<DeviceResult>) {
    exists i :: 0 <= i < |devices| && devices[i].online && devices[i].topologyError
  }

  /** How a walk that can be followed no further ends. */
  ghost predicate Ends(devices: seq<DeviceResult>, destination: Prefix, vrf: int, w: seq<nat>, selected: seq<Route>, status: Status) {
    w != [] &&
    var cur := w[|w| - 1];
    if IsEndpoint(devices, destination, vrf, cur) then
      status == if SomeOffline(devices) || (|w| > 1 && SomeUnread(devices)) then Partial else Complete
    else
      || (status == Unreachable && exists n: nat :: n in w && Forwards(devices, destination, vrf, cur, n))
      || (status != Complete && Blocks(devices, cur, vrf, selected, SomeOffline(devices) || SomeUnread(devices), status))
  }

  /** The walk that was followed, from the only owner of the source on, and its end. */
  ghost predicate FollowedTo(devices: seq<DeviceResult>, source: Prefix, destination: Prefix, vrf: int, hops: seq<Hop>, status: Status) {
    var w := Indices(hops);
    && Walk(devices, destination, vrf, w) && OnlyOwner(devices, source, vrf, w[0])
    && Ends(devices, destination, vrf, w, hops[|hops| - 1].selected, status)
  }

  ghost predicate Unowned(devices: seq<DeviceResult>, network: Prefix, vrf: int) {
    forall j: nat :: !IsEndpoint(devices, network, vrf, j)
  }

  ghost predicate Contested(devices: seq<DeviceResult>, network: Prefix, vrf: int) {
    exists i: nat, j: nat :: i != j && IsEndpoint(devices, network, vrf, i) && IsEndpoint(devices, network, vrf, j)
  }

  /** The answer that one end of the path gives if it has not exactly one owner. */
  ghost predicate NoSingleOwner(devices: seq<DeviceResult>, network: Prefix, vrf: int, status: Status) {
    || (status == Ambiguous && Contested(devices, network, vrf))
    || (status == Partial && Unowned(devices, network, vrf) && SomeOffline(devices))
    || (status == NotFound && Unowned(devices, network, vrf) && !SomeOffline(devices))
  }

  ghost predicate Single(devices: seq<DeviceResult>, network: Prefix, vrf: int) {
    exists i: nat :: OnlyOwner(devices, network, vrf, i)
  }

  ghost predicate Arrived(devices: seq<DeviceResult>, destination: Prefix, vrf: int, hops: seq<Hop>) {
    hops != [] && IsEndpoint(devices, destination, vrf, hops[|hops| - 1].index)
  }

  /** What the answer means: the first end without a single owner decides, and
      with both ends known the walk between them does. */
  ghost predicate Answers(devices: seq<DeviceResult>, source: Prefix, destination: Prefix, vrf: int, status: Status, hops: seq<Hop>) {
    if |devices| == 0 then status == Empty && hops == []
    else if !Single(devices, source, vrf) then NoSingleOwner(devices, source, vrf, status) && hops == []
    else if !Single(devices, destination, vrf) then NoSingleOwner(devices, destination, vrf, status) && hops == []
    else FollowedTo(devices, source, destination, vrf, hops, status)
  }

  method AnyOffline(devices: seq<DeviceResult>) returns (found: bool)
    ensures found <==> SomeOffline(devices)
  {
    found := false;
    for i := 0 to |devices|
      invariant found <==> exists l :: 0 <= l < i && !devices[l].online
    {
      if !devices[i].online { found := true; }
    }
  }

  method AnyTopologyError(devices: seq<DeviceResult>) returns (found: bool)
    ensures found <==> SomeUnread(devices)
  {
    found := false;
    for i := 0 to |devices|
      invariant found <==> exists l :: 0 <= l < i && devices[l].online && devices[l].topologyError
    {
      if devices[i].online && devices[i].topologyError { found := true; }
    }
  }

  /** The walk from the owner of the source to the owner of the destination. It
      is complete exactly when there is a path, and then its hops are that path;
      it neither returns to a device nor runs out of devices. */
  method DerivePath(devices: seq<DeviceResult>, source: Prefix, destination: Prefix, vrf: int)
    returns (status: Status, hops: seq<Hop>, ghost reached: bool, ghost revisited: bool, ghost exhausted: bool)
    requires DevicesOk(devices) && WellFormed(source) && WellFormed(destination)
    ensures status == Complete <==> exists w :: IsPath(devices, source, destination, vrf, w)
    ensures status == Complete ==> IsPath(devices, source, destination, vrf, Indices(hops)) && reached
    ensures Answers(devices, source, destination, vrf, status, hops)
    ensures forall j :: 0 <= j < |hops| ==> Selected(devices, destination, vrf, hops[j].index, hops[j].selected)
    ensures forall j :: 0 <= j < |hops| ==> hops[j].role == RoleAt(|hops|, j, reached)
    ensures reached <==> Arrived(devices, destination, vrf, hops)
    ensures |hops| <= |devices| && !revisited && !exhausted
  {
    hide IsPath, Walk, OnlyOwner, IsEndpoint, Forwards, Selected, FollowedTo, SomeOffline, NoSingleOwner;
    status, hops, reached, revisited, exhausted := Empty, [], false, false, false;
    var sources := EndpointCandidates(devices, source, vrf);
    var destinations := EndpointCandidates(devices, destination, vrf);
    OneCandidate(devices, source, vrf, sources);
    OneCandidate(devices, destination, vrf, destinations);
    var offline := AnyOffline(devices);
    ManyOrNone(devices, source, vrf, sources);
    ManyOrNone(devices, destination, vrf, destinations);
    if |devices| == 0 {
      status := Empty;
      NoOwners(devices, source, destination, vrf, sources, destinations);
    } else if |sources| != 1 {
      status := if |sources| > 1 then Ambiguous else if offline then Partial else NotFound;
      NoOwners(devices, source, destination, vrf, sources, destinations);
    } else if |destinations| != 1 {
      status := if |destinations| > 1 then Ambiguous else if offline then Partial else NotFound;
      NoOwners(devices, source, destination, vrf, sources, destinations);
    } else {
      status, hops, reached, revisited, exhausted := FollowRoutes(devices, source, destination, vrf, sources[0], destinations[0], offline);
    }
  }

  lemma NoOwners(devices: seq<DeviceResult>, source: Prefix, destination: Prefix, vrf: int, sources: seq<nat>, destinations: seq<nat>)
    requires |devices| == 0 || (forall i: nat :: !OnlyOwner(devices, source, vrf, i)) || (forall i: nat :: !OnlyOwner(devices, destination, vrf, i))
    ensures forall w :: !IsPath(devices, source, destination, vrf, w)
  {
    forall w ensures !IsPath(devices, source, destination, vrf, w) {
      if |devices| == 0 && w != [] { assert !(w[0] < |devices|); }
    }
  }

  /** The beginning of every path: the walk so far and the device it has come to. */
  ghost predicate Underway(devices: seq<DeviceResult>, source: Prefix, destination: Prefix, vrf: int, hops: seq<Hop>, cur: nat) {
    var p := Indices(hops) + [cur];
    Walk(devices, destination, vrf, p) && OnlyOwner(devices, source, vrf, p[0]) && LeadsOn(devices, source, destination, vrf, p)
  }

  lemma UnderwayStarts(devices: seq<DeviceResult>, source: Prefix, destination: Prefix, vrf: int, first: nat)
    requires OnlyOwner(devices, source, vrf, first)
    ensures Underway(devices, source, destination, vrf, [], first)
  {
    assert Indices([]) + [first] == [first];
    assert IsEndpoint(devices, source, vrf, first);
  }

  lemma UnderwayIsShort(devices: seq<DeviceResult>, source: Prefix, destination: Prefix, vrf: int, hops: seq<Hop>, cur: nat)
    requires Underway(devices, source, destination, vrf, hops, cur)
    ensures |hops| < |devices| && cur < |devices| && cur !in Indices(hops)
  {
    var p := Indices(hops) + [cur];
    assert p[|hops|] == cur;
    WalksAreShort(p, |devices|);
    forall i | 0 <= i < |hops| ensures Indices(hops)[i] != cur { assert Different(p, i, |hops|); }
  }

  lemma UnderwayGoesOn(devices: seq<DeviceResult>, source: Prefix, destination: Prefix, vrf: int, hops: seq<Hop>, hop: Hop, next: nat)
    requires Underway(devices, source, destination, vrf, hops, hop.index) && Forwards(devices, destination, vrf, hop.index, next)
    requires !IsEndpoint(devices, destination, vrf, hop.index) && !OnlyOwner(devices, destination, vrf, hop.index)
    ensures next in Indices(hops + [hop]) ==> FollowedTo(devices, source, destination, vrf, hops + [hop], Unreachable)
    ensures next !in Indices(hops + [hop]) ==> Underway(devices, source, destination, vrf, hops + [hop], next)
    ensures next in Indices(hops + [hop]) ==> forall w :: !IsPath(devices, source, destination, vrf, w)
  {
    hide Forwards, OnlyOwner, IsPath, IsEndpoint, Blocks, SomeOffline, SomeUnread;
    var p := Indices(hops) + [hop.index];
    assert Indices(hops + [hop]) == p;
    if next in p {
      DeadEnd(devices, source, destination, vrf, p, hop.index);
    } else {
      WalkGoesOn(devices, source, destination, vrf, p, hop.index, next);
    }
  }

  lemma UnderwayStops(devices: seq<DeviceResult>, source: Prefix, destination: Prefix, vrf: int, hops: seq<Hop>, hop: Hop, status: Status)
    requires Underway(devices, source, destination, vrf, hops, hop.index) && !OnlyOwner(devices, destination, vrf, hop.index)
    requires forall n: nat :: !Forwards(devices, destination, vrf, hop.index, n)
    requires !IsEndpoint(devices, destination, vrf, hop.index) && status != Complete
    requires Blocks(devices, hop.index, vrf, hop.selected, SomeOffline(devices) || SomeUnread(devices), status)
    ensures FollowedTo(devices, source, destination, vrf, hops + [hop], status)
    ensures forall w :: !IsPath(devices, source, destination, vrf, w)
  {
    hide Forwards, OnlyOwner, IsPath, IsEndpoint, Blocks, SomeOffline, SomeUnread;
    assert Indices(hops + [hop]) == Indices(hops) + [hop.index];
    DeadEnd(devices, source, destination, vrf, Indices(hops) + [hop.index], hop.index);
  }

  lemma UnderwayArrives(devices: seq<DeviceResult>, source: Prefix, destination: Prefix, vrf: int, hops: seq<Hop>, hop: Hop, unsure: bool)
    requires Underway(devices, source, destination, vrf, hops, hop.index) && OnlyOwner(devices, destination, vrf, hop.index)
    requires unsure <==> SomeOffline(devices) || (hops != [] && SomeUnread(devices))
    ensures FollowedTo(devices, source, destination, vrf, hops + [hop], if unsure then Partial else Complete)
    ensures !unsure ==> IsPath(devices, source, destination, vrf, Indices(hops + [hop]))
    ensures unsure ==> forall w :: !IsPath(devices, source, destination, vrf, w)
  {
    hide Forwards, OnlyOwner;
    var p := Indices(hops) + [hop.index];
    assert Indices(hops + [hop]) == p;
    assert IsEndpoint(devices, destination, vrf, hop.index) by { OwnerIsEndpoint(devices, destination, vrf, hop.index); }
    PathEnds(devices, source, destination, vrf, p);
  }

  lemma OwnerIsEndpoint(devices: seq<DeviceResult>, network: Prefix, vrf: int, i: nat)
    requires OnlyOwner(devices, network, vrf, i)
    ensures IsEndpoint(devices, network, vrf, i)
  {
  }

  method FollowRoutes(devices: seq<DeviceResult>, source: Prefix, destination: Prefix, vrf: int, first: nat, last: nat, offline: bool)
    returns (status: Status, hops: seq<Hop>, ghost reached: bool, ghost revisited: bool, ghost exhausted: bool)
    requires DevicesOk(devices) && WellFormed(destination)
    requires OnlyOwner(devices, source, vrf, first) && OnlyOwner(devices, destination, vrf, last)
    requires offline <==> SomeOffline(devices)
    ensures status == Complete <==> exists w :: IsPath(devices, source, destination, vrf, w)
    ensures status == Complete ==> IsPath(devices, source, destination, vrf, Indices(hops)) && reached
    ensures FollowedTo(devices, source, destination, vrf, hops, status)
    ensures forall j :: 0 <= j < |hops| ==> Selected(devices, destination, vrf, hops[j].index, hops[j].selected)
    ensures forall j :: 0 <= j < |hops| ==> hops[j].role == RoleAt(|hops|, j, reached)
    ensures reached <==> Arrived(devices, destination, vrf, hops)
    ensures |hops| <= |devices| && !revisited && !exhausted
  {
    hide IsPath, OnlyOwner, IsEndpoint, Forwards, Underway, Effective, SomeOffline, SomeUnread, FollowedTo, Blocks;
    status, hops, reached, revisited, exhausted := Unreachable, [], false, false, false;
    var visited: set<nat> := {};
    var cur, topologyIncomplete, finished, arrived := first, false, false, false;
    UnderwayStarts(devices, source, destination, vrf, first);
    while !finished && |hops| <= |devices|
      invariant !finished ==> Underway(devices, source, destination, vrf, hops, cur) && visited == Visited(Indices(hops))
      invariant |hops| <= |devices| && !revisited
      invariant !finished ==> !arrived
      invariant finished ==> (arrived <==> Arrived(devices, destination, vrf, hops))
      invariant !finished ==> (topologyIncomplete <==> hops != [] && SomeUnread(devices))
      invariant finished ==> FollowedTo(devices, source, destination, vrf, hops, status)
      invariant !finished ==> status == Unreachable
      invariant finished && status == Complete ==> IsPath(devices, source, destination, vrf, Indices(hops)) && arrived
      invariant finished && status != Complete ==> forall w :: !IsPath(devices, source, destination, vrf, w)
      invariant forall j :: 0 <= j < |hops| ==> Selected(devices, destination, vrf, hops[j].index, hops[j].selected)
      decreases |devices| - |hops|, !finished
    {
      UnderwayIsShort(devices, source, destination, vrf, hops, cur);
      SameOwner(devices, destination, vrf, last, cur);
      if cur in visited {
        revisited, finished := true, true;
      } else {
        visited := visited + {cur};
        var selected := EffectiveRoutes(devices[cur].routes, destination, vrf);
        SelectedAre(devices, destination, vrf, cur, selected);
        var hop := Hop(cur, selected, Transit);
        if cur == last {
          status := if offline || topologyIncomplete then Partial else Complete;
          UnderwayArrives(devices, source, destination, vrf, hops, hop, offline || topologyIncomplete);
          arrived, finished := true, true;
        } else {
          var topologyError := AnyTopologyError(devices);
          var next, problem := NextDevice(devices, destination, vrf, cur, selected, offline || topologyError);
          topologyIncomplete := topologyError;
          if next.None? {
            UnderwayStops(devices, source, destination, vrf, hops, hop, problem);
            status, finished := problem, true;
          } else {
            UnderwayGoesOn(devices, source, destination, vrf, hops, hop, next.value);
            VisitedGrows(hops, hop);
            finished := next.value in visited;
            cur := next.value;
          }
        }
        hops := hops + [hop];
        assert Arrived(devices, destination, vrf, hops) <==> arrived;
      }
    }
    if !finished { exhausted := true; }
    ghost var walked := hops;
    reached := arrived;
    hops := AssignRoles(hops, arrived);
    assert Indices(hops) == Indices(walked);
    SameEnd(devices, source, destination, vrf, walked, hops, status);
  }

  lemma SameEnd(devices: seq<DeviceResult>, source: Prefix, destination: Prefix, vrf: int, hops: seq<Hop>, marked: seq<Hop>, status: Status)
    requires FollowedTo(devices, source, destination, vrf, hops, status) && Indices(hops) == Indices(marked)
    requires forall j :: 0 <= j < |hops| ==> marked[j].selected == hops[j].selected
    ensures FollowedTo(devices, source, destination, vrf, marked, status)
  {
  }

  lemma SameOwner(devices: seq<DeviceResult>, network: Prefix, vrf: int, last: nat, cur: nat)
    requires OnlyOwner(devices, network, vrf, last)
    ensures OnlyOwner(devices, network, vrf, cur) <==> cur == last
    ensures IsEndpoint(devices, network, vrf, cur) <==> cur == last
  {
    assert IsEndpoint(devices, network, vrf, last);
  }

  lemma SelectedAre(devices: seq<DeviceResult>, destination: Prefix, vrf: int, cur: nat, selected: seq<Route>)
    requires cur < |devices|
    requires forall r :: r in selected <==> r in devices[cur].routes && Effective(devices[cur].routes, destination, vrf, r)
    ensures Selected(devices, destination, vrf, cur, selected)
  {
    forall r | Effective(devices[cur].routes, destination, vrf, r) ensures r in devices[cur].routes {
      EffectiveIsCandidate(devices[cur].routes, destination, vrf, r);
    }
  }

  lemma VisitedGrows(hops: seq<Hop>, hop: Hop)
    ensures Visited(Indices(hops + [hop])) == Visited(Indices(hops)) + {hop.index}
    ensures forall n :: n in Visited(Indices(hops + [hop])) <==> n in Indices(hops + [hop])
  {
    assert Indices(hops + [hop]) == Indices(hops) + [hop.index];
  }
}
