/** The network declaration a discovery report turns into, and what the SD-WAN agent makes of it. */
module NetdDeclaration {
  import opened Bytes
  import opened CidrText
  import opened Netd
  import opened NetdProto
  import opened Sorting
  import opened Wrappers

  datatype Route = Route(prefix: string, kind: RouteKind)

  datatype Exclusion = Exclusion(prefix: string, kind: UnderlayKind)

  datatype DiscoveredRoute = DiscoveredRoute(destination: string, kind: string)

  datatype Discovered = Discovered(
    tableId: u32, overlayRouterIpv4: string, maxInnerMtu: u16, localPrefixes: seq<string>,
    remoteRoutes: seq<DiscoveredRoute>, underlayExclusions: seq<string>)

  datatype Endpoint = V4(address: Bytes4, port: u16) | V6(port: u16)

  datatype Declaration = Declaration(
    tableId: u32, overlayRouterIpv4: string, effectiveMtu: u16, routes: seq<Route>, exclusions: seq<Exclusion>,
    firewall: FirewallPolicy)

  const FIREWALL := FirewallPolicy(true, true, true, true)

  // ---- order ----

  function RouteName(k: RouteKind): string {
    match k
    case Local => "local"
    case Remote => "remote"
    case RemoteEgress => "remote-egress"
    case RemoteEgressGateway => "remote-egress-gateway"
  }

  function UnderlayName(k: UnderlayKind): string {
    match k
    case CloudApi => "cloud-api"
    case HubEndpoint => "hub-endpoint"
    case Management => "management"
  }

  /** The order of (numeric prefix, kind) as one number, with kinds in protocol order. */
  function RouteRank(r: Route): nat {
    SortKey(r.prefix) * 8 + RouteTag(r.kind)
  }

  function ExclusionRank(x: Exclusion): nat {
    SortKey(x.prefix) * 8 + UnderlayTag(x.kind)
  }

  lemma ExtensionIsLater(a: string, b: string)
    requires b != ""
    ensures Less(a, a + b)
    decreases |a|
  {
    if a != "" {
      ExtensionIsLater(a[1..], b);
      assert (a + b)[1..] == a[1..] + b;
    }
  }

  /** Kinds compare by name as they do by protocol number. */
  lemma RouteNamesInOrder(a: RouteKind, b: RouteKind)
    ensures Less(RouteName(a), RouteName(b)) <==> RouteTag(a) < RouteTag(b)
  {
    hide Less, RouteName;
    if RouteTag(a) < RouteTag(b) {
      EarlierName(a, b);
    } else if a == b {
      LessIsStrict(RouteName(a));
    } else {
      EarlierName(b, a);
      if Less(RouteName(a), RouteName(b)) {
        LessInTurn(RouteName(a), RouteName(b), RouteName(a));
        LessIsStrict(RouteName(a));
      }
    }
  }

  lemma EarlierName(a: RouteKind, b: RouteKind)
    requires RouteTag(a) < RouteTag(b)
    ensures Less(RouteName(a), RouteName(b))
  {
    hide Less;
    match a
    case Local =>
      LocalFirst(RouteName(a), RouteName(b));
    case Remote =>
      Extends(RouteName(a), if b.RemoteEgress? then "-egress" else "-egress-gateway", RouteName(b));
    case RemoteEgress =>
      Extends(RouteName(a), "-gateway", RouteName(b));
    case RemoteEgressGateway =>
  }

  lemma LocalFirst(a: string, b: string)
    requires a != "" && b != "" && a[0] < b[0]
    ensures Less(a, b)
  {
  }

  lemma Extends(a: string, b: string, c: string)
    requires b != "" && a + b == c
    ensures Less(a, c)
  {
    ExtensionIsLater(a, b);
  }

  lemma UnderlayNamesInOrder(a: UnderlayKind, b: UnderlayKind)
    ensures Less(UnderlayName(a), UnderlayName(b)) <==> UnderlayTag(a) < UnderlayTag(b)
  {
    LocalFirst("cloud-api", "hub-endpoint");
    LocalFirst("cloud-api", "management");
    LocalFirst("hub-endpoint", "management");
    LessIsStrict(UnderlayName(a));
    if UnderlayTag(b) < UnderlayTag(a) && Less(UnderlayName(a), UnderlayName(b)) {
      LessInTurn(UnderlayName(a), UnderlayName(b), UnderlayName(a));
    }
  }

  // ---- building ----

  predicate Usable(e: Endpoint) {
    e.V4? && e.address != [0, 0, 0, 0] && !(224 <= e.address[0] < 240) && e.port != 0
  }

  /** The host prefixes of the usable IPv4 endpoints. */
  function CloudHosts(endpoints: seq<Endpoint>): set<string> {
    set e | e in endpoints && Usable(e) :: HostText(e.address)
  }

  /** A Cloud host is the address of an endpoint with a port: not the unspecified address and not multicast, which
      is everything whose first four bits are 1110. */
  lemma CloudHostsExactly(endpoints: seq<Endpoint>, h: string)
    ensures h in CloudHosts(endpoints) <==>
            exists i :: 0 <= i < |endpoints| && endpoints[i].V4? && endpoints[i].port > 0
                        && endpoints[i].address[0] as int / 16 != 14
                        && (exists k :: 0 <= k < 4 && endpoints[i].address[k] != 0)
                        && h == HostText(endpoints[i].address)
  {
    hide HostText;
    forall e | e in endpoints && e.V4?
      ensures Usable(e) <==> e.port > 0 && e.address[0] as int / 16 != 14 && exists k :: 0 <= k < 4 && e.address[k] != 0
    {
      assert e.address == [e.address[0], e.address[1], e.address[2], e.address[3]];
    }
  }

  function KindNamed(kind: string): RouteKind {
    match kind
    case "remote-egress" => RemoteEgress
    case "remote-egress-gateway" => RemoteEgressGateway
    case _ => Remote
  }

  /** The routes asked for, local ones first. */
  function WantedRoutes(d: Discovered): seq<Route> {
    seq(|d.localPrefixes|, i requires 0 <= i < |d.localPrefixes| => Route(d.localPrefixes[i], Local))
    + seq(|d.remoteRoutes|, i requires 0 <= i < |d.remoteRoutes| =>
            Route(d.remoteRoutes[i].destination, KindNamed(d.remoteRoutes[i].kind)))
  }

  /** Every underlay prefix and every usable Cloud host; a Cloud host is excluded as such. */
  predicate Excluded(d: Discovered, cloud: set<string>, x: Exclusion) {
    match x.kind
    case CloudApi => x.prefix in cloud
    case HubEndpoint => x.prefix in d.underlayExclusions && x.prefix !in cloud
    case Management => false
  }

  ghost predicate ExcludesOnce(xs: seq<Exclusion>, d: Discovered, cloud: set<string>) {
    forall x :: multiset(xs)[x] == if Excluded(d, cloud, x) then 1 else 0
  }

  method CloudExclusions(endpoints: seq<Endpoint>) returns (hosts: Option<seq<string>>)
    ensures hosts == if CloudHosts(endpoints) == {} then None else Some(Sorted(CloudHosts(endpoints)))
  {
    hide HostText;
    var addresses: set<string> := {};
    for i := 0 to |endpoints|
      invariant addresses == CloudHosts(endpoints[..i])
    {
      var e := endpoints[i];
      assert endpoints[..i + 1] == endpoints[..i] + [e];
      if Usable(e) {
        addresses := addresses + {HostText(e.address)};
      }
    }
    assert endpoints[..|endpoints|] == endpoints;
    if addresses == {} {
      return None;
    }
    var sorted := Sort(addresses);
    hosts := Some(sorted);
  }

  method CollectExclusions(d: Discovered, cloud: seq<string>) returns (kinds: map<string, UnderlayKind>)
    ensures forall x :: Excluded(d, (set h | h in cloud), x) <==> x.prefix in kinds && kinds[x.prefix] == x.kind
  {
    kinds := map[];
    for i := 0 to |d.underlayExclusions|
      invariant forall p :: p in kinds <==> p in d.underlayExclusions[..i]
      invariant forall p :: p in kinds ==> kinds[p] == HubEndpoint
    {
      kinds := kinds[d.underlayExclusions[i] := HubEndpoint];
    }
    assert d.underlayExclusions[..|d.underlayExclusions|] == d.underlayExclusions;
    for i := 0 to |cloud|
      invariant forall p :: p in kinds <==> p in d.underlayExclusions || p in cloud[..i]
      invariant forall p :: p in kinds ==> kinds[p] == if p in cloud[..i] then CloudApi else HubEndpoint
    {
      kinds := kinds[cloud[i] := CloudApi];
    }
    assert cloud[..|cloud|] == cloud;
  }

  /** The underlay prefixes and Cloud hosts in text order, each with its reason. */
  ghost function ListedExclusions(d: Discovered, cloud: set<string>): seq<Exclusion> {
    Mapped(p => Exclusion(p, if p in cloud then CloudApi else HubEndpoint),
           Sorted((set p | p in d.underlayExclusions) + cloud))
  }

  predicate Entries(kinds: map<string, UnderlayKind>, names: seq<string>, xs: seq<Exclusion>) {
    |xs| == |names| && forall j :: 0 <= j < |names| ==> names[j] in kinds && xs[j] == Exclusion(names[j], kinds[names[j]])
  }

  /** The entries of the map in name order. */
  method ListExclusions(kinds: map<string, UnderlayKind>) returns (xs: seq<Exclusion>)
    ensures forall x :: multiset(xs)[x] == if x.prefix in kinds && kinds[x.prefix] == x.kind then 1 else 0
    ensures Entries(kinds, Sorted(kinds.Keys), xs)
  {
    hide Sorted, Ascending;
    var names := Sort(kinds.Keys);
    NamesOnce(names, kinds.Keys);
    xs := [];
    for i := 0 to |names|
      invariant Entries(kinds, names[..i], xs)
    {
      assert names[i] in names && names[..i + 1] == names[..i] + [names[i]];
      xs := xs + [Exclusion(names[i], kinds[names[i]])];
    }
    assert names[..|names|] == names;
    forall x ensures multiset(xs)[x] == if x.prefix in kinds && kinds[x.prefix] == x.kind then 1 else 0 {
      EntryOnce(kinds, names, xs, x);
    }
  }

  lemma {:induction false} EntryOnce(kinds: map<string, UnderlayKind>, names: seq<string>, xs: seq<Exclusion>, x: Exclusion)
    requires Entries(kinds, names, xs)
    requires (forall i, j :: 0 <= i < j < |names| ==> names[i] != names[j]) && forall n :: n in kinds ==> n in names
    ensures multiset(xs)[x] == if x.prefix in kinds && kinds[x.prefix] == x.kind then 1 else 0
  {
    OnceEach(xs, x);
    if x.prefix in kinds && kinds[x.prefix] == x.kind {
      var j :| 0 <= j < |names| && names[j] == x.prefix;
      assert xs[j] == x;
    }
  }

  lemma NamesOnce(s: seq<string>, names: set<string>)
    requires Lists(s, names)
    ensures forall i, j :: 0 <= i < j < |s| ==> s[i] != s[j]
    ensures forall x :: x in names ==> x in s
  {
    hide Less;
    forall i, j | 0 <= i < j < |s| ensures s[i] != s[j] {
      LessIsStrict(s[i]);
    }
  }

  lemma {:induction false} OnceEach(xs: seq<Exclusion>, x: Exclusion)
    requires forall i, j :: 0 <= i < j < |xs| ==> xs[i] != xs[j]
    ensures multiset(xs)[x] == if x in xs then 1 else 0
  {
    if xs != [] {
      var init, last := xs[..|xs| - 1], xs[|xs| - 1];
      assert xs == init + [last];
      assert forall i :: 0 <= i < |init| ==> init[i] == xs[i];
      OnceEach(init, x);
    }
  }

  method BuildNetdDeclaration(d: Discovered, endpoints: seq<Endpoint>) returns (declaration: Option<Declaration>)
    ensures declaration.None? <==> CloudHosts(endpoints) == {}
    ensures declaration.Some? ==>
              var built := declaration.value;
              && built.routes == StableSorted(WantedRoutes(d), RouteRank)
              && built.exclusions == StableSorted(ListedExclusions(d, CloudHosts(endpoints)), ExclusionRank)
              && InOrder(built.routes, RouteRank) && multiset(built.routes) == multiset(WantedRoutes(d))
              && InOrder(built.exclusions, ExclusionRank) && ExcludesOnce(built.exclusions, d, CloudHosts(endpoints))
              && built.tableId == d.tableId && built.overlayRouterIpv4 == d.overlayRouterIpv4
              && built.effectiveMtu == d.maxInnerMtu && built.firewall == FIREWALL
  {
    hide InOrder, RouteRank, ExclusionRank, CloudHosts, Sorted, Excluded, ListedExclusions, Entries, StableSorted;
    var routes: seq<Route> := [];
    for i := 0 to |d.localPrefixes|
      invariant routes == WantedRoutes(d)[..i]
    {
      routes := routes + [Route(d.localPrefixes[i], Local)];
    }
    for i := 0 to |d.remoteRoutes|
      invariant routes == WantedRoutes(d)[..|d.localPrefixes| + i]
    {
      routes := routes + [Route(d.remoteRoutes[i].destination, KindNamed(d.remoteRoutes[i].kind))];
    }
    assert routes == WantedRoutes(d);
    StableSortedInOrder(routes, RouteRank);
    routes := StableSort(routes, RouteRank);
    var hosts := CloudExclusions(endpoints);
    if hosts.None? {
      return None;
    }
    SameHosts(CloudHosts(endpoints));
    var kinds := CollectExclusions(d, hosts.value);
    var listed := ListExclusions(kinds);
    EntriesAreListed(d, CloudHosts(endpoints), kinds, listed);
    StableSortedInOrder(listed, ExclusionRank);
    var exclusions := StableSort(listed, ExclusionRank);
    declaration := Some(Declaration(d.tableId, d.overlayRouterIpv4, d.maxInnerMtu, routes, exclusions, FIREWALL));
  }

  lemma {:induction false} EntriesAreListed(d: Discovered, cloud: set<string>, kinds: map<string, UnderlayKind>, xs: seq<Exclusion>)
    requires forall x :: Excluded(d, cloud, x) <==> x.prefix in kinds && kinds[x.prefix] == x.kind
    requires Entries(kinds, Sorted(kinds.Keys), xs)
    ensures xs == ListedExclusions(d, cloud)
  {
    hide Sorted;
    var names := (set p | p in d.underlayExclusions) + cloud;
    forall p ensures p in kinds <==> p in names
             ensures p in kinds ==> kinds[p] == if p in cloud then CloudApi else HubEndpoint
    {
      KindsOf(d, cloud, p);
      if p in kinds {
        assert Excluded(d, cloud, Exclusion(p, kinds[p]));
      }
    }
    assert kinds.Keys == names;
    assert xs == ListedExclusions(d, cloud);
  }

  lemma KindsOf(d: Discovered, cloud: set<string>, p: string)
    ensures Excluded(d, cloud, Exclusion(p, CloudApi)) <==> p in cloud
    ensures Excluded(d, cloud, Exclusion(p, HubEndpoint)) <==> p in d.underlayExclusions && p !in cloud
    ensures !Excluded(d, cloud, Exclusion(p, Management))
  {
  }

  lemma SameHosts(hosts: set<string>)
    ensures (set h | h in Sorted(hosts)) == hosts
  {
    hide Ascending;
    assert Lists(Sorted(hosts), hosts);
  }

  /** Each prefix is excluded once, for one reason. */
  lemma OneReasonEach(xs: seq<Exclusion>, d: Discovered, cloud: set<string>, i: nat, j: nat)
    requires ExcludesOnce(xs, d, cloud) && i < j < |xs|
    ensures xs[i].prefix != xs[j].prefix
  {
    assert xs[i] in multiset(xs) && xs[j] in multiset(xs);
    assert Excluded(d, cloud, xs[i]) && Excluded(d, cloud, xs[j]);
    CountsTwice(xs, i, j);
  }

  lemma CountsTwice(xs: seq<Exclusion>, i: nat, j: nat)
    requires i < j < |xs|
    ensures xs[i] == xs[j] ==> multiset(xs)[xs[i]] >= 2
  {
    assert xs == xs[..i] + [xs[i]] + xs[i + 1..j] + [xs[j]] + xs[j + 1..];
  }

  // ---- the agent's side ----

  /** A declared prefix with the protocol number of its kind. */
  datatype Declared = Declared(prefix: string, tag: nat)

  function Rank(d: Declared): nat {
    SortKey(d.prefix) * 8 + d.tag
  }

  /** The agent reads every prefix of the list. */
  predicate AllRead(ds: seq<Declared>) {
    forall i :: 0 <= i < |ds| ==> AgentPrefix(ds[i].prefix).Some? && ds[i].tag < 8
  }

  /** What the protocol demands of two neighbours, once the agent has read them. */
  predicate Before(a: Declared, b: Declared) {
    AgentPrefix(a.prefix).Some? && AgentPrefix(b.prefix).Some?
    && Ordered(AgentPrefix(a.prefix).value, a.tag, AgentPrefix(b.prefix).value, b.tag)
  }

  predicate SameToAgent(a: Declared, b: Declared) {
    AgentPrefix(a.prefix) == AgentPrefix(b.prefix) && a.tag == b.tag
  }

  /** `strictly_sorted_by` on what the agent reads. */
  predicate MeetsProtocolOrder(ds: seq<Declared>) {
    AllRead(ds) && forall i :: 0 < i < |ds| ==> Before(ds[i - 1], ds[i])
  }

  /** Two prefixes both parsers read compare as their ranks do; one only the agent reads ranks behind. */
  lemma BeforeIsRank(a: Declared, b: Declared)
    requires AllRead([a, b])
    ensures PlainPrefix(a.prefix) && PlainPrefix(b.prefix) ==>
              (Before(a, b) <==> Rank(a) < Rank(b)) && (SameToAgent(a, b) <==> Rank(a) == Rank(b))
    ensures PlainPrefix(a.prefix) && !PlainPrefix(b.prefix) ==> Rank(a) < Rank(b)
  {
    hide PrefixRank, SortKey, AgentPrefix, PlainPrefix;
    assert [a, b][0] == a && [a, b][1] == b;
    KeyIsRankExactly(a.prefix);
    KeyIsRankExactly(b.prefix);
    var p, q := AgentPrefix(a.prefix).value, AgentPrefix(b.prefix).value;
    if PrefixRank(p) == PrefixRank(q) {
      RankInjective(p, q);
    }
  }

  /** In agent order: first by rank, then by kind. */
  function AgentRank(d: Declared): nat {
    if AgentPrefix(d.prefix).Some? then PrefixRank(AgentPrefix(d.prefix).value) * 8 + d.tag else 0
  }

  lemma BeforeIsAgentRank(a: Declared, b: Declared)
    requires AllRead([a, b])
    ensures Before(a, b) <==> AgentRank(a) < AgentRank(b)
    ensures SameToAgent(a, b) ==> AgentRank(a) == AgentRank(b)
  {
    hide PrefixRank, AgentPrefix;
    assert [a, b][0] == a && [a, b][1] == b;
    var p, q := AgentPrefix(a.prefix).value, AgentPrefix(b.prefix).value;
    if PrefixRank(p) == PrefixRank(q) {
      RankInjective(p, q);
    }
  }

  /** A list that meets the order ascends in it throughout. */
  lemma {:induction false} OrderAscends(ds: seq<Declared>, i: nat, j: nat)
    requires MeetsProtocolOrder(ds) && i < j < |ds|
    ensures AgentRank(ds[i]) < AgentRank(ds[j])
    decreases j
  {
    hide AgentPrefix, AgentRank, Before;
    PairRead(ds, j - 1, j);
    BeforeIsAgentRank(ds[j - 1], ds[j]);
    if i < j - 1 {
      OrderAscends(ds, i, j - 1);
    }
  }

  lemma PairRead(ds: seq<Declared>, i: nat, j: nat)
    requires AllRead(ds) && i < |ds| && j < |ds|
    ensures AllRead([ds[i], ds[j]])
  {
    hide AgentPrefix;
  }

  /** In the agent's order. */
  predicate Ascends(a: Declared, b: Declared) {
    AgentRank(a) < AgentRank(b)
  }

  /** The protocol's order is the agent's, throughout the list. */
  lemma OrderIsPairwise(ds: seq<Declared>)
    ensures MeetsProtocolOrder(ds) <==> AllRead(ds) && Pairwise(Ascends, ds)
  {
    hide AllRead, AgentRank, Before;
    if MeetsProtocolOrder(ds) {
      forall i, j | 0 <= i < j < |ds| ensures Ascends(ds[i], ds[j]) {
        OrderAscends(ds, i, j);
      }
    }
    if AllRead(ds) && Pairwise(Ascends, ds) {
      forall i | 0 < i < |ds| ensures Before(ds[i - 1], ds[i]) {
        PairRead(ds, i - 1, i);
        BeforeIsAgentRank(ds[i - 1], ds[i]);
        assert Ascends(ds[i - 1], ds[i]);
      }
    }
  }

  /** Whether `x`, asked for before `y`, can be declared beside it: plain prefixes must differ; a prefix only
      the agent reads must lie behind every plain one; and of two such prefixes the one with the smaller
      kind, or of one kind the first, must lie before the other. */
  predicate Placeable(x: Declared, y: Declared) {
    if PlainPrefix(x.prefix) && PlainPrefix(y.prefix) then !SameToAgent(x, y)
    else if PlainPrefix(x.prefix) then AgentRank(x) < AgentRank(y)
    else if PlainPrefix(y.prefix) then AgentRank(y) < AgentRank(x)
    else if x.tag <= y.tag then AgentRank(x) < AgentRank(y)
    else AgentRank(y) < AgentRank(x)
  }

  /** Sorting turns a pair the right way exactly when it is placeable. */
  lemma PlaceableFits(x: Declared, y: Declared)
    requires AllRead([x, y])
    ensures Fits(Ascends, Rank, x, y) <==> Placeable(x, y)
  {
    hide AgentPrefix, PlainPrefix, Before, SortKey, AgentRank;
    var xy, yx := [x, y], [y, x];
    assert yx[0] == y && yx[1] == x && xy[0] == x && xy[1] == y;
    assert AllRead(yx);
    BeforeIsRank(x, y);
    BeforeIsRank(y, x);
    BeforeIsAgentRank(x, y);
    BeforeIsAgentRank(y, x);
    KeyIsRankExactly(x.prefix);
    KeyIsRankExactly(y.prefix);
  }

  /** For every list of prefixes and kinds, in the order in which they are asked for: sorted, it meets the
      protocol's strict order if and only if the agent reads every prefix and each two are placeable. */
  lemma SortedMeetsOrderExactly(ds: seq<Declared>)
    ensures MeetsProtocolOrder(StableSorted(ds, Rank)) <==> AllRead(ds) && Pairwise(Placeable, ds)
  {
    hide AgentPrefix, Placeable, Ascends, Rank, Fits, StableSorted, MeetsProtocolOrder;
    var sorted := StableSorted(ds, Rank);
    OrderIsPairwise(sorted);
    AllReadIsEvery(ds);
    AllReadIsEvery(sorted);
    SameMembers(sorted, ds, ReadByAgent);
    if AllRead(ds) {
      StableSortedPairwise(Ascends, ds, Rank);
      forall i, j | 0 <= i < j < |ds| ensures Fits(Ascends, Rank, ds[i], ds[j]) <==> Placeable(ds[i], ds[j]) {
        PairRead(ds, i, j);
        PlaceableFits(ds[i], ds[j]);
      }
    }
  }

  predicate ReadByAgent(d: Declared) {
    AgentPrefix(d.prefix).Some? && d.tag < 8
  }

  lemma AllReadIsEvery(ds: seq<Declared>)
    ensures AllRead(ds) <==> Every(ReadByAgent, ds)
  {
    hide AgentPrefix;
  }

  function DeclaredRoute(r: Route): Declared {
    Declared(r.prefix, RouteTag(r.kind))
  }

  function DeclaredExclusion(x: Exclusion): Declared {
    Declared(x.prefix, UnderlayTag(x.kind))
  }

  /** The routes built from a report meet the agent's order if and only if the agent reads every one asked
      for and each two are placeable. */
  lemma RoutesMeetProtocolOrder(d: Discovered)
    ensures var asked := Mapped(DeclaredRoute, WantedRoutes(d));
            MeetsProtocolOrder(Mapped(DeclaredRoute, StableSorted(WantedRoutes(d), RouteRank)))
            <==> AllRead(asked) && Pairwise(Placeable, asked)
  {
    hide AllRead, MeetsProtocolOrder, Placeable, SortKey, StableSorted, WantedRoutes;
    SortedMeetsOrderExactly(Mapped(DeclaredRoute, WantedRoutes(d)));
    MappedStableSorted(DeclaredRoute, WantedRoutes(d), RouteRank, Rank);
  }

  /** The same of the exclusions, which are asked for in text order. */
  lemma ExclusionsMeetProtocolOrder(d: Discovered, endpoints: seq<Endpoint>)
    ensures var listed := ListedExclusions(d, CloudHosts(endpoints));
            var asked := Mapped(DeclaredExclusion, listed);
            MeetsProtocolOrder(Mapped(DeclaredExclusion, StableSorted(listed, ExclusionRank)))
            <==> AllRead(asked) && Pairwise(Placeable, asked)
  {
    hide AllRead, MeetsProtocolOrder, Placeable, SortKey, StableSorted, ListedExclusions;
    var listed := ListedExclusions(d, CloudHosts(endpoints));
    SortedMeetsOrderExactly(Mapped(DeclaredExclusion, listed));
    MappedStableSorted(DeclaredExclusion, listed, ExclusionRank, Rank);
  }

  /** A declaration built from local prefixes "+a/32" and "b/32" with `a` below `b`, such as
      "+1.0.0.0/32" and "2.0.0.0/32", is always refused, although the agent reads both. */
  lemma BuiltButRefused(d: Discovered, a: Bytes4, b: Bytes4)
    requires PlusText(a) in d.localPrefixes && HostText(b) in d.localPrefixes && FromBigEndian(a) < FromBigEndian(b)
    ensures AgentPrefix(PlusText(a)).Some? && AgentPrefix(HostText(b)).Some?
    ensures !MeetsProtocolOrder(Mapped(DeclaredRoute, StableSorted(WantedRoutes(d), RouteRank)))
  {
    hide PlusText, HostText, AgentPrefix, PlainPrefix, SortKey, FromBigEndian, MeetsProtocolOrder, AllRead, StableSorted;
    RoutesMeetProtocolOrder(d);
    ReadsPlus(a);
    ReadsHost(b);
    var asked := Mapped(DeclaredRoute, WantedRoutes(d));
    var i :| 0 <= i < |d.localPrefixes| && d.localPrefixes[i] == PlusText(a);
    var j :| 0 <= j < |d.localPrefixes| && d.localPrefixes[j] == HostText(b);
    assert asked[i] == Declared(PlusText(a), 1) && asked[j] == Declared(HostText(b), 1);
    assert AgentRank(asked[i]) < AgentRank(asked[j]);
    assert !Placeable(asked[i], asked[j]) && !Placeable(asked[j], asked[i]);
  }
}
