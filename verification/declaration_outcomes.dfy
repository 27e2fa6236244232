/** What a valid declaration means for addresses: each belongs to at most one route or exclusion. */
module DeclarationOutcomes {
  import opened Bytes
  import DeclarationCheck
  import opened Netd
  import opened NetdProto
  import opened Wrappers

  /** The address lies between the first and the last one of the prefix. */
  predicate Covers(p: Ipv4Prefix, address: nat)
    requires p.prefixLen <= 32
  {
    FromBigEndian(p.network) <= address < FromBigEndian(p.network) + Pow2(32 - p.prefixLen as int)
  }

  /** Two prefixes have an address in common. */
  ghost predicate Share(p: Ipv4Prefix, q: Ipv4Prefix)
    requires p.prefixLen <= 32 && q.prefixLen <= 32
  {
    exists address :: Covers(p, address) && Covers(q, address)
  }

  lemma ContainsIsCovers(p: Ipv4Prefix, address: nat)
    requires CanonicalPrefix(p)
    ensures Contains(p, address) <==> Covers(p, address)
  {
    hide FromBigEndian, Pow2;
    var first, size := FromBigEndian(p.network), Pow2(32 - p.prefixLen as int);
    var k := first / size;
    assert first == size * k;
    assert address == size * (address / size) + address % size;
    if Covers(p, address) {
      SameBlock(size, k, address);
    }
  }

  lemma SameBlock(size: nat, k: nat, address: nat)
    requires size > 0 && size * k <= address < size * k + size
    ensures address - address % size == size * k
  {
    var j := address / size;
    assert address == size * j + address % size;
    DeclarationCheck.TimesGrows(size, j + 1, k);
    DeclarationCheck.TimesGrows(size, k + 1, j);
    assert size * (j + 1) == size * j + size && size * (k + 1) == size * k + size;
    assert j == k;
  }

  lemma MeetIsShare(p: Ipv4Prefix, q: Ipv4Prefix)
    requires CanonicalPrefix(p) && CanonicalPrefix(q)
    ensures RangesMeet(p, q) <==> Share(p, q)
    ensures Contains(p, FirstAddress(q)) || Contains(q, FirstAddress(p)) <==> Share(p, q)
  {
    hide FromBigEndian, Pow2, Contains;
    var a, b := FirstAddress(p), FirstAddress(q);
    ContainsIsCovers(p, b);
    ContainsIsCovers(q, a);
    assert Covers(p, a) && Covers(q, b);
  }

  /** Network, then length, then number of the kind. */
  ghost predicate Before(p: Ipv4Prefix, tag: int, q: Ipv4Prefix, other: int) {
    || Precedes(p.network, q.network)
    || (p.network == q.network && (p.prefixLen < q.prefixLen || (p.prefixLen == q.prefixLen && tag < other)))
  }

  lemma OrderedIsBefore(p: Ipv4Prefix, tag: nat, q: Ipv4Prefix, other: nat)
    ensures Ordered(p, tag, q, other) <==> Before(p, tag, q, other)
  {
    hide FromBigEndian, Precedes;
    BigEndianOrder(p.network, q.network);
    FromBigEndianRoundTrip(p.network);
    FromBigEndianRoundTrip(q.network);
  }

  /** A list of prefixes and tags in strict order. */
  ghost predicate InOrder(ps: seq<(Ipv4Prefix, nat)>) {
    forall i, j :: 0 <= i < j < |ps| ==> Before(ps[i].0, ps[i].1, ps[j].0, ps[j].1)
  }

  lemma {:induction false} OrderSpreads(ps: seq<(Ipv4Prefix, nat)>, i: nat, j: nat)
    requires forall k :: 0 < k < |ps| ==> Ordered(ps[k - 1].0, ps[k - 1].1, ps[k].0, ps[k].1)
    requires i < j < |ps|
    ensures Ordered(ps[i].0, ps[i].1, ps[j].0, ps[j].1)
  {
    hide PrefixRank;
    if i < j - 1 {
      OrderSpreads(ps, i, j - 1);
    }
    assert Ordered(ps[j - 1].0, ps[j - 1].1, ps[j].0, ps[j].1);
  }

  lemma {:induction false} OrderExactly(ps: seq<(Ipv4Prefix, nat)>)
    ensures (forall k :: 0 < k < |ps| ==> Ordered(ps[k - 1].0, ps[k - 1].1, ps[k].0, ps[k].1)) <==> InOrder(ps)
  {
    hide Ordered, Before;
    if forall k :: 0 < k < |ps| ==> Ordered(ps[k - 1].0, ps[k - 1].1, ps[k].0, ps[k].1) {
      forall i, j | 0 <= i < j < |ps| ensures Before(ps[i].0, ps[i].1, ps[j].0, ps[j].1) {
        OrderSpreads(ps, i, j);
        OrderedIsBefore(ps[i].0, ps[i].1, ps[j].0, ps[j].1);
      }
    }
    if InOrder(ps) {
      forall k | 0 < k < |ps| ensures Ordered(ps[k - 1].0, ps[k - 1].1, ps[k].0, ps[k].1) {
        OrderedIsBefore(ps[k - 1].0, ps[k - 1].1, ps[k].0, ps[k].1);
      }
    }
  }

  function Routes(d: PrepareDeclaration): (ps: seq<(Ipv4Prefix, nat)>)
    ensures |ps| == |d.routes|
  {
    seq(|d.routes|, i requires 0 <= i < |d.routes| =>
          (d.routes[i].prefix, match d.routes[i].kind case Local => 1 case Remote => 2 case RemoteEgress => 3 case RemoteEgressGateway => 4))
  }

  function Exclusions(d: PrepareDeclaration): (ps: seq<(Ipv4Prefix, nat)>)
    ensures |ps| == |d.exclusions|
  {
    seq(|d.exclusions|, i requires 0 <= i < |d.exclusions| =>
          (d.exclusions[i].prefix, match d.exclusions[i].kind case CloudApi => 1 case HubEndpoint => 2 case Management => 3))
  }

  /** The address is in this route, which is not one that only leaves by egress. */
  predicate Routed(d: PrepareDeclaration, i: int, address: nat)
    requires CanonicalDeclaration(d)
  {
    0 <= i < |d.routes| && d.routes[i].kind != RemoteEgress && Covers(d.routes[i].prefix, address)
  }

  predicate Spared(d: PrepareDeclaration, i: int, address: nat)
    requires CanonicalDeclaration(d)
  {
    0 <= i < |d.exclusions| && Covers(d.exclusions[i].prefix, address)
  }

  /** No address is in two routes, in two exclusions, or in a route and an exclusion, egress routes aside. */
  ghost predicate Disjoint(d: PrepareDeclaration)
    requires CanonicalDeclaration(d)
  {
    && (forall a, i, j :: Routed(d, i, a) && Routed(d, j, a) ==> i == j)
    && (forall a, i, j :: Spared(d, i, a) && Spared(d, j, a) ==> i == j)
    && forall a, i, j :: Routed(d, i, a) ==> !Spared(d, j, a)
  }

  /** The overlay router has an ordinary address outside all of them. */
  ghost predicate RouterApart(d: PrepareDeclaration)
    requires CanonicalDeclaration(d)
  {
    var router := FromBigEndian(d.overlayRouterIpv4);
    && (forall i :: !Routed(d, i, router)) && (forall i :: !Spared(d, i, router))
    && (exists k :: 0 <= k < 4 && d.overlayRouterIpv4[k] != 0) && d.overlayRouterIpv4[0] < 224
  }

  /** A declaration without host bits is valid if and only if its numbers are in their ranges, its lists are in order,
      only an egress route is the default route, and no address has two destinations. */
  lemma ValidExactly(d: PrepareDeclaration)
    requires CanonicalDeclaration(d)
    ensures DeclarationValid(d) <==>
            && 20_000 <= d.tableId <= 20_999 && 576 <= d.effectiveMtu <= 1_400
            && 1 <= |d.routes| <= 65_536 && 1 <= |d.exclusions| <= 64
            && InOrder(Routes(d)) && InOrder(Exclusions(d))
            && (forall i :: 0 <= i < |d.routes| && d.routes[i].prefix.prefixLen == 0 ==> d.routes[i].kind == RemoteEgress)
            && (forall i :: 0 <= i < |d.exclusions| ==> d.exclusions[i].prefix.prefixLen > 0)
            && Disjoint(d) && RouterApart(d)
  {
    hide InOrder, Ordered, Disjoint, Contains, RangesMeet, Covers, RouterApart, Routes, Exclusions, FirstAddress;
    RoutesInOrder(d);
    ExclusionsInOrder(d);
    DisjointExactly(d);
    RouterExactly(d);
  }

  lemma RouterExactly(d: PrepareDeclaration)
    requires CanonicalDeclaration(d)
    ensures var router := FromBigEndian(d.overlayRouterIpv4);
            RouterApart(d) <==>
            && (forall i :: 0 <= i < |d.routes| && !d.routes[i].kind.RemoteEgress? ==> !Contains(d.routes[i].prefix, router))
            && (forall i :: 0 <= i < |d.exclusions| ==> !Contains(d.exclusions[i].prefix, router))
            && d.overlayRouterIpv4 != [0, 0, 0, 0] && d.overlayRouterIpv4[0] < 224
  {
    hide Contains, Covers, FromBigEndian;
    var router, o := FromBigEndian(d.overlayRouterIpv4), d.overlayRouterIpv4;
    forall i | 0 <= i < |d.routes| ensures Contains(d.routes[i].prefix, router) <==> Covers(d.routes[i].prefix, router) {
      ContainsIsCovers(d.routes[i].prefix, router);
    }
    forall i | 0 <= i < |d.exclusions|
      ensures Contains(d.exclusions[i].prefix, router) <==> Covers(d.exclusions[i].prefix, router)
    {
      ContainsIsCovers(d.exclusions[i].prefix, router);
    }
    assert forall i :: 0 <= i < |d.routes| && d.routes[i].kind != RemoteEgress ==>
        (Routed(d, i, router) <==> Covers(d.routes[i].prefix, router));
    assert forall i :: 0 <= i < |d.exclusions| ==> (Spared(d, i, router) <==> Covers(d.exclusions[i].prefix, router));
    assert o == [o[0], o[1], o[2], o[3]];
  }

  function Unmarked(ps: seq<Ipv4Prefix>): (marked: seq<(Ipv4Prefix, nat)>)
    ensures |marked| == |ps|
  {
    seq(|ps|, i requires 0 <= i < |ps| => (ps[i], 0))
  }

  /** A request is valid if and only if it is numbered, its owner is a complete one, and its declaration, MTU or list
      of prefixes is. */
  lemma RequestExactly(q: NetdRequest)
    requires CanonicalOperation(q.operation)
    ensures RequestValid(q) <==>
            && q.requestId > 0 && q.owner.pid > 0 && q.owner.generation > 0 && q.owner.leaseDeadlineMonoMs > 0
            && (exists k :: 0 <= k < 16 && q.owner.instanceId[k] != 0)
            && match q.operation
               case Prepare(d) => DeclarationValid(d)
               case Reconfigure(d) => DeclarationValid(d)
               case PolicyUpdate(d) => DeclarationValid(d)
               case MtuUpdate(mtu) => 576 <= mtu <= 1_400
               case WithdrawPrefixes(ps) => |ps| <= 65_536 && InOrder(Unmarked(ps))
               case _ => true
  {
    hide InOrder, DeclarationValid;
    var id := q.owner.instanceId;
    assert id == seq(16, _ => 0) <==> forall k :: 0 <= k < 16 ==> id[k] == 0;
    match q.operation
    case WithdrawPrefixes(ps) =>
      OrderExactly(Unmarked(ps));
      assert forall i :: 0 < i < |ps| ==>
          (Ordered(Unmarked(ps)[i - 1].0, Unmarked(ps)[i - 1].1, Unmarked(ps)[i].0, Unmarked(ps)[i].1)
           <==> PrefixRank(ps[i - 1]) < PrefixRank(ps[i]));
    case _ =>
  }

  lemma RoutesInOrder(d: PrepareDeclaration)
    ensures (forall i :: 0 < i < |d.routes| ==>
              Ordered(d.routes[i - 1].prefix, RouteTag(d.routes[i - 1].kind), d.routes[i].prefix, RouteTag(d.routes[i].kind)))
            <==> InOrder(Routes(d))
  {
    hide Ordered, InOrder;
    OrderExactly(Routes(d));
    forall i | 0 <= i < |d.routes| ensures Routes(d)[i] == (d.routes[i].prefix, RouteTag(d.routes[i].kind) as nat) {
    }
  }

  lemma ExclusionsInOrder(d: PrepareDeclaration)
    ensures (forall i :: 0 < i < |d.exclusions| ==>
              Ordered(d.exclusions[i - 1].prefix, UnderlayTag(d.exclusions[i - 1].kind),
                      d.exclusions[i].prefix, UnderlayTag(d.exclusions[i].kind)))
            <==> InOrder(Exclusions(d))
  {
    hide Ordered, InOrder;
    OrderExactly(Exclusions(d));
    forall i | 0 <= i < |d.exclusions| ensures Exclusions(d)[i] == (d.exclusions[i].prefix, UnderlayTag(d.exclusions[i].kind) as nat) {
    }
  }

  /** The comparisons of prefixes find every address with two destinations. */
  lemma DisjointExactly(d: PrepareDeclaration)
    requires CanonicalDeclaration(d)
    ensures Disjoint(d) <==>
            && (forall i, j :: 0 <= i < j < |d.routes| && !d.routes[i].kind.RemoteEgress? && !d.routes[j].kind.RemoteEgress?
                  ==> !RangesMeet(d.routes[i].prefix, d.routes[j].prefix))
            && (forall i, j :: 0 <= i < j < |d.exclusions| ==> !RangesMeet(d.exclusions[i].prefix, d.exclusions[j].prefix))
            && (forall i, j :: 0 <= i < |d.routes| && 0 <= j < |d.exclusions| && !d.routes[i].kind.RemoteEgress?
                  ==> !Contains(d.routes[i].prefix, FirstAddress(d.exclusions[j].prefix))
                      && !Contains(d.exclusions[j].prefix, FirstAddress(d.routes[i].prefix)))
  {
    hide Routed, Spared, Contains, RangesMeet, FirstAddress;
    RoutedOnce(d);
    SparedOnce(d);
    RoutedOrSpared(d);
  }

  lemma RoutedOnce(d: PrepareDeclaration)
    requires CanonicalDeclaration(d)
    ensures (forall a, i, j :: Routed(d, i, a) && Routed(d, j, a) ==> i == j) <==>
            forall i, j :: 0 <= i < j < |d.routes| && !d.routes[i].kind.RemoteEgress? && !d.routes[j].kind.RemoteEgress?
              ==> !RangesMeet(d.routes[i].prefix, d.routes[j].prefix)
  {
    hide RangesMeet, Covers;
    forall i, j | 0 <= i < j < |d.routes| && d.routes[i].kind != RemoteEgress && d.routes[j].kind != RemoteEgress
      ensures RangesMeet(d.routes[i].prefix, d.routes[j].prefix) <==> exists a :: Routed(d, i, a) && Routed(d, j, a)
    {
      MeetIsShare(d.routes[i].prefix, d.routes[j].prefix);
      if a :| Covers(d.routes[i].prefix, a) && Covers(d.routes[j].prefix, a) {
        assert Routed(d, i, a) && Routed(d, j, a);
      }
    }
  }

  lemma SparedOnce(d: PrepareDeclaration)
    requires CanonicalDeclaration(d)
    ensures (forall a, i, j :: Spared(d, i, a) && Spared(d, j, a) ==> i == j) <==>
            forall i, j :: 0 <= i < j < |d.exclusions| ==> !RangesMeet(d.exclusions[i].prefix, d.exclusions[j].prefix)
  {
    hide RangesMeet, Covers;
    forall i, j | 0 <= i < j < |d.exclusions|
      ensures RangesMeet(d.exclusions[i].prefix, d.exclusions[j].prefix) <==> exists a :: Spared(d, i, a) && Spared(d, j, a)
    {
      MeetIsShare(d.exclusions[i].prefix, d.exclusions[j].prefix);
      if a :| Covers(d.exclusions[i].prefix, a) && Covers(d.exclusions[j].prefix, a) {
        assert Spared(d, i, a) && Spared(d, j, a);
      }
    }
  }

  lemma RoutedOrSpared(d: PrepareDeclaration)
    requires CanonicalDeclaration(d)
    ensures (forall a, i, j :: Routed(d, i, a) ==> !Spared(d, j, a)) <==>
            forall i, j :: 0 <= i < |d.routes| && 0 <= j < |d.exclusions| && !d.routes[i].kind.RemoteEgress?
              ==> !Contains(d.routes[i].prefix, FirstAddress(d.exclusions[j].prefix))
                  && !Contains(d.exclusions[j].prefix, FirstAddress(d.routes[i].prefix))
  {
    hide Contains, Covers, FirstAddress;
    forall i, j | 0 <= i < |d.routes| && 0 <= j < |d.exclusions| && d.routes[i].kind != RemoteEgress
      ensures Contains(d.routes[i].prefix, FirstAddress(d.exclusions[j].prefix))
              || Contains(d.exclusions[j].prefix, FirstAddress(d.routes[i].prefix))
              <==> exists a :: Routed(d, i, a) && Spared(d, j, a)
    {
      MeetIsShare(d.routes[i].prefix, d.exclusions[j].prefix);
      if a :| Covers(d.routes[i].prefix, a) && Covers(d.exclusions[j].prefix, a) {
        assert Routed(d, i, a) && Spared(d, j, a);
      }
    }
  }
}
