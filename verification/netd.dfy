/** The values exchanged with candy-netd: owners, prefixes, declarations and requests. */
module Netd {
  import opened Bytes
  import opened Wrappers

  /** Upper bound on one encoded request. */
  const MAX_NETD_FRAME_LEN: nat := 2 * 1024 * 1024

  datatype LeaseOwner = LeaseOwner(instanceId: Bytes16, pid: u32, generation: u64, leaseDeadlineMonoMs: u64)

  datatype Ipv4Prefix = Ipv4Prefix(network: Bytes4, prefixLen: byte)

  datatype RouteKind = Local | Remote | RemoteEgress | RemoteEgressGateway

  datatype RouteDeclaration = RouteDeclaration(prefix: Ipv4Prefix, kind: RouteKind)

  datatype UnderlayKind = CloudApi | HubEndpoint | Management

  datatype UnderlayExclusion = UnderlayExclusion(prefix: Ipv4Prefix, kind: UnderlayKind)

  datatype FirewallPolicy = FirewallPolicy(
    allowForward: bool, clampTcpMss: bool, requireIpv4Forwarding: bool, manageRpFilter: bool)

  datatype PrepareDeclaration = PrepareDeclaration(
    tableId: u32, overlayRouterIpv4: Bytes4, effectiveMtu: u16,
    routes: seq<RouteDeclaration>, exclusions: seq<UnderlayExclusion>, firewall: FirewallPolicy)

  datatype NetdOperation =
    | Prepare(declaration: PrepareDeclaration)
    | Commit
    | Rollback
    | Status
    | LeaseRenew
    | MtuUpdate(effectiveMtu: u16)
    | Suspend
    | Reconfigure(declaration: PrepareDeclaration)
    | Resume
    | Drain(nowMonoMs: u64)
    | WithdrawPrefixes(prefixes: seq<Ipv4Prefix>)
    | PolicyUpdate(declaration: PrepareDeclaration)

  datatype NetdRequest = NetdRequest(requestId: u64, owner: LeaseOwner, operation: NetdOperation)

  /** A request encoder and decoder; `None` stands for any protocol error. */
  datatype Codec = Codec(
    encode: NetdRequest -> Option<seq<byte>>,
    decode: seq<byte> -> Option<NetdRequest>)
  {
    /** What the journal relies on: frames are bounded, a frame decodes to what was encoded unless a
        prefix carries host bits, which only the decoder refuses, and whatever was decoded can be
        encoded again under the request id the journal uses. */
    ghost predicate Faithful() {
      && (forall q :: encode(q).Some? ==>
            && 0 < |encode(q).value| <= MAX_NETD_FRAME_LEN
            && decode(encode(q).value) == if CanonicalOperation(q.operation) then Some(q) else None)
      && (forall b :: decode(b).Some? ==>
            CanonicalOperation(decode(b).value.operation) && encode(decode(b).value.(requestId := 1)).Some?)
    }
  }

  predicate CanonicalDeclaration(d: PrepareDeclaration) {
    && (forall i :: 0 <= i < |d.routes| ==> CanonicalPrefix(d.routes[i].prefix))
    && (forall i :: 0 <= i < |d.exclusions| ==> CanonicalPrefix(d.exclusions[i].prefix))
  }

  predicate CanonicalOperation(o: NetdOperation) {
    match o
    case Prepare(d) => CanonicalDeclaration(d)
    case Reconfigure(d) => CanonicalDeclaration(d)
    case PolicyUpdate(d) => CanonicalDeclaration(d)
    case WithdrawPrefixes(ps) => forall i :: 0 <= i < |ps| ==> CanonicalPrefix(ps[i])
    case _ => true
  }

  /** The numeric value whose order is the derived order on (network, prefix length). */
  function PrefixRank(p: Ipv4Prefix): nat {
    FromBigEndian(p.network) * 256 + p.prefixLen as int
  }

  /** The rank determines the prefix. */
  lemma RankInjective(p: Ipv4Prefix, q: Ipv4Prefix)
    requires PrefixRank(p) == PrefixRank(q)
    ensures p == q
  {
    hide FromBigEndian;
    FromBigEndianRoundTrip(p.network);
    FromBigEndianRoundTrip(q.network);
    assert FromBigEndian(p.network) == PrefixRank(p) / 256 && FromBigEndian(q.network) == PrefixRank(q) / 256;
  }

  /** No bit is set behind the prefix length. */
  predicate CanonicalPrefix(p: Ipv4Prefix) {
    p.prefixLen <= 32 && FromBigEndian(p.network) % Pow2(32 - p.prefixLen as int) == 0
  }
}
