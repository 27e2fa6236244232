/** The request frames themselves: LEB128 integers, fixed arrays and counted lists, read from the
    front. Writing and reading are inverse to each other, so the journal's codec exists. */
module NetdProto {
  import opened Bytes
  import opened Netd
  import opened Wrappers

  const NETD_PROTOCOL_VERSION: u64 := 1
  const MAX_ROUTES: nat := 65_536
  const MAX_EXCLUSIONS: nat := 64

  /** A value read from the front of a frame and what is left of it. */
  datatype Read<+T> = Read(value: T, rest: seq<byte>)

  type Reader<!T> = seq<byte> -> Option<Read<T>>

  // ---- integers ----

  function Varint(v: nat): (b: seq<byte>)
    ensures b != []
  {
    if v < 128 then [v as byte] else [(v % 128 + 128) as byte] + Varint(v / 128)
  }

  /** What a varint whose first byte has this index can still hold of 64 bits. */
  function VarintBound(index: nat): (bound: nat)
    requires index <= 9
    ensures bound >= 2
    decreases 9 - index
  {
    if index == 9 then 2 else 128 * VarintBound(index + 1)
  }

  lemma VarintHolds64()
    ensures VarintBound(0) == 0x1_0000_0000_0000_0000
  {
    assert VarintBound(5) == 2 * 128 * 128 * 128 * 128;
  }

  /** At most ten bytes, nothing above 64 bits, and no redundant final byte. */
  function ReadVarintFrom(b: seq<byte>, index: nat): (r: Option<Read<nat>>)
    ensures r.Some? ==> index <= 9 && r.value.value < VarintBound(index)
    decreases |b|
  {
    if index > 9 || b == [] then None else
      var payload := b[0] as int % 128;
      if index == 9 && payload > 1 then None
      else if b[0] as int < 128 then
        (if index > 0 && payload == 0 then None else Some(Read(payload, b[1..])))
      else
        var more := ReadVarintFrom(b[1..], index + 1);
        if more.None? then None else Some(Read(payload + 128 * more.value.value, more.value.rest))
  }

  function ReadVarint(b: seq<byte>): (r: Option<Read<u64>>) {
    VarintHolds64();
    var read := ReadVarintFrom(b, 0);
    if read.None? then None else Some(Read(read.value.value, read.value.rest))
  }

  lemma {:induction false} ReadsVarintFrom(v: nat, index: nat, rest: seq<byte>)
    requires index <= 9 && v < VarintBound(index) && (index > 0 ==> v > 0)
    ensures ReadVarintFrom(Varint(v) + rest, index) == Some(Read(v, rest))
    decreases v
  {
    var b := Varint(v) + rest;
    if v < 128 {
      assert b[1..] == rest;
    } else {
      assert b[1..] == Varint(v / 128) + rest;
      ReadsVarintFrom(v / 128, index + 1, rest);
    }
  }

  lemma VarintStep(first: byte, more: nat)
    requires first as int >= 128 && more > 0
    ensures Varint(first as int % 128 + 128 * more) == [first] + Varint(more)
  {
    var low := first as int % 128;
    assert (low + 128 * more) / 128 == more && (low + 128 * more) % 128 == low;
  }

  lemma {:induction false} VarintIsCanonicalFrom(b: seq<byte>, index: nat)
    requires ReadVarintFrom(b, index).Some?
    ensures var Read(v, rest) := ReadVarintFrom(b, index).value;
            Varint(v) + rest == b && (index > 0 ==> v > 0)
    decreases |b|
  {
    if b[0] as int < 128 {
      assert [b[0]] + b[1..] == b;
    } else {
      VarintIsCanonicalFrom(b[1..], index + 1);
      var Read(v, rest) := ReadVarintFrom(b[1..], index + 1).value;
      VarintStep(b[0], v);
      Assoc([b[0]], Varint(v), rest);
      assert [b[0]] + b[1..] == b;
    }
  }

  lemma ReadsVarint(v: u64, rest: seq<byte>)
    ensures ReadVarint(Varint(v) + rest) == Some(Read(v, rest))
  {
    hide ReadVarintFrom;
    VarintHolds64();
    ReadsVarintFrom(v, 0, rest);
  }

  lemma VarintIsCanonical(b: seq<byte>)
    requires ReadVarint(b).Some?
    ensures b == Varint(ReadVarint(b).value.value) + ReadVarint(b).value.rest
  {
    hide ReadVarintFrom;
    VarintIsCanonicalFrom(b, 0);
  }

  // ---- the two laws every reader obeys ----

  ghost predicate Inverts<T(!new)>(read: Reader<T>, write: T -> seq<byte>, good: T -> bool) {
    && (forall x, rest :: read(write(x) + rest) == if good(x) then Some(Read(x, rest)) else None)
    && (forall b :: read(b).Some? ==>
          good(read(b).value.value) && b == write(read(b).value.value) + read(b).value.rest)
  }

  // ---- counted lists ----

  predicate All<T>(good: T -> bool, xs: seq<T>) {
    forall i :: 0 <= i < |xs| ==> good(xs[i])
  }

  lemma AllFromFirst<T>(good: T -> bool, xs: seq<T>)
    requires xs != []
    ensures All(good, xs) <==> good(xs[0]) && All(good, xs[1..])
  {
    if good(xs[0]) && All(good, xs[1..]) {
      forall i | 0 <= i < |xs| ensures good(xs[i]) {
        if i > 0 {
          assert xs[i] == xs[1..][i - 1];
        }
      }
    } else if good(xs[0]) {
      var i :| 0 <= i < |xs[1..]| && !good(xs[1..][i]);
      assert xs[i + 1] == xs[1..][i];
    }
  }

  function WriteMany<T>(write: T -> seq<byte>, xs: seq<T>): seq<byte> {
    if xs == [] then [] else write(xs[0]) + WriteMany(write, xs[1..])
  }

  function ReadMany<T>(read: Reader<T>, b: seq<byte>, n: nat): (r: Option<Read<seq<T>>>)
    ensures r.Some? ==> |r.value.value| == n
    decreases n
  {
    if n == 0 then Some(Read([], b)) else
      var first := read(b);
      if first.None? then None else
        var others := ReadMany(read, first.value.rest, n - 1);
        if others.None? then None else Some(Read([first.value.value] + others.value.value, others.value.rest))
  }

  lemma {:induction false} ReadsMany<T(!new)>(read: Reader<T>, write: T -> seq<byte>, good: T -> bool,
                                              xs: seq<T>, rest: seq<byte>)
    requires Inverts(read, write, good)
    ensures ReadMany(read, WriteMany(write, xs) + rest, |xs|) == if All(good, xs) then Some(Read(xs, rest)) else None
    decreases |xs|
  {
    if xs == [] {
      assert WriteMany(write, xs) + rest == rest;
    } else {
      Assoc(write(xs[0]), WriteMany(write, xs[1..]), rest);
      ReadsMany(read, write, good, xs[1..], rest);
      assert [xs[0]] + xs[1..] == xs;
      AllFromFirst(good, xs);
    }
  }

  lemma {:induction false} ManyIsCanonical<T(!new)>(read: Reader<T>, write: T -> seq<byte>, good: T -> bool,
                                                    b: seq<byte>, n: nat)
    requires Inverts(read, write, good) && ReadMany(read, b, n).Some?
    ensures var Read(xs, rest) := ReadMany(read, b, n).value;
            b == WriteMany(write, xs) + rest && All(good, xs)
    decreases n
  {
    if n == 0 {
      assert WriteMany(write, []) + b == b;
    } else {
      var first := read(b).value;
      ManyIsCanonical(read, write, good, first.rest, n - 1);
      var others := ReadMany(read, first.rest, n - 1).value;
      Assoc(write(first.value), WriteMany(write, others.value), others.rest);
      var xs := [first.value] + others.value;
      assert xs[0] == first.value && xs[1..] == others.value;
      assert WriteMany(write, xs) == write(first.value) + WriteMany(write, others.value);
      AllFromFirst(good, xs);
    }
  }

  /** A counted list: the length as a varint between `min` and `max`, then the elements. */
  function WriteList<T>(write: T -> seq<byte>, xs: seq<T>): seq<byte> {
    Varint(|xs|) + WriteMany(write, xs)
  }

  function ReadList<T>(read: Reader<T>, b: seq<byte>, min: nat, max: nat): (r: Option<Read<seq<T>>>) {
    var count := ReadVarint(b);
    if count.None? || !(min <= count.value.value <= max) then None
    else ReadMany(read, count.value.rest, count.value.value)
  }

  lemma ReadsList<T(!new)>(read: Reader<T>, write: T -> seq<byte>, good: T -> bool,
                           xs: seq<T>, rest: seq<byte>, min: nat, max: nat)
    requires Inverts(read, write, good)
    requires min <= |xs| <= max < 0x1_0000_0000
    ensures ReadList(read, WriteList(write, xs) + rest, min, max)
            == if All(good, xs) then Some(Read(xs, rest)) else None
  {
    hide ReadVarint;
    Assoc(Varint(|xs|), WriteMany(write, xs), rest);
    ReadsVarint(|xs|, WriteMany(write, xs) + rest);
    ReadsMany(read, write, good, xs, rest);
  }

  lemma ListIsCanonical<T(!new)>(read: Reader<T>, write: T -> seq<byte>, good: T -> bool,
                                 b: seq<byte>, min: nat, max: nat)
    requires Inverts(read, write, good) && ReadList(read, b, min, max).Some?
    ensures var Read(xs, rest) := ReadList(read, b, min, max).value;
            b == WriteList(write, xs) + rest && min <= |xs| <= max && All(good, xs)
  {
    hide ReadVarint;
    VarintIsCanonical(b);
    var count := ReadVarint(b).value;
    ManyIsCanonical(read, write, good, count.rest, count.value);
    var Read(xs, rest) := ReadList(read, b, min, max).value;
    Assoc(Varint(|xs|), WriteMany(write, xs), rest);
  }

  // ---- prefixes, routes and exclusions ----

  function WritePrefix(p: Ipv4Prefix): seq<byte> {
    p.network + Varint(p.prefixLen as int)
  }

  function ReadPrefix(b: seq<byte>): Option<Read<Ipv4Prefix>> {
    if |b| < 4 then None else
      var len := ReadVarint(b[4..]);
      if len.None? || len.value.value >= 256 then None else
        var p := Ipv4Prefix(b[..4], len.value.value as byte);
        if CanonicalPrefix(p) then Some(Read(p, len.value.rest)) else None
  }

  lemma PrefixInverts()
    ensures Inverts(ReadPrefix, WritePrefix, CanonicalPrefix)
  {
    hide CanonicalPrefix, ReadVarint, Varint;
    forall p: Ipv4Prefix, rest
      ensures ReadPrefix(WritePrefix(p) + rest) == if CanonicalPrefix(p) then Some(Read(p, rest)) else None
    {
      var tail := Varint(p.prefixLen as int) + rest;
      Assoc(p.network, Varint(p.prefixLen as int), rest);
      SplitAt(p.network, tail);
      ReadsVarint(p.prefixLen as int, rest);
    }
    forall b | ReadPrefix(b).Some?
      ensures CanonicalPrefix(ReadPrefix(b).value.value)
              && b == WritePrefix(ReadPrefix(b).value.value) + ReadPrefix(b).value.rest
    {
      VarintIsCanonical(b[4..]);
      var Read(p, rest) := ReadPrefix(b).value;
      Assoc(p.network, Varint(p.prefixLen as int), rest);
      assert b == b[..4] + b[4..];
    }
  }

  function RouteTag(k: RouteKind): u64 {
    match k case Local => 1 case Remote => 2 case RemoteEgress => 3 case RemoteEgressGateway => 4
  }

  function RouteOf(tag: u64): (k: Option<RouteKind>)
    ensures k.Some? ==> RouteTag(k.value) == tag
  {
    match tag
    case 1 => Some(Local)
    case 2 => Some(Remote)
    case 3 => Some(RemoteEgress)
    case 4 => Some(RemoteEgressGateway)
    case _ => None
  }

  function UnderlayTag(k: UnderlayKind): u64 {
    match k case CloudApi => 1 case HubEndpoint => 2 case Management => 3
  }

  function UnderlayOf(tag: u64): (k: Option<UnderlayKind>)
    ensures k.Some? ==> UnderlayTag(k.value) == tag
  {
    match tag
    case 1 => Some(CloudApi)
    case 2 => Some(HubEndpoint)
    case 3 => Some(Management)
    case _ => None
  }

  function WriteRoute(r: RouteDeclaration): seq<byte> {
    WritePrefix(r.prefix) + Varint(RouteTag(r.kind))
  }

  function ReadRoute(b: seq<byte>): Option<Read<RouteDeclaration>> {
    var prefix := ReadPrefix(b);
    if prefix.None? then None else
      var tag := ReadVarint(prefix.value.rest);
      if tag.None? || RouteOf(tag.value.value).None? then None
      else Some(Read(RouteDeclaration(prefix.value.value, RouteOf(tag.value.value).value), tag.value.rest))
  }

  predicate CanonicalRoute(r: RouteDeclaration) {
    CanonicalPrefix(r.prefix)
  }

  lemma RouteInverts()
    ensures Inverts(ReadRoute, WriteRoute, CanonicalRoute)
  {
    hide CanonicalPrefix, ReadVarint, Varint, ReadPrefix, WritePrefix;
    PrefixInverts();
    forall r: RouteDeclaration, rest
      ensures ReadRoute(WriteRoute(r) + rest) == if CanonicalRoute(r) then Some(Read(r, rest)) else None
    {
      Assoc(WritePrefix(r.prefix), Varint(RouteTag(r.kind)), rest);
      ReadsVarint(RouteTag(r.kind), rest);
    }
    forall b | ReadRoute(b).Some?
      ensures CanonicalRoute(ReadRoute(b).value.value)
              && b == WriteRoute(ReadRoute(b).value.value) + ReadRoute(b).value.rest
    {
      var Read(r, rest) := ReadRoute(b).value;
      VarintIsCanonical(ReadPrefix(b).value.rest);
      Assoc(WritePrefix(r.prefix), Varint(RouteTag(r.kind)), rest);
    }
  }

  function WriteExclusion(x: UnderlayExclusion): seq<byte> {
    WritePrefix(x.prefix) + Varint(UnderlayTag(x.kind))
  }

  function ReadExclusion(b: seq<byte>): Option<Read<UnderlayExclusion>> {
    var prefix := ReadPrefix(b);
    if prefix.None? then None else
      var tag := ReadVarint(prefix.value.rest);
      if tag.None? || UnderlayOf(tag.value.value).None? then None
      else Some(Read(UnderlayExclusion(prefix.value.value, UnderlayOf(tag.value.value).value), tag.value.rest))
  }

  predicate CanonicalExclusion(x: UnderlayExclusion) {
    CanonicalPrefix(x.prefix)
  }

  lemma ExclusionInverts()
    ensures Inverts(ReadExclusion, WriteExclusion, CanonicalExclusion)
  {
    hide CanonicalPrefix, ReadVarint, Varint, ReadPrefix, WritePrefix;
    PrefixInverts();
    forall x: UnderlayExclusion, rest
      ensures ReadExclusion(WriteExclusion(x) + rest) == if CanonicalExclusion(x) then Some(Read(x, rest)) else None
    {
      Assoc(WritePrefix(x.prefix), Varint(UnderlayTag(x.kind)), rest);
      ReadsVarint(UnderlayTag(x.kind), rest);
    }
    forall b | ReadExclusion(b).Some?
      ensures CanonicalExclusion(ReadExclusion(b).value.value)
              && b == WriteExclusion(ReadExclusion(b).value.value) + ReadExclusion(b).value.rest
    {
      var Read(x, rest) := ReadExclusion(b).value;
      VarintIsCanonical(ReadPrefix(b).value.rest);
      Assoc(WritePrefix(x.prefix), Varint(UnderlayTag(x.kind)), rest);
    }
  }

  // ---- what both ends refuse ----

  function Size(p: Ipv4Prefix): (n: nat)
    requires p.prefixLen <= 32
    ensures n > 0
  {
    Pow2(32 - p.prefixLen as int)
  }

  function FirstAddress(p: Ipv4Prefix): nat {
    FromBigEndian(p.network)
  }

  function LastAddress(p: Ipv4Prefix): int
    requires p.prefixLen <= 32
  {
    FirstAddress(p) - FirstAddress(p) % Size(p) + Size(p) - 1
  }

  predicate Contains(p: Ipv4Prefix, address: nat)
    requires p.prefixLen <= 32
  {
    address - address % Size(p) == FirstAddress(p)
  }

  predicate RangesMeet(p: Ipv4Prefix, q: Ipv4Prefix)
    requires p.prefixLen <= 32 && q.prefixLen <= 32
  {
    FirstAddress(p) <= LastAddress(q) && FirstAddress(q) <= LastAddress(p)
  }

  predicate Ordered(p: Ipv4Prefix, tag: nat, q: Ipv4Prefix, otherTag: nat) {
    PrefixRank(p) < PrefixRank(q) || (p == q && tag < otherTag)
  }

  predicate BoundedLengths(d: PrepareDeclaration) {
    && (forall i :: 0 <= i < |d.routes| ==> d.routes[i].prefix.prefixLen <= 32)
    && (forall i :: 0 <= i < |d.exclusions| ==> d.exclusions[i].prefix.prefixLen <= 32)
  }

  /** A route other than a remote-egress one stays clear of every other such route, of every exclusion
      and of the overlay address. */
  predicate RoutesClear(d: PrepareDeclaration)
    requires BoundedLengths(d)
  {
    && (forall i, j :: 0 <= i < j < |d.routes| && !d.routes[i].kind.RemoteEgress? && !d.routes[j].kind.RemoteEgress?
          ==> !RangesMeet(d.routes[i].prefix, d.routes[j].prefix))
    && (forall i, j :: 0 <= i < |d.routes| && 0 <= j < |d.exclusions| && !d.routes[i].kind.RemoteEgress?
          ==> !Contains(d.routes[i].prefix, FirstAddress(d.exclusions[j].prefix))
              && !Contains(d.exclusions[j].prefix, FirstAddress(d.routes[i].prefix)))
    && (forall i :: 0 <= i < |d.routes| && !d.routes[i].kind.RemoteEgress?
          ==> !Contains(d.routes[i].prefix, FromBigEndian(d.overlayRouterIpv4)))
  }

  predicate ExclusionsClear(d: PrepareDeclaration)
    requires BoundedLengths(d)
  {
    && (forall i, j :: 0 <= i < j < |d.exclusions|
          ==> !RangesMeet(d.exclusions[i].prefix, d.exclusions[j].prefix))
    && (forall i :: 0 <= i < |d.exclusions| ==>
          d.exclusions[i].prefix.prefixLen != 0
          && !Contains(d.exclusions[i].prefix, FromBigEndian(d.overlayRouterIpv4)))
  }

  /** `PrepareDeclaration::validate`, which says nothing about host bits. */
  predicate DeclarationValid(d: PrepareDeclaration) {
    && 20_000 <= d.tableId <= 20_999 && 576 <= d.effectiveMtu <= 1400
    && 1 <= |d.routes| <= MAX_ROUTES && 1 <= |d.exclusions| <= MAX_EXCLUSIONS
    && (forall i :: 0 < i < |d.routes| ==>
          Ordered(d.routes[i - 1].prefix, RouteTag(d.routes[i - 1].kind), d.routes[i].prefix, RouteTag(d.routes[i].kind)))
    && (forall i :: 0 < i < |d.exclusions| ==>
          Ordered(d.exclusions[i - 1].prefix, UnderlayTag(d.exclusions[i - 1].kind),
                  d.exclusions[i].prefix, UnderlayTag(d.exclusions[i].kind)))
    && (forall i :: 0 <= i < |d.routes| && d.routes[i].prefix.prefixLen == 0 ==> d.routes[i].kind.RemoteEgress?)
    && BoundedLengths(d) && RoutesClear(d) && ExclusionsClear(d)
    && d.overlayRouterIpv4 != [0, 0, 0, 0] && d.overlayRouterIpv4[0] < 224
  }

  predicate OperationValid(o: NetdOperation) {
    match o
    case Prepare(d) => DeclarationValid(d)
    case Reconfigure(d) => DeclarationValid(d)
    case PolicyUpdate(d) => DeclarationValid(d)
    case MtuUpdate(mtu) => 576 <= mtu <= 1400
    case WithdrawPrefixes(ps) =>
      && |ps| <= MAX_ROUTES
      && (forall i :: 0 < i < |ps| ==> PrefixRank(ps[i - 1]) < PrefixRank(ps[i]))
      && (forall i :: 0 <= i < |ps| ==> ps[i].prefixLen <= 32)
    case _ => true
  }

  predicate OwnerValid(o: LeaseOwner) {
    o.instanceId != seq(16, _ => 0) && o.pid != 0 && o.generation != 0 && o.leaseDeadlineMonoMs != 0
  }

  predicate RequestValid(q: NetdRequest) {
    q.requestId != 0 && OwnerValid(q.owner) && OperationValid(q.operation)
  }

  // ---- declarations, operations and requests, written in front of `rest` ----

  function Flag(f: bool): u64 {
    if f then 1 else 0
  }

  function ReadFlag(b: seq<byte>): Option<Read<bool>> {
    var v := ReadVarint(b);
    if v.None? || v.value.value > 1 then None else Some(Read(v.value.value == 1, v.value.rest))
  }

  function PutFirewall(f: FirewallPolicy, rest: seq<byte>): seq<byte> {
    Varint(Flag(f.allowForward)) + (Varint(Flag(f.clampTcpMss))
    + (Varint(Flag(f.requireIpv4Forwarding)) + (Varint(Flag(f.manageRpFilter)) + rest)))
  }

  function ReadFirewall(b: seq<byte>): Option<Read<FirewallPolicy>> {
    var f1 := ReadFlag(b);
    if f1.None? then None else
      var f2 := ReadFlag(f1.value.rest);
      if f2.None? then None else
        var f3 := ReadFlag(f2.value.rest);
        if f3.None? then None else
          var f4 := ReadFlag(f3.value.rest);
          if f4.None? then None
          else Some(Read(FirewallPolicy(f1.value.value, f2.value.value, f3.value.value, f4.value.value), f4.value.rest))
  }

  lemma FlagInverts(f: bool, rest: seq<byte>)
    ensures ReadFlag(Varint(Flag(f)) + rest) == Some(Read(f, rest))
  {
    hide ReadVarint, Varint;
    ReadsVarint(Flag(f), rest);
  }

  lemma FlagIsCanonical(b: seq<byte>)
    requires ReadFlag(b).Some?
    ensures b == Varint(Flag(ReadFlag(b).value.value)) + ReadFlag(b).value.rest
  {
    hide ReadVarint, Varint;
    VarintIsCanonical(b);
  }

  lemma ReadsFirewall(f: FirewallPolicy, rest: seq<byte>)
    ensures ReadFirewall(PutFirewall(f, rest)) == Some(Read(f, rest))
  {
    hide ReadFlag, Varint, Flag;
    var t4 := Varint(Flag(f.manageRpFilter)) + rest;
    var t3 := Varint(Flag(f.requireIpv4Forwarding)) + t4;
    var t2 := Varint(Flag(f.clampTcpMss)) + t3;
    FlagInverts(f.allowForward, t2);
    FlagInverts(f.clampTcpMss, t3);
    FlagInverts(f.requireIpv4Forwarding, t4);
    FlagInverts(f.manageRpFilter, rest);
  }

  lemma FirewallIsCanonical(b: seq<byte>)
    requires ReadFirewall(b).Some?
    ensures b == PutFirewall(ReadFirewall(b).value.value, ReadFirewall(b).value.rest)
  {
    hide ReadFlag, Varint, Flag;
    FlagIsCanonical(b);
    var b1 := ReadFlag(b).value.rest;
    FlagIsCanonical(b1);
    var b2 := ReadFlag(b1).value.rest;
    FlagIsCanonical(b2);
    FlagIsCanonical(ReadFlag(b2).value.rest);
  }

  function PutLists(d: PrepareDeclaration, rest: seq<byte>): seq<byte> {
    WriteList(WriteRoute, d.routes) + (WriteList(WriteExclusion, d.exclusions) + PutFirewall(d.firewall, rest))
  }

  function PutDeclaration(d: PrepareDeclaration, rest: seq<byte>): seq<byte> {
    Varint(d.tableId) + (d.overlayRouterIpv4 + (Varint(d.effectiveMtu) + PutLists(d, rest)))
  }

  function ReadLists(table: u32, overlay: Bytes4, mtu: u16, b: seq<byte>): Option<Read<PrepareDeclaration>> {
    var routes := ReadList(ReadRoute, b, 1, MAX_ROUTES);
    if routes.None? then None else
      var exclusions := ReadList(ReadExclusion, routes.value.rest, 1, MAX_EXCLUSIONS);
      if exclusions.None? then None else
        var firewall := ReadFirewall(exclusions.value.rest);
        if firewall.None? then None else
          var d := PrepareDeclaration(table, overlay, mtu, routes.value.value, exclusions.value.value,
                                      firewall.value.value);
          if DeclarationValid(d) then Some(Read(d, firewall.value.rest)) else None
  }

  function ReadDeclaration(b: seq<byte>): Option<Read<PrepareDeclaration>> {
    var table := ReadVarint(b);
    if table.None? || table.value.value >= 0x1_0000_0000 || |table.value.rest| < 4 then None else
      var mtu := ReadVarint(table.value.rest[4..]);
      if mtu.None? || mtu.value.value >= 0x1_0000 then None
      else ReadLists(table.value.value, table.value.rest[..4], mtu.value.value, mtu.value.rest)
  }

  lemma ReadsLists(d: PrepareDeclaration, rest: seq<byte>)
    requires DeclarationValid(d)
    ensures ReadLists(d.tableId, d.overlayRouterIpv4, d.effectiveMtu, PutLists(d, rest))
            == if CanonicalDeclaration(d) then Some(Read(d, rest)) else None
  {
    hide ReadRoute, WriteRoute, ReadExclusion, WriteExclusion, ReadFirewall, PutFirewall, CanonicalPrefix,
         RoutesClear, ExclusionsClear, ReadList, WriteList;
    var t2 := PutFirewall(d.firewall, rest);
    var t1 := WriteList(WriteExclusion, d.exclusions) + t2;
    RouteInverts();
    ExclusionInverts();
    ReadsList(ReadRoute, WriteRoute, CanonicalRoute, d.routes, t1, 1, MAX_ROUTES);
    ReadsList(ReadExclusion, WriteExclusion, CanonicalExclusion, d.exclusions, t2, 1, MAX_EXCLUSIONS);
    ReadsFirewall(d.firewall, rest);
    ListsCanonical(d);
  }

  lemma ListsCanonical(d: PrepareDeclaration)
    ensures CanonicalDeclaration(d) <==> All(CanonicalRoute, d.routes) && All(CanonicalExclusion, d.exclusions)
  {
    hide CanonicalPrefix;
    if All(CanonicalRoute, d.routes) {
      assert forall i :: 0 <= i < |d.routes| ==> CanonicalRoute(d.routes[i]);
    }
    if All(CanonicalExclusion, d.exclusions) {
      assert forall i :: 0 <= i < |d.exclusions| ==> CanonicalExclusion(d.exclusions[i]);
    }
  }

  lemma ListsAreCanonical(table: u32, overlay: Bytes4, mtu: u16, b: seq<byte>)
    requires ReadLists(table, overlay, mtu, b).Some?
    ensures var Read(d, rest) := ReadLists(table, overlay, mtu, b).value;
            && d.tableId == table && d.overlayRouterIpv4 == overlay && d.effectiveMtu == mtu
            && b == PutLists(d, rest) && DeclarationValid(d) && CanonicalDeclaration(d)
  {
    hide ReadRoute, WriteRoute, ReadExclusion, WriteExclusion, ReadFirewall, PutFirewall, CanonicalPrefix,
         DeclarationValid, ReadList, WriteList;
    RouteInverts();
    ExclusionInverts();
    ListIsCanonical(ReadRoute, WriteRoute, CanonicalRoute, b, 1, MAX_ROUTES);
    var b1 := ReadList(ReadRoute, b, 1, MAX_ROUTES).value.rest;
    ListIsCanonical(ReadExclusion, WriteExclusion, CanonicalExclusion, b1, 1, MAX_EXCLUSIONS);
    FirewallIsCanonical(ReadList(ReadExclusion, b1, 1, MAX_EXCLUSIONS).value.rest);
    var Read(d, rest) := ReadLists(table, overlay, mtu, b).value;
    ListsCanonical(d);
  }

  lemma ReadsDeclaration(d: PrepareDeclaration, rest: seq<byte>)
    requires DeclarationValid(d)
    ensures ReadDeclaration(PutDeclaration(d, rest)) == if CanonicalDeclaration(d) then Some(Read(d, rest)) else None
  {
    hide ReadVarint, Varint, ReadLists, PutLists, DeclarationValid, CanonicalDeclaration;
    var t2 := Varint(d.effectiveMtu) + PutLists(d, rest);
    ReadsVarint(d.tableId, d.overlayRouterIpv4 + t2);
    SplitAt(d.overlayRouterIpv4, t2);
    ReadsVarint(d.effectiveMtu, PutLists(d, rest));
    ReadsLists(d, rest);
  }

  lemma DeclarationIsCanonical(b: seq<byte>)
    requires ReadDeclaration(b).Some?
    ensures var Read(d, rest) := ReadDeclaration(b).value;
            b == PutDeclaration(d, rest) && DeclarationValid(d) && CanonicalDeclaration(d)
  {
    hide ReadVarint, Varint, ReadLists, PutLists, DeclarationValid, CanonicalDeclaration;
    VarintIsCanonical(b);
    var table := ReadVarint(b).value;
    assert table.rest == table.rest[..4] + table.rest[4..];
    VarintIsCanonical(table.rest[4..]);
    var mtu := ReadVarint(table.rest[4..]).value;
    ListsAreCanonical(table.value, table.rest[..4], mtu.value, mtu.rest);
  }

  function OperationTag(o: NetdOperation): u64 {
    match o
    case Prepare(_) => 1
    case Commit => 2
    case Rollback => 3
    case Status => 4
    case LeaseRenew => 5
    case MtuUpdate(_) => 6
    case Suspend => 7
    case Reconfigure(_) => 8
    case Resume => 9
    case Drain(_) => 10
    case WithdrawPrefixes(_) => 11
    case PolicyUpdate(_) => 12
  }

  /** The operation's fields; they end the frame. */
  function PutOperation(o: NetdOperation): seq<byte> {
    match o
    case Prepare(d) => PutDeclaration(d, [])
    case Reconfigure(d) => PutDeclaration(d, [])
    case PolicyUpdate(d) => PutDeclaration(d, [])
    case MtuUpdate(mtu) => Varint(mtu) + []
    case Drain(now) => Varint(now) + []
    case WithdrawPrefixes(ps) => WriteList(WritePrefix, ps) + []
    case _ => []
  }

  function Carrying(tag: u64, d: PrepareDeclaration): NetdOperation
    requires tag == 1 || tag == 8 || tag == 12
  {
    if tag == 1 then Prepare(d) else if tag == 8 then Reconfigure(d) else PolicyUpdate(d)
  }

  function ReadOperation(tag: u64, b: seq<byte>): Option<Read<NetdOperation>> {
    match tag
    case 2 => Some(Read(Commit, b))
    case 3 => Some(Read(Rollback, b))
    case 4 => Some(Read(Status, b))
    case 5 => Some(Read(LeaseRenew, b))
    case 6 =>
      var mtu := ReadVarint(b);
      if mtu.None? || mtu.value.value >= 0x1_0000 then None else Some(Read(MtuUpdate(mtu.value.value), mtu.value.rest))
    case 7 => Some(Read(Suspend, b))
    case 9 => Some(Read(Resume, b))
    case 10 =>
      var now := ReadVarint(b);
      if now.None? then None else Some(Read(Drain(now.value.value), now.value.rest))
    case 11 =>
      var ps := ReadList(ReadPrefix, b, 0, MAX_ROUTES);
      if ps.None? then None else Some(Read(WithdrawPrefixes(ps.value.value), ps.value.rest))
    case _ =>
      if tag == 1 || tag == 8 || tag == 12 then
        var d := ReadDeclaration(b);
        if d.None? then None else Some(Read(Carrying(tag, d.value.value), d.value.rest))
      else None
  }

  lemma ReadsOperation(o: NetdOperation)
    requires OperationValid(o)
    ensures ReadOperation(OperationTag(o), PutOperation(o)) == if CanonicalOperation(o) then Some(Read(o, [])) else None
  {
    hide ReadVarint, Varint, ReadDeclaration, PutDeclaration, DeclarationValid, CanonicalDeclaration, ReadList,
         WriteList, CanonicalPrefix, ReadPrefix, WritePrefix;
    match o
    case Prepare(d) => ReadsDeclaration(d, []);
    case Reconfigure(d) => ReadsDeclaration(d, []);
    case PolicyUpdate(d) => ReadsDeclaration(d, []);
    case MtuUpdate(mtu) => ReadsVarint(mtu, []);
    case Drain(now) => ReadsVarint(now, []);
    case WithdrawPrefixes(ps) =>
      PrefixInverts();
      ReadsList(ReadPrefix, WritePrefix, CanonicalPrefix, ps, [], 0, MAX_ROUTES);
    case _ =>
  }

  lemma OperationIsCanonical(tag: u64, b: seq<byte>)
    requires ReadOperation(tag, b).Some? && ReadOperation(tag, b).value.rest == []
    ensures var o := ReadOperation(tag, b).value.value;
            OperationTag(o) == tag && b == PutOperation(o) && CanonicalOperation(o)
  {
    hide ReadVarint, Varint, ReadDeclaration, PutDeclaration, DeclarationValid, CanonicalDeclaration, ReadList,
         WriteList, CanonicalPrefix, ReadPrefix, WritePrefix;
    if tag == 1 || tag == 8 || tag == 12 {
      DeclarationIsCanonical(b);
    } else if tag == 6 || tag == 10 {
      VarintIsCanonical(b);
    } else if tag == 11 {
      PrefixInverts();
      ListIsCanonical(ReadPrefix, WritePrefix, CanonicalPrefix, b, 0, MAX_ROUTES);
    }
  }

  function PutOwner(o: LeaseOwner, rest: seq<byte>): seq<byte> {
    o.instanceId + (Varint(o.pid) + (Varint(o.generation) + (Varint(o.leaseDeadlineMonoMs) + rest)))
  }

  function ReadOwner(b: seq<byte>): Option<Read<LeaseOwner>> {
    if |b| < 16 then None else
      var pid := ReadVarint(b[16..]);
      if pid.None? || pid.value.value >= 0x1_0000_0000 then None else
        var generation := ReadVarint(pid.value.rest);
        if generation.None? then None else
          var deadline := ReadVarint(generation.value.rest);
          if deadline.None? then None
          else Some(Read(LeaseOwner(b[..16], pid.value.value, generation.value.value, deadline.value.value),
                         deadline.value.rest))
  }

  lemma ReadsOwner(o: LeaseOwner, rest: seq<byte>)
    ensures ReadOwner(PutOwner(o, rest)) == Some(Read(o, rest))
  {
    hide ReadVarint, Varint;
    var t3 := Varint(o.leaseDeadlineMonoMs) + rest;
    var t2 := Varint(o.generation) + t3;
    SplitAt(o.instanceId, Varint(o.pid) + t2);
    ReadsVarint(o.pid, t2);
    ReadsVarint(o.generation, t3);
    ReadsVarint(o.leaseDeadlineMonoMs, rest);
  }

  lemma OwnerIsCanonical(b: seq<byte>)
    requires ReadOwner(b).Some?
    ensures b == PutOwner(ReadOwner(b).value.value, ReadOwner(b).value.rest)
  {
    hide ReadVarint, Varint;
    assert b == b[..16] + b[16..];
    VarintIsCanonical(b[16..]);
    var b1 := ReadVarint(b[16..]).value.rest;
    VarintIsCanonical(b1);
    VarintIsCanonical(ReadVarint(b1).value.rest);
  }

  function PutRequest(q: NetdRequest): seq<byte> {
    Varint(NETD_PROTOCOL_VERSION) + (Varint(OperationTag(q.operation))
    + (Varint(q.requestId) + PutOwner(q.owner, PutOperation(q.operation))))
  }

  function Encode(q: NetdRequest): Option<seq<byte>> {
    if RequestValid(q) && |PutRequest(q)| <= MAX_NETD_FRAME_LEN then Some(PutRequest(q)) else None
  }

  function ReadRequest(b: seq<byte>): Option<NetdRequest> {
    var version := ReadVarint(b);
    if version.None? || version.value.value != NETD_PROTOCOL_VERSION then None else
      var tag := ReadVarint(version.value.rest);
      if tag.None? then None else
        var id := ReadVarint(tag.value.rest);
        if id.None? then None else
          var owner := ReadOwner(id.value.rest);
          if owner.None? then None else
            var operation := ReadOperation(tag.value.value, owner.value.rest);
            if operation.None? || operation.value.rest != [] then None
            else Some(NetdRequest(id.value.value, owner.value.value, operation.value.value))
  }

  function Decode(b: seq<byte>): Option<NetdRequest> {
    if b == [] || |b| > MAX_NETD_FRAME_LEN then None else
      var q := ReadRequest(b);
      if q.None? || !RequestValid(q.value) then None else q
  }

  lemma ReadsFrame(q: NetdRequest)
    ensures ReadRequest(PutRequest(q)) ==
            var o := ReadOperation(OperationTag(q.operation), PutOperation(q.operation));
            if o.None? || o.value.rest != [] then None else Some(q.(operation := o.value.value))
  {
    hide ReadVarint, Varint, ReadOwner, PutOwner, ReadOperation, PutOperation;
    var t3 := PutOwner(q.owner, PutOperation(q.operation));
    var t2 := Varint(q.requestId) + t3;
    ReadsVarint(NETD_PROTOCOL_VERSION, Varint(OperationTag(q.operation)) + t2);
    ReadsVarint(OperationTag(q.operation), t2);
    ReadsVarint(q.requestId, t3);
    ReadsOwner(q.owner, PutOperation(q.operation));
  }

  lemma ReadsRequest(q: NetdRequest)
    requires OperationValid(q.operation)
    ensures ReadRequest(PutRequest(q)) == if CanonicalOperation(q.operation) then Some(q) else None
  {
    hide ReadOperation, PutOperation, OperationValid, CanonicalOperation, ReadRequest, PutRequest;
    ReadsFrame(q);
    ReadsOperation(q.operation);
  }

  lemma RequestIsCanonical(b: seq<byte>)
    requires ReadRequest(b).Some?
    ensures var q := ReadRequest(b).value;
            b == PutRequest(q) && CanonicalOperation(q.operation)
  {
    hide ReadVarint, Varint, ReadOwner, PutOwner, ReadOperation, PutOperation;
    VarintIsCanonical(b);
    var b1 := ReadVarint(b).value.rest;
    VarintIsCanonical(b1);
    var b2 := ReadVarint(b1).value.rest;
    VarintIsCanonical(b2);
    var b3 := ReadVarint(b2).value.rest;
    OwnerIsCanonical(b3);
    OperationIsCanonical(ReadVarint(b1).value.value, ReadOwner(b3).value.rest);
  }

  function ProtoCodec(): Codec {
    Codec(Encode, Decode)
  }

  /** The decoder accepts a frame only as the encoding of what it reads. */
  lemma DecodedFrameIsTheEncoding(b: seq<byte>)
    requires Decode(b).Some?
    ensures Encode(Decode(b).value) == Some(b)
  {
    hide ReadRequest, PutRequest, RequestValid, CanonicalOperation;
    RequestIsCanonical(b);
  }

  /** A request's frame decodes to the request, unless one of its prefixes carries host bits: the
      encoder lets those through and the decoder does not. */
  lemma EncodedFrameDecodes(q: NetdRequest)
    requires Encode(q).Some?
    ensures Encode(q).value != []
    ensures Decode(Encode(q).value) == if CanonicalOperation(q.operation) then Some(q) else None
  {
    hide ReadRequest, OperationValid, CanonicalOperation, Varint, PutOwner, PutOperation;
    ReadsRequest(q);
  }

  lemma ReencodedUnderId1(q: NetdRequest)
    requires Encode(q).Some?
    ensures Encode(q.(requestId := 1)).Some?
  {
    hide OperationValid, PutOwner, PutOperation, Varint;
    OneByte();
    assert |Varint(1)| <= |Varint(q.requestId)|;
  }

  lemma OneByte()
    ensures |Varint(1)| == 1
  {
  }

  /** The journal's assumptions about the request codec hold of this one. */
  lemma ProtoCodecIsFaithful()
    ensures ProtoCodec().Faithful()
  {
    hide Encode, Decode, CanonicalOperation;
    var codec := ProtoCodec();
    forall q | codec.encode(q).Some?
      ensures 0 < |codec.encode(q).value| <= MAX_NETD_FRAME_LEN
              && codec.decode(codec.encode(q).value) == if CanonicalOperation(q.operation) then Some(q) else None
    {
      EncodedFrameDecodes(q);
      EncodedSize(q);
    }
    forall b | codec.decode(b).Some?
      ensures CanonicalOperation(codec.decode(b).value.operation)
              && codec.encode(codec.decode(b).value.(requestId := 1)).Some?
    {
      DecodedFrameIsTheEncoding(b);
      EncodedFrameDecodes(Decode(b).value);
      ReencodedUnderId1(Decode(b).value);
    }
  }

  lemma EncodedSize(q: NetdRequest)
    requires Encode(q).Some?
    ensures |Encode(q).value| <= MAX_NETD_FRAME_LEN
  {
  }
}
