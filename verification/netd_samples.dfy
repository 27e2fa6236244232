/** How small a preparation request can be, and requests at that size. */
module NetdSamples {
  import opened Bytes
  import opened Netd
  import opened NetdProto
  import opened Wrappers

  /** Version, tag, id, owner and the smallest declaration. */
  const MIN_PREPARE_FRAME: nat := 49

  lemma VarintSize(v: nat)
    ensures v < 128 ==> |Varint(v)| == 1
    ensures 128 <= v < 16_384 ==> |Varint(v)| == 2
    ensures 16_384 <= v < 2_097_152 ==> |Varint(v)| == 3
    ensures v >= 128 ==> |Varint(v)| >= 2
    ensures v >= 16_384 ==> |Varint(v)| >= 3
  {
    if v >= 128 {
      assert |Varint(v)| == 1 + |Varint(v / 128)|;
      if v >= 16_384 {
        assert |Varint(v / 128)| == 1 + |Varint(v / 128 / 128)|;
      }
    }
  }

  lemma ListSize<T>(write: T -> seq<byte>, xs: seq<T>)
    requires xs != []
    ensures |WriteList(write, xs)| >= 1 + |write(xs[0])|
    ensures |xs| == 1 ==> |WriteList(write, xs)| == 1 + |write(xs[0])|
  {
    hide Varint;
    VarintSize(|xs|);
    if |xs| == 1 {
      assert xs[1..] == [];
      assert WriteMany(write, xs[1..]) == [];
    }
  }

  lemma EntrySizes(r: RouteDeclaration, x: UnderlayExclusion)
    ensures |WriteRoute(r)| >= 6 && (r.prefix.prefixLen < 128 ==> |WriteRoute(r)| == 6)
    ensures |WriteExclusion(x)| >= 6 && (x.prefix.prefixLen < 128 ==> |WriteExclusion(x)| == 6)
  {
    hide Varint;
    VarintSize(r.prefix.prefixLen as int);
    VarintSize(x.prefix.prefixLen as int);
    VarintSize(RouteTag(r.kind));
    VarintSize(UnderlayTag(x.kind));
  }

  lemma FirewallSize(f: FirewallPolicy)
    ensures |PutFirewall(f, [])| == 4
  {
    hide Varint;
    VarintSize(0);
    VarintSize(1);
  }

  lemma DeclarationSize(d: PrepareDeclaration)
    requires DeclarationValid(d)
    ensures |PutDeclaration(d, [])| >= 27
    ensures |d.routes| == 1 && |d.exclusions| == 1 ==> |PutDeclaration(d, [])| == 27
  {
    hide Varint, WriteList, WriteRoute, WriteExclusion, PutFirewall, RoutesClear, ExclusionsClear, Ordered;
    VarintSize(d.tableId);
    VarintSize(d.effectiveMtu);
    ListSize(WriteRoute, d.routes);
    ListSize(WriteExclusion, d.exclusions);
    EntrySizes(d.routes[0], d.exclusions[0]);
    FirewallSize(d.firewall);
  }

  lemma RequestSize(q: NetdRequest)
    requires q.operation.Prepare? && DeclarationValid(q.operation.declaration)
    ensures |PutRequest(q)| >= MIN_PREPARE_FRAME
    ensures |q.operation.declaration.routes| == 1 && |q.operation.declaration.exclusions| == 1 && q.requestId < 128
            && q.owner.pid < 128 && q.owner.generation < 128 && q.owner.leaseDeadlineMonoMs < 128 ==>
              |PutRequest(q)| == MIN_PREPARE_FRAME
  {
    hide Varint, PutDeclaration, DeclarationValid;
    DeclarationSize(q.operation.declaration);
    VarintSize(NETD_PROTOCOL_VERSION);
    VarintSize(1);
    VarintSize(q.requestId);
    VarintSize(q.owner.pid);
    VarintSize(q.owner.generation);
    VarintSize(q.owner.leaseDeadlineMonoMs);
  }

  /** No shorter frame is read as a preparation. */
  lemma NoSmallerPreparation(frame: seq<byte>)
    requires Decode(frame).Some? && Decode(frame).value.operation.Prepare?
    ensures |frame| >= MIN_PREPARE_FRAME
  {
    hide ReadRequest, PutRequest, DeclarationValid;
    DecodedFrameIsTheEncoding(frame);
    RequestSize(Decode(frame).value);
  }

  // ---- how large one can be ----

  lemma {:induction false} VarintAtMost(v: nat, n: nat)
    requires n > 0 && v < Pow128(n)
    ensures |Varint(v)| <= n
    decreases n
  {
    if v >= 128 {
      VarintAtMost(v / 128, n - 1);
    }
  }

  function Pow128(n: nat): (p: nat)
    ensures p > 0
  {
    if n == 0 then 1 else 128 * Pow128(n - 1)
  }

  lemma Varint64(v: u64)
    ensures |Varint(v)| <= 10
  {
    hide Varint;
    assert Pow128(5) == 0x8_0000_0000;
    assert Pow128(10) >= 0x1_0000_0000_0000_0000;
    VarintAtMost(v, 10);
  }

  lemma {:induction false} ManySize<T>(write: T -> seq<byte>, xs: seq<T>, size: nat)
    requires forall i :: 0 <= i < |xs| ==> |write(xs[i])| <= size
    ensures |WriteMany(write, xs)| <= size * |xs|
  {
    if xs != [] {
      assert forall i :: 0 <= i < |xs[1..]| ==> xs[1..][i] == xs[i + 1];
      ManySize(write, xs[1..], size);
      assert size * |xs| == size + size * |xs[1..]|;
    }
  }

  lemma ListsSize(d: PrepareDeclaration)
    requires DeclarationValid(d)
    ensures |WriteList(WriteRoute, d.routes)| <= 10 + 6 * MAX_ROUTES
    ensures |WriteList(WriteExclusion, d.exclusions)| <= 10 + 6 * MAX_EXCLUSIONS
  {
    hide Varint, WriteRoute, WriteExclusion, RoutesClear, ExclusionsClear, Ordered;
    Varint64(|d.routes|);
    Varint64(|d.exclusions|);
    forall i | 0 <= i < |d.routes| ensures |WriteRoute(d.routes[i])| <= 6 {
      EntrySizes(d.routes[i], d.exclusions[0]);
    }
    forall i | 0 <= i < |d.exclusions| ensures |WriteExclusion(d.exclusions[i])| <= 6 {
      EntrySizes(d.routes[0], d.exclusions[i]);
    }
    ManySize(WriteRoute, d.routes, 6);
    ManySize(WriteExclusion, d.exclusions, 6);
  }

  /** Every valid preparation fits a frame, whatever the number of its routes. */
  lemma PreparationFits(owner: LeaseOwner, d: PrepareDeclaration)
    requires OwnerValid(owner) && DeclarationValid(d)
    ensures Encode(NetdRequest(1, owner, Prepare(d))).Some?
  {
    hide Varint, WriteList, DeclarationValid, OwnerValid;
    ListsSize(d);
    FirewallSize(d.firewall);
    Varint64(NETD_PROTOCOL_VERSION);
    Varint64(1);
    Varint64(d.tableId);
    Varint64(d.effectiveMtu);
    Varint64(owner.pid);
    Varint64(owner.generation);
    Varint64(owner.leaseDeadlineMonoMs);
    assert |PutDeclaration(d, [])| <= 500_000;
  }

  // ---- requests of that size ----

  const OWNER := LeaseOwner([1, 0, 0, 0, 0, 0, 0, 0, 0, 0, 0, 0, 0, 0, 0, 0], 1, 1, 1)

  /** One local route 10.0.0.`last`/24 beside one excluded host. */
  function Sample(last: byte): NetdRequest {
    NetdRequest(1, OWNER, Prepare(PrepareDeclaration(
      20_000, [100, 64, 0, 1], 1400,
      [RouteDeclaration(Ipv4Prefix([10, 0, 0, last], 24), Local)],
      [UnderlayExclusion(Ipv4Prefix([1, 1, 1, 1], 32), CloudApi)],
      FirewallPolicy(true, true, true, true))))
  }

  lemma FourBytes(a: byte, b: byte, c: byte, d: byte)
    ensures FromBigEndian([a, b, c, d]) == ((a as int * 256 + b as int) * 256 + c as int) * 256 + d as int
  {
    var x: seq<byte> := [a, b, c, d];
    assert x[..3] == [a, b, c] && x[..3][..2] == [a, b] && x[..3][..2][..1] == [a] && x[..3][..2][..1][..0] == [];
    assert FromBigEndian([a]) == a as int;
    assert FromBigEndian([a, b]) == a as int * 256 + b as int;
    assert FromBigEndian([a, b, c]) == (a as int * 256 + b as int) * 256 + c as int;
  }

  lemma SampleAddresses(last: byte)
    ensures FromBigEndian([10, 0, 0, last]) == 167_772_160 + last as int
    ensures FromBigEndian([1, 1, 1, 1]) == 16_843_009 && FromBigEndian([100, 64, 0, 1]) == 1_681_915_905
    ensures Pow2(8) == 256 && Pow2(0) == 1
  {
    FourBytes(10, 0, 0, last);
    FourBytes(1, 1, 1, 1);
    FourBytes(100, 64, 0, 1);
    assert Pow2(4) == 16;
  }

  lemma SampleIsValid(last: byte)
    ensures DeclarationValid(Sample(last).operation.declaration) && RequestValid(Sample(last))
  {
    hide FromBigEndian;
    SampleAddresses(last);
    assert OWNER.instanceId[0] != (seq(16, _ => 0 as byte))[0];
  }

  lemma SampleEncodes(last: byte)
    ensures Encode(Sample(last)).Some? && |Encode(Sample(last)).value| == MIN_PREPARE_FRAME
  {
    hide PutRequest, DeclarationValid, RequestValid;
    SampleIsValid(last);
    RequestSize(Sample(last));
  }

  lemma SampleIsCanonical(last: byte)
    ensures CanonicalOperation(Sample(last).operation) <==> last == 0
  {
    hide FromBigEndian, Pow2;
    SampleAddresses(last);
    var d := Sample(last).operation.declaration;
    assert d.exclusions[0].prefix == Ipv4Prefix([1, 1, 1, 1], 32) && CanonicalPrefix(d.exclusions[0].prefix);
    assert d.routes[0].prefix == Ipv4Prefix([10, 0, 0, last], 24);
    assert CanonicalPrefix(d.routes[0].prefix) <==> last == 0;
  }

  /** A request the encoder accepts and no decoder reads: a local route 10.0.0.1/24. */
  lemma HostBitsPassTheEncoder()
    ensures Encode(Sample(1)).Some? && Decode(Encode(Sample(1)).value).None?
  {
    hide Encode, Decode, CanonicalOperation;
    SampleEncodes(1);
    SampleIsCanonical(1);
    EncodedFrameDecodes(Sample(1));
  }
}
