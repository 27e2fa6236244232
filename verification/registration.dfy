/** Building the registration to publish: each explicit public endpoint with the identity Core reports
    for its port, in the order of their text. */
module Registration {
  import opened Bytes
  import opened Sorting
  import opened Text
  import opened TransportIdentity
  import opened Wrappers

  datatype Address = Address(ip: seq<byte>, port: u16)

  /** A listener as Core reports it; `None` is a listener that is not a socket address. */
  datatype Inspected = Inspected(listen: Option<Address>, serverCertSha256: string, transportPreset: TransportPreset)

  datatype PortIdentity = PortIdentity(serverCertSha256: string, transportPreset: TransportPreset)

  type Ports = map<u16, PortIdentity>

  datatype Refusal = TooMany | UnreadableListener | Ambiguous | Duplicates | NotConcrete | NotAListener

  function IdentityOf(i: Inspected): PortIdentity {
    PortIdentity(i.serverCertSha256, i.transportPreset)
  }

  predicate Readable(inspected: seq<Inspected>) {
    forall i :: 0 <= i < |inspected| ==> inspected[i].listen.Some?
  }

  /** No port has two identities. */
  predicate Unambiguous(inspected: seq<Inspected>)
    requires Readable(inspected)
  {
    forall i, j :: 0 <= i < j < |inspected| && inspected[i].listen.value.port == inspected[j].listen.value.port
      ==> IdentityOf(inspected[i]) == IdentityOf(inspected[j])
  }

  function PortsOf(inspected: seq<Inspected>): Ports
    requires Readable(inspected)
  {
    if inspected == [] then map[] else
      var last := inspected[|inspected| - 1];
      PortsOf(inspected[..|inspected| - 1])[last.listen.value.port := IdentityOf(last)]
  }

  ghost predicate Listens(inspected: seq<Inspected>, port: u16, identity: PortIdentity)
    requires Readable(inspected)
  {
    exists i :: 0 <= i < |inspected| && inspected[i].listen.value.port == port && IdentityOf(inspected[i]) == identity
  }

  /** The map by port knows exactly the listeners. */
  lemma {:induction false} PortsAreTheListeners(inspected: seq<Inspected>, port: u16)
    requires Readable(inspected) && Unambiguous(inspected)
    ensures port in PortsOf(inspected) ==> Listens(inspected, port, PortsOf(inspected)[port])
    ensures forall identity :: Listens(inspected, port, identity) ==>
              port in PortsOf(inspected) && PortsOf(inspected)[port] == identity
  {
    hide IdentityOf;
    if inspected != [] {
      var init, last := inspected[..|inspected| - 1], inspected[|inspected| - 1];
      assert forall i :: 0 <= i < |init| ==> init[i] == inspected[i];
      PortsAreTheListeners(init, port);
      OneMoreListener(init, last, port);
      InitAndLast(inspected);
      if port == last.listen.value.port {
        assert Listens(inspected, port, IdentityOf(last));
      }
    }
  }

  lemma OneMoreListener(init: seq<Inspected>, last: Inspected, port: u16)
    requires last.listen.Some? && Readable(init) && Readable(init + [last]) && Unambiguous(init + [last])
    ensures forall identity :: Listens(init + [last], port, identity) <==>
              Listens(init, port, identity) || (last.listen.value.port == port && IdentityOf(last) == identity)
    ensures forall identity :: Listens(init, port, identity) && last.listen.value.port == port ==>
              identity == IdentityOf(last)
  {
    hide IdentityOf;
    var all := init + [last];
    assert all[|init|] == last && forall i :: 0 <= i < |init| ==> all[i] == init[i];
    forall identity ensures Listens(all, port, identity) <==>
              Listens(init, port, identity) || (last.listen.value.port == port && IdentityOf(last) == identity)
    {
      if Listens(init, port, identity) {
        var i :| 0 <= i < |init| && init[i].listen.value.port == port && IdentityOf(init[i]) == identity;
        assert all[i] == init[i];
      }
    }
  }

  predicate Concrete(a: Address) {
    a.port != 0 && exists i :: 0 <= i < |a.ip| && a.ip[i] != 0
  }

  ghost predicate TextIsInjective(text: Address -> string) {
    forall a, b :: text(a) == text(b) ==> a == b
  }

  function Texts(text: Address -> string, addresses: seq<Address>): set<string> {
    set a | a in addresses :: text(a)
  }

  predicate Publishable(ports: Ports, addresses: seq<Address>) {
    forall a :: a in addresses ==> Concrete(a) && a.port in ports
  }

  ghost function Named(text: Address -> string, addresses: seq<Address>, name: string): (a: Address)
    requires name in Texts(text, addresses)
    ensures a in addresses && text(a) == name
  {
    var a :| a in addresses && text(a) == name;
    a
  }

  function Entry(text: Address -> string, ports: Ports, a: Address): RegisteredEndpoint
    requires a.port in ports
  {
    RegisteredEndpoint(text(a), ports[a.port].serverCertSha256, ports[a.port].transportPreset)
  }

  /** The endpoints in the order of their text. */
  ghost function Entries(text: Address -> string, ports: Ports, addresses: seq<Address>): seq<RegisteredEndpoint>
    requires Publishable(ports, addresses)
  {
    var names := Sorted(Texts(text, addresses));
    seq(|names|, k requires 0 <= k < |names| => Entry(text, ports, Named(text, addresses, names[k])))
  }

  ghost predicate Accepts(inspected: seq<Inspected>, addresses: seq<Address>) {
    && |addresses| <= MAX_PUBLIC_ENDPOINTS && Readable(inspected) && Unambiguous(inspected)
    && Distinct(addresses) && Publishable(PortsOf(inspected), addresses)
  }

  method ListenersByPort(inspected: seq<Inspected>) returns (ports: Result<Ports, Refusal>)
    ensures ports.Ok? <==> Readable(inspected) && Unambiguous(inspected)
    ensures ports.Ok? ==> ports.value == PortsOf(inspected)
  {
    hide IdentityOf;
    var byPort: Ports := map[];
    for i := 0 to |inspected|
      invariant Readable(inspected[..i]) && Unambiguous(inspected[..i]) && byPort == PortsOf(inspected[..i])
    {
      var endpoint := inspected[i];
      if endpoint.listen.None? {
        return Err(UnreadableListener);
      }
      var port, identity := endpoint.listen.value.port, IdentityOf(endpoint);
      PortsAreTheListeners(inspected[..i], port);
      assert inspected[..i + 1][..i] == inspected[..i];
      if port in byPort && byPort[port] != identity {
        var j :| 0 <= j < i && inspected[..i][j].listen.value.port == port && IdentityOf(inspected[..i][j]) == byPort[port];
        assert inspected[j].listen.value.port == port && IdentityOf(inspected[j]) != IdentityOf(inspected[i]);
        return Err(Ambiguous);
      }
      forall j | 0 <= j < i && inspected[j].listen.value.port == port ensures IdentityOf(inspected[j]) == identity {
        assert inspected[..i][j] == inspected[j];
        assert Listens(inspected[..i], port, IdentityOf(inspected[j]));
      }
      byPort := byPort[port := identity];
    }
    assert inspected[..|inspected|] == inspected;
    ports := Ok(byPort);
  }

  lemma NamesOneMore(text: Address -> string, init: seq<Address>, last: Address)
    requires TextIsInjective(text)
    ensures Texts(text, init + [last]) == Texts(text, init) + {text(last)}
    ensures text(last) in Texts(text, init) <==> last in init
  {
  }

  lemma DistinctOneMore<T>(init: seq<T>, last: T)
    ensures Distinct(init + [last]) <==> Distinct(init) && last !in init
  {
    var all := init + [last];
    assert all[|init|] == last && forall i :: 0 <= i < |init| ==> all[i] == init[i];
  }

  lemma {:induction false} AsManyNames(text: Address -> string, addresses: seq<Address>)
    requires TextIsInjective(text)
    ensures |Texts(text, addresses)| <= |addresses|
    ensures |Texts(text, addresses)| == |addresses| <==> Distinct(addresses)
  {
    if addresses == [] {
      assert Texts(text, addresses) == {};
    } else {
      hide Texts, Distinct, TextIsInjective;
      var init, last := addresses[..|addresses| - 1], addresses[|addresses| - 1];
      AsManyNames(text, init);
      InitAndLast(addresses);
      NamesOneMore(text, init, last);
      DistinctOneMore(init, last);
    }
  }

  lemma {:induction false} ListedOnce(s: seq<string>, names: set<string>)
    requires Lists(s, names)
    ensures |s| == |names|
  {
    hide Less;
    if s == [] {
      assert names == {};
    } else {
      assert s[0] in s;
      RestLists(s, names);
      ListedOnce(s[1..], names - {s[0]});
    }
  }

  method Find(text: Address -> string, addresses: seq<Address>, name: string) returns (a: Address)
    requires name in Texts(text, addresses) && TextIsInjective(text)
    ensures a == Named(text, addresses, name)
  {
    var i := 0;
    while text(addresses[i]) != name
      invariant i < |addresses| && forall j :: 0 <= j < i ==> text(addresses[j]) != name
      decreases |addresses| - i
    {
      i := i + 1;
      if i == |addresses| {
        assert false;
      }
    }
    a := addresses[i];
  }

  method BuildRegistration(lib: Libraries, text: Address -> string, inspected: seq<Inspected>, addresses: seq<Address>)
    returns (request: Result<Option<Request>, Refusal>)
    requires TextIsInjective(text)
    ensures addresses == [] ==> request == Ok(None)
    ensures addresses != [] ==> (request.Ok? <==> Accepts(inspected, addresses))
    ensures addresses != [] && request.Ok? ==>
              var endpoints := Entries(text, PortsOf(inspected), addresses);
              request.value == Some(Request(1, "transport-v1-" + Digest(lib, endpoints), endpoints))
  {
    hide Digest, Lists, Concrete, PortsOf, Unambiguous, Entries, Publishable, Readable;
    if addresses == [] {
      return Ok(None);
    }
    if |addresses| > MAX_PUBLIC_ENDPOINTS {
      return Err(TooMany);
    }
    var ports := ListenersByPort(inspected);
    if ports.Err? {
      return Err(ports.error);
    }
    var names := Sort(Texts(text, addresses));
    ListedOnce(names, Texts(text, addresses));
    AsManyNames(text, addresses);
    if |names| != |addresses| {
      return Err(Duplicates);
    }
    var endpoints := CollectEntries(text, ports.value, addresses, names);
    if endpoints.Err? {
      return Err(endpoints.error);
    }
    request := Ok(Some(Request(1, "transport-v1-" + Digest(lib, endpoints.value), endpoints.value)));
  }

  method CollectEntries(text: Address -> string, ports: Ports, addresses: seq<Address>, names: seq<string>)
    returns (entries: Result<seq<RegisteredEndpoint>, Refusal>)
    requires TextIsInjective(text) && names == Sorted(Texts(text, addresses))
    ensures entries.Ok? <==> Publishable(ports, addresses)
    ensures entries.Ok? ==> entries.value == Entries(text, ports, addresses)
  {
    hide Lists, Concrete, Publishable, Entries, Named, Texts, Entry, Sorted;
    InNames(names, text, addresses);
    var endpoints: seq<RegisteredEndpoint> := [];
    for k := 0 to |names|
      invariant Collected(text, ports, addresses, names[..k], endpoints)
    {
      var endpoint := Find(text, addresses, names[k]);
      if !Concrete(endpoint) {
        NotPublishable(ports, addresses, endpoint);
        return Err(NotConcrete);
      }
      if endpoint.port !in ports {
        NotPublishable(ports, addresses, endpoint);
        return Err(NotAListener);
      }
      assert names[..k + 1] == names[..k] + [names[k]];
      endpoints := endpoints + [Entry(text, ports, endpoint)];
    }
    assert names[..|names|] == names;
    AllCollected(text, ports, addresses, endpoints);
    entries := Ok(endpoints);
  }

  /** The entries made from the first names. */
  ghost predicate Collected(text: Address -> string, ports: Ports, addresses: seq<Address>, names: seq<string>,
                            endpoints: seq<RegisteredEndpoint>)
  {
    && |endpoints| == |names|
    && forall j :: 0 <= j < |names| ==>
         && names[j] in Texts(text, addresses)
         && var a := Named(text, addresses, names[j]);
            Concrete(a) && a.port in ports && endpoints[j] == Entry(text, ports, a)
  }

  lemma NotPublishable(ports: Ports, addresses: seq<Address>, a: Address)
    requires a in addresses && (!Concrete(a) || a.port !in ports)
    ensures !Publishable(ports, addresses)
  {
    hide Concrete;
  }

  lemma AllCollected(text: Address -> string, ports: Ports, addresses: seq<Address>, endpoints: seq<RegisteredEndpoint>)
    requires TextIsInjective(text) && Collected(text, ports, addresses, Sorted(Texts(text, addresses)), endpoints)
    ensures Publishable(ports, addresses) && endpoints == Entries(text, ports, addresses)
  {
    hide Lists, Concrete, Entry, Sorted;
    var names := Sorted(Texts(text, addresses));
    InNames(names, text, addresses);
    forall a | a in addresses ensures Concrete(a) && a.port in ports {
      var j :| 0 <= j < |names| && names[j] == text(a);
      assert Named(text, addresses, names[j]) == a;
    }
  }

  lemma InNames(names: seq<string>, text: Address -> string, addresses: seq<Address>)
    requires Lists(names, Texts(text, addresses))
    ensures forall j :: 0 <= j < |names| ==> names[j] in Texts(text, addresses)
    ensures forall a :: a in addresses ==> text(a) in names
  {
    hide Ascending;
  }

  // ---- order does not matter ----

  ghost predicate SameMembers<T(!new)>(xs: seq<T>, ys: seq<T>) {
    forall x :: x in xs <==> x in ys
  }

  lemma SamePorts(a: seq<Inspected>, b: seq<Inspected>)
    requires SameMembers(a, b) && Readable(a) && Unambiguous(a)
    ensures Readable(b) && Unambiguous(b) && PortsOf(a) == PortsOf(b)
  {
    hide IdentityOf, PortsOf;
    forall i | 0 <= i < |b| ensures b[i].listen.Some? && b[i] in a {
      assert b[i] in b;
    }
    forall i, j | 0 <= i < j < |b| && b[i].listen.value.port == b[j].listen.value.port
      ensures IdentityOf(b[i]) == IdentityOf(b[j])
    {
      var k :| 0 <= k < |a| && a[k] == b[i];
      var l :| 0 <= l < |a| && a[l] == b[j];
      assert k < l || l < k || k == l;
    }
    forall port ensures port in PortsOf(a) <==> port in PortsOf(b)
      ensures port in PortsOf(a) ==> PortsOf(a)[port] == PortsOf(b)[port]
    {
      PortsAreTheListeners(a, port);
      PortsAreTheListeners(b, port);
      SameListeners(a, b, port);
      SameListeners(b, a, port);
    }
  }

  lemma SameListeners(a: seq<Inspected>, b: seq<Inspected>, port: u16)
    requires Readable(a) && Readable(b) && SameMembers(a, b)
    ensures forall identity :: Listens(a, port, identity) ==> Listens(b, port, identity)
  {
    hide IdentityOf;
    forall identity | Listens(a, port, identity) ensures Listens(b, port, identity) {
      var i :| 0 <= i < |a| && a[i].listen.value.port == port && IdentityOf(a[i]) == identity;
      assert a[i] in b;
      var j :| 0 <= j < |b| && b[j] == a[i];
    }
  }

  /** The registration does not depend on the order in which Core lists its listeners or the operator
      lists the public endpoints. */
  lemma OrderDoesNotMatter(lib: Libraries, text: Address -> string, a: seq<Inspected>, x: seq<Address>,
                           b: seq<Inspected>, y: seq<Address>)
    requires TextIsInjective(text) && SameMembers(a, b) && multiset(x) == multiset(y) && Accepts(a, x)
    ensures Accepts(b, y) && Entries(text, PortsOf(a), x) == Entries(text, PortsOf(b), y)
  {
    hide PortsOf, Concrete, Unambiguous, Readable;
    SamePorts(a, b);
    assert forall e :: e in x <==> e in multiset(x);
    assert forall e :: e in y <==> e in multiset(y);
    assert |x| == |multiset(x)| == |multiset(y)| == |y|;
    AsManyNames(text, x);
    AsManyNames(text, y);
    assert Texts(text, x) == Texts(text, y);
    SameEntries(text, PortsOf(a), x, y);
  }

  lemma {:induction false} SameEntries(text: Address -> string, ports: Ports, x: seq<Address>, y: seq<Address>)
    requires TextIsInjective(text) && Publishable(ports, x) && (forall e :: e in x <==> e in y)
    requires Texts(text, x) == Texts(text, y)
    ensures Entries(text, ports, x) == Entries(text, ports, y)
  {
    hide Concrete, Lists;
    var names := Sorted(Texts(text, x));
    InNames(names, text, x);
    forall k | 0 <= k < |names| ensures Named(text, x, names[k]) == Named(text, y, names[k]) {
    }
  }

  /** Each public endpoint is registered once, with what Core reports for its port. */
  lemma EveryEndpointOnce(text: Address -> string, inspected: seq<Inspected>, addresses: seq<Address>, a: Address)
    requires TextIsInjective(text) && Accepts(inspected, addresses) && a in addresses
    ensures var entries := Entries(text, PortsOf(inspected), addresses);
            && |entries| == |addresses|
            && Entry(text, PortsOf(inspected), a) in entries
            && Listens(inspected, a.port, PortsOf(inspected)[a.port])
            && forall i, j :: 0 <= i < j < |entries| ==> Less(entries[i].endpoint, entries[j].endpoint)
  {
    hide Concrete, Less, PortsOf, Unambiguous;
    PortsAreTheListeners(inspected, a.port);
    var names := Sorted(Texts(text, addresses));
    ListedOnce(names, Texts(text, addresses));
    AsManyNames(text, addresses);
    InNames(names, text, addresses);
    var k :| 0 <= k < |names| && names[k] == text(a);
    assert Entries(text, PortsOf(inspected), addresses)[k] == Entry(text, PortsOf(inspected), a);
  }

  /** What is built from a valid inspection report is a request the outbox accepts. */
  lemma {:induction false} BuiltIsValid(lib: Libraries, text: Address -> string, inspected: seq<Inspected>, addresses: seq<Address>)
    requires TextIsInjective(text) && Accepts(inspected, addresses) && addresses != []
    requires forall i :: 0 <= i < |inspected| ==> CanonicalHex(inspected[i].serverCertSha256, 32)
    requires forall a :: Concrete(a) ==> lib.concreteAddress(text(a))
    ensures var entries := Entries(text, PortsOf(inspected), addresses);
            ValidRequest(lib, Request(1, "transport-v1-" + Digest(lib, entries), entries))
  {
    hide Concrete, Less, PortsOf, Unambiguous, Digest, CanonicalHex, Lists;
    var ports := PortsOf(inspected);
    var entries := Entries(text, ports, addresses);
    var names := Sorted(Texts(text, addresses));
    ListedOnce(names, Texts(text, addresses));
    AsManyNames(text, addresses);
    InNames(names, text, addresses);
    forall k | 0 <= k < |entries|
      ensures lib.concreteAddress(entries[k].endpoint) && CanonicalHex(entries[k].serverCertSha256, 32)
    {
      var a := Named(text, addresses, names[k]);
      PortsAreTheListeners(inspected, a.port);
      assert Listens(inspected, a.port, ports[a.port]);
    }
  }
}
