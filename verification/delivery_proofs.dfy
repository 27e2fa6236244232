/** Unique decodability of the delivery digests' preimages. */
module DeliveryProofs {
  import opened Bytes
  import opened Catalogs
  import opened Delivery
  import opened Sorting
  import opened Text

  const MAX_ROUTE_ENVELOPE_BYTES: nat := 8 * 1024 * 1024

  predicate Bounded(b: seq<byte>) {
    0 < |b| <= MAX_ROUTE_ENVELOPE_BYTES
  }

  /** What decoding the envelopes of a configuration produces: as many as its catalogs list, each of
      bounded size. */
  predicate DecodedFrom(c: Configuration, o: Objects) {
    && Bounded(o.segment) && Bounded(o.projection)
    && |o.peers| == |c.catalog| && (forall i :: 0 <= i < |o.peers| ==> Bounded(o.peers[i]))
    && |o.compatibility| == |c.compatibility|
    && (forall i :: 0 <= i < |o.compatibility| ==> DecodedGenerationFrom(c.compatibility[i], o.compatibility[i]))
  }

  predicate DecodedGenerationFrom(g: CompatibilityGeneration, d: DecodedGeneration) {
    && d.segmentGeneration == g.segmentGeneration && Bounded(d.segment) && |d.peers| == |g.catalog|
    && forall i :: 0 <= i < |d.peers| ==> Bounded(d.peers[i])
  }

  /** The signed content of a catalog entry; its base64 text is represented by the decoded envelope. */
  predicate SameEntry(a: PeerProjection, b: PeerProjection) {
    a.projectionId == b.projectionId && a.projectionGeneration == b.projectionGeneration
    && a.projectionContentHash == b.projectionContentHash
  }

  predicate SameCatalog(a: seq<PeerProjection>, b: seq<PeerProjection>) {
    |a| == |b| && forall i :: 0 <= i < |a| ==> SameEntry(a[i], b[i])
  }

  predicate SameGeneration(a: CompatibilityGeneration, b: CompatibilityGeneration) {
    a.segmentGeneration == b.segmentGeneration && a.segmentContentHash == b.segmentContentHash
    && SameCatalog(a.catalog, b.catalog)
  }

  predicate SameGenerations(a: seq<CompatibilityGeneration>, b: seq<CompatibilityGeneration>) {
    |a| == |b| && forall i :: 0 <= i < |a| ==> SameGeneration(a[i], b[i])
  }

  lemma WordInjective(m: nat, x: seq<byte>, n: nat, y: seq<byte>)
    requires m < 0x1_0000_0000_0000_0000 && n < 0x1_0000_0000_0000_0000
    requires Word(m) + x == Word(n) + y
    ensures m == n && x == y
  {
    Widths();
    SameHeads(Word(m), x, Word(n), y);
    BigEndianRoundTrip(m, 8);
    BigEndianRoundTrip(n, 8);
  }

  lemma FieldInjective(a: seq<byte>, x: seq<byte>, b: seq<byte>, y: seq<byte>)
    requires |a| < 0x1_0000_0000_0000_0000 && |b| < 0x1_0000_0000_0000_0000
    requires Prefixed(a, 8) + x == Prefixed(b, 8) + y
    ensures a == b && x == y
  {
    Widths();
    PrefixedInjective(a, x, b, y, 8);
  }

  /** Two entries read alike only if they are alike, whatever follows. */
  lemma EntryInjective(e: PeerProjection, v: seq<byte>, x: seq<byte>, f: PeerProjection, w: seq<byte>, y: seq<byte>)
    requires CanonicalHex(e.projectionContentHash, 32) && CanonicalHex(f.projectionContentHash, 32)
    requires Bounded(v) && Bounded(w) && EntryFrame(e, v) + x == EntryFrame(f, w) + y
    ensures SameEntry(e, f) && v == w && x == y
  {
    hide CanonicalHex;
    var he, hf := Unhex(e.projectionContentHash), Unhex(f.projectionContentHash);
    var ge, gf := Word(e.projectionGeneration), Word(f.projectionGeneration);
    FourParts(e.projectionId, ge, he, Prefixed(v, 8), x);
    FourParts(f.projectionId, gf, hf, Prefixed(w, 8), y);
    Regroup(e.projectionId, ge, he, Prefixed(v, 8), x);
    Regroup(f.projectionId, gf, hf, Prefixed(w, 8), y);
    SameHeads(e.projectionId, ge + (he + (Prefixed(v, 8) + x)), f.projectionId, gf + (hf + (Prefixed(w, 8) + y)));
    WordInjective(e.projectionGeneration, he + (Prefixed(v, 8) + x), f.projectionGeneration, hf + (Prefixed(w, 8) + y));
    SameHeads(he, Prefixed(v, 8) + x, hf, Prefixed(w, 8) + y);
    UnhexInjective(e.projectionContentHash, f.projectionContentHash, 32);
    FieldInjective(v, x, w, y);
  }

  lemma Regroup(a: seq<byte>, b: seq<byte>, c: seq<byte>, d: seq<byte>, x: seq<byte>)
    ensures (a + (b + (c + d))) + x == a + (b + (c + (d + x)))
  {
    Assoc(a, b + (c + d), x);
    Assoc(b, c + d, x);
    Assoc(c, d, x);
  }

  lemma {:induction false} CatalogInjective(c: seq<PeerProjection>, v: seq<seq<byte>>, x: seq<byte>,
                                            d: seq<PeerProjection>, w: seq<seq<byte>>, y: seq<byte>)
    requires HexCatalog(c) && HexCatalog(d) && |c| == |v| == |d| == |w|
    requires forall i :: 0 <= i < |v| ==> Bounded(v[i])
    requires forall i :: 0 <= i < |w| ==> Bounded(w[i])
    requires CatalogFrame(c, v) + x == CatalogFrame(d, w) + y
    ensures SameCatalog(c, d) && v == w && x == y
    decreases |c|
  {
    hide CanonicalHex, EntryFrame, Bounded;
    if c == [] {
      assert x == CatalogFrame(c, v) + x && y == CatalogFrame(d, w) + y;
    } else {
      var ct, dt := CatalogFrame(c[1..], v[1..]), CatalogFrame(d[1..], w[1..]);
      Assoc(EntryFrame(c[0], v[0]), ct, x);
      Assoc(EntryFrame(d[0], w[0]), dt, y);
      EntryInjective(c[0], v[0], ct + x, d[0], w[0], dt + y);
      CatalogInjective(c[1..], v[1..], x, d[1..], w[1..], y);
      SameFromFirst(c, d);
      assert v == [v[0]] + v[1..] && w == [w[0]] + w[1..];
    }
  }

  lemma SameFromFirst(c: seq<PeerProjection>, d: seq<PeerProjection>)
    requires c != [] && d != [] && SameEntry(c[0], d[0]) && SameCatalog(c[1..], d[1..])
    ensures SameCatalog(c, d)
  {
    hide SameEntry;
    forall i | 0 <= i < |c| ensures SameEntry(c[i], d[i]) {
      if i > 0 {
        assert c[i] == c[1..][i - 1] && d[i] == d[1..][i - 1];
      }
    }
  }

  lemma GenerationInjective(g: CompatibilityGeneration, d: DecodedGeneration, x: seq<byte>,
                            h: CompatibilityGeneration, e: DecodedGeneration, y: seq<byte>)
    requires HexGeneration(g) && HexGeneration(h) && DecodedGenerationFrom(g, d) && DecodedGenerationFrom(h, e)
    requires |g.catalog| < 0x1_0000_0000_0000_0000 && |h.catalog| < 0x1_0000_0000_0000_0000
    requires GenerationFrame(g, d) + x == GenerationFrame(h, e) + y
    ensures SameGeneration(g, h) && d == e && x == y
  {
    hide CanonicalHex, CatalogFrame, HexCatalog;
    var cg, ch := CatalogFrame(g.catalog, d.peers), CatalogFrame(h.catalog, e.peers);
    var ug, uh := Unhex(g.segmentContentHash), Unhex(h.segmentContentHash);
    var sg, sh := Prefixed(d.segment, 8), Prefixed(e.segment, 8);
    var ng, nh := Word(|g.catalog|), Word(|h.catalog|);
    Regroup(Word(g.segmentGeneration), ug, sg, ng + cg, x);
    Regroup(Word(h.segmentGeneration), uh, sh, nh + ch, y);
    Assoc(ng, cg, x);
    Assoc(nh, ch, y);
    WordInjective(g.segmentGeneration, ug + (sg + (ng + (cg + x))), h.segmentGeneration, uh + (sh + (nh + (ch + y))));
    SameHeads(ug, sg + (ng + (cg + x)), uh, sh + (nh + (ch + y)));
    UnhexInjective(g.segmentContentHash, h.segmentContentHash, 32);
    FieldInjective(d.segment, ng + (cg + x), e.segment, nh + (ch + y));
    WordInjective(|g.catalog|, cg + x, |h.catalog|, ch + y);
    CatalogInjective(g.catalog, d.peers, x, h.catalog, e.peers, y);
  }

  ghost predicate DecodedGenerationsFrom(gs: seq<CompatibilityGeneration>, ds: seq<DecodedGeneration>) {
    |gs| == |ds| && forall i :: 0 <= i < |gs| ==>
      DecodedGenerationFrom(gs[i], ds[i]) && |gs[i].catalog| < 0x1_0000_0000_0000_0000
  }

  lemma {:induction false} GenerationsInjective(
    gs: seq<CompatibilityGeneration>, ds: seq<DecodedGeneration>, x: seq<byte>,
    hs: seq<CompatibilityGeneration>, es: seq<DecodedGeneration>, y: seq<byte>)
    requires HexGenerations(gs) && HexGenerations(hs) && |gs| == |hs|
    requires DecodedGenerationsFrom(gs, ds) && DecodedGenerationsFrom(hs, es)
    requires GenerationsFrame(gs, ds) + x == GenerationsFrame(hs, es) + y
    ensures SameGenerations(gs, hs) && ds == es && x == y
    decreases |gs|
  {
    hide HexGeneration, GenerationFrame, DecodedGenerationFrom;
    if gs == [] {
      assert x == GenerationsFrame(gs, ds) + x && y == GenerationsFrame(hs, es) + y;
    } else {
      var gt, ht := GenerationsFrame(gs[1..], ds[1..]), GenerationsFrame(hs[1..], es[1..]);
      Assoc(GenerationFrame(gs[0], ds[0]), gt, x);
      Assoc(GenerationFrame(hs[0], es[0]), ht, y);
      GenerationInjective(gs[0], ds[0], gt + x, hs[0], es[0], ht + y);
      GenerationsInjective(gs[1..], ds[1..], x, hs[1..], es[1..], y);
      SameGenerationsFromFirst(gs, hs);
      assert ds == [ds[0]] + ds[1..] && es == [es[0]] + es[1..];
    }
  }

  lemma SameGenerationsFromFirst(gs: seq<CompatibilityGeneration>, hs: seq<CompatibilityGeneration>)
    requires gs != [] && hs != [] && SameGeneration(gs[0], hs[0]) && SameGenerations(gs[1..], hs[1..])
    ensures SameGenerations(gs, hs)
  {
    hide SameGeneration;
    forall i | 0 <= i < |gs| ensures SameGeneration(gs[i], hs[i]) {
      if i > 0 {
        assert gs[i] == gs[1..][i - 1] && hs[i] == hs[1..][i - 1];
      }
    }
  }

  lemma ValidIsHex(c: Configuration)
    requires ValidConfiguration(c)
    ensures HexCatalog(c.catalog) && HexGenerations(c.compatibility) && HexKeys(c.grantKeys)
    ensures CanonicalHex(c.routePublicKey, 32)
    ensures forall i :: 0 <= i < |c.compatibility| ==> |c.compatibility[i].catalog| <= 4096
    ensures |c.catalog| <= 4096 && |c.compatibility| <= 32 && |c.grantKeys| <= 8
  {
    hide CanonicalHex, RetainedIds, Distinct, EntryRank;
  }

  /** The objects preimage determines the signed objects: both segments and projections, the catalogs
      in order, the older generations, and every decoded envelope. */
  lemma ObjectsInjective(c: Configuration, o: Objects, d: Configuration, p: Objects)
    requires ValidConfiguration(c) && ValidConfiguration(d) && DecodedFrom(c, o) && DecodedFrom(d, p)
    requires HexCatalog(c.catalog) && HexGenerations(c.compatibility)
    requires HexCatalog(d.catalog) && HexGenerations(d.compatibility)
    requires ObjectsPreimage(c, o) == ObjectsPreimage(d, p)
    ensures o == p && SameCatalog(c.catalog, d.catalog) && SameGenerations(c.compatibility, d.compatibility)
  {
    ValidIsHex(c);
    ValidIsHex(d);
    ObjectsInjectiveParts(c, o, d, p);
  }

  lemma {:induction false} ObjectsInjectiveParts(c: Configuration, o: Objects, d: Configuration, p: Objects)
    requires DecodedFrom(c, o) && DecodedFrom(d, p)
    requires HexCatalog(c.catalog) && HexGenerations(c.compatibility)
    requires HexCatalog(d.catalog) && HexGenerations(d.compatibility)
    requires |c.catalog| <= 4096 && |c.compatibility| <= 32 && |d.catalog| <= 4096 && |d.compatibility| <= 32
    requires forall i :: 0 <= i < |c.compatibility| ==> |c.compatibility[i].catalog| <= 4096
    requires forall i :: 0 <= i < |d.compatibility| ==> |d.compatibility[i].catalog| <= 4096
    requires ObjectsPreimage(c, o) == ObjectsPreimage(d, p)
    ensures o == p && SameCatalog(c.catalog, d.catalog) && SameGenerations(c.compatibility, d.compatibility)
  {
    hide CanonicalHex, CatalogFrame, HexCatalog, GenerationsFrame, HexGeneration, Ascii, SameCatalog, SameGenerations,
         DecodedGenerationFrom;
    var gc, gd := GenerationsFrame(c.compatibility, o.compatibility), GenerationsFrame(d.compatibility, p.compatibility);
    var c4, d4 := Word(|c.compatibility|) + gc, Word(|d.compatibility|) + gd;
    var c3, d3 := CatalogFrame(c.catalog, o.peers) + c4, CatalogFrame(d.catalog, p.peers) + d4;
    var c2, d2 := Word(|c.catalog|) + c3, Word(|d.catalog|) + d3;
    var c1, d1 := Prefixed(o.projection, 8) + c2, Prefixed(p.projection, 8) + d2;
    var domain := Ascii(OBJECTS_DOMAIN);
    SameHeads(domain, Prefixed(o.segment, 8) + c1, domain, Prefixed(p.segment, 8) + d1);
    FieldInjective(o.segment, c1, p.segment, d1);
    FieldInjective(o.projection, c2, p.projection, d2);
    WordInjective(|c.catalog|, c3, |d.catalog|, d3);
    CatalogInjective(c.catalog, o.peers, c4, d.catalog, p.peers, d4);
    WordInjective(|c.compatibility|, gc, |d.compatibility|, gd);
    assert gc + [] == gc && gd + [] == gd;
    GenerationsInjective(c.compatibility, o.compatibility, [], d.compatibility, p.compatibility, []);
  }

  lemma KeyInjective(k: GrantKey, x: seq<byte>, l: GrantKey, y: seq<byte>)
    requires ValidKey(k) && ValidKey(l) && KeyFrame(k) + x == KeyFrame(l) + y
    ensures k == l && x == y
  {
    hide CanonicalHex, Ascii, IsAscii;
    var ik, il := Prefixed(Ascii(k.keyId), 8), Prefixed(Ascii(l.keyId), 8);
    var uk, ul := Unhex(k.publicKey), Unhex(l.publicKey);
    Regroup(ik, uk, k.issuerId, k.environmentId, x);
    Regroup(il, ul, l.issuerId, l.environmentId, y);
    var k2, l2 := k.issuerId + (k.environmentId + x), l.issuerId + (l.environmentId + y);
    FieldInjective(Ascii(k.keyId), uk + k2, Ascii(l.keyId), ul + l2);
    AsciiInjective(k.keyId, l.keyId);
    SameHeads(uk, k2, ul, l2);
    UnhexInjective(k.publicKey, l.publicKey, 32);
    SameHeads(k.issuerId, k.environmentId + x, l.issuerId, l.environmentId + y);
    SameHeads(k.environmentId, x, l.environmentId, y);
  }

  lemma {:induction false} KeysInjective(ks: seq<GrantKey>, ls: seq<GrantKey>)
    requires HexKeys(ks) && HexKeys(ls) && |ks| == |ls| && KeysFrame(ks) == KeysFrame(ls)
    requires forall i :: 0 <= i < |ks| ==> ValidKey(ks[i])
    requires forall i :: 0 <= i < |ls| ==> ValidKey(ls[i])
    ensures ks == ls
    decreases |ks|
  {
    hide CanonicalHex, ValidKey, KeyFrame;
    if ks != [] {
      KeyInjective(ks[0], KeysFrame(ks[1..]), ls[0], KeysFrame(ls[1..]));
      KeysInjective(ks[1..], ls[1..]);
      assert ks == [ks[0]] + ks[1..] && ls == [ls[0]] + ls[1..];
    }
  }

  /** The two phases cannot be confused although their length is not written: they differ in the
      first byte. */
  lemma PhaseInjective(a: string, x: seq<byte>, b: string, y: seq<byte>)
    requires a in ["prepare", "commit"] && b in ["prepare", "commit"]
    requires Ascii(a) + x == Ascii(b) + y
    ensures a == b && x == y
  {
    assert (Ascii(a) + x)[0] == Ascii(a)[0] && (Ascii(b) + y)[0] == Ascii(b)[0];
    assert a == b;
    SameHeads(Ascii(a), x, Ascii(b), y);
  }

  lemma SmallWord(n: nat)
    requires n < 256
    ensures Word(n) == [0, 0, 0, 0, 0, 0, 0, n as byte]
  {
    assert BigEndian(0, 1) == [0];
    assert BigEndian(0, 2) == [0, 0];
    assert BigEndian(0, 3) == [0, 0, 0];
    assert BigEndian(0, 4) == [0, 0, 0, 0];
    assert BigEndian(0, 5) == [0, 0, 0, 0, 0];
    assert BigEndian(0, 6) == [0, 0, 0, 0, 0, 0];
    assert BigEndian(0, 7) == [0, 0, 0, 0, 0, 0, 0];
  }

  /** The restriction to those two phases is needed: a phase that looks like a length prefix shares
      its preimage with an empty phase under another, otherwise valid, route key id. */
  lemma BarePhaseIsAmbiguous(c: Configuration, h: Bytes32)
    requires CanonicalHex(c.routePublicKey, 32) && HexKeys(c.grantKeys)
    ensures var a := c.(activationPhase := "", routeKeyId := "a\0\0\0\0\0\0\0\U{01}b");
            var b := c.(activationPhase := "\0\0\0\0\0\0\0\na", routeKeyId := "b");
            a != b && DeliveryPreimage(a, h) == DeliveryPreimage(b, h)
  {
    hide CanonicalHex, HexKeys, KeysFrame, Unhex, Ascii, Prefixed;
    var a := c.(activationPhase := "", routeKeyId := "a\0\0\0\0\0\0\0\U{01}b");
    var b := c.(activationPhase := "\0\0\0\0\0\0\0\na", routeKeyId := "b");
    var tail := Unhex(c.routePublicKey) + (Word(|c.grantKeys|) + KeysFrame(c.grantKeys));
    AmbiguousHeads();
    Assoc(Ascii(a.activationPhase), Prefixed(Ascii(a.routeKeyId), 8), tail);
    Assoc(Ascii(b.activationPhase), Prefixed(Ascii(b.routeKeyId), 8), tail);
    assert |a.activationPhase| != |b.activationPhase|;
  }

  lemma AmbiguousPhase()
    ensures Ascii("") == [] && Ascii("b") == [98]
    ensures Ascii("\0\0\0\0\0\0\0\na") == [0, 0, 0, 0, 0, 0, 0, 10] + [97]
  {
  }

  lemma AmbiguousKey()
    ensures Ascii("a\0\0\0\0\0\0\0\U{01}b") == [97] + ([0, 0, 0, 0, 0, 0, 0, 1] + [98])
  {
  }

  lemma AmbiguousHeads()
    ensures Ascii("") + Prefixed(Ascii("a\0\0\0\0\0\0\0\U{01}b"), 8)
            == Ascii("\0\0\0\0\0\0\0\na") + Prefixed(Ascii("b"), 8)
  {
    hide Ascii;
    SmallWord(10);
    SmallWord(1);
    AmbiguousPhase();
    AmbiguousKey();
    Assoc(Word(10), [97], Word(1) + [98]);
  }

  /** The delivery preimage determines the objects hash, the phase, the route key and the grant keys. */
  lemma DeliveryInjective(c: Configuration, h: Bytes32, d: Configuration, i: Bytes32)
    requires ValidConfiguration(c) && ValidConfiguration(d)
    requires CanonicalHex(c.routePublicKey, 32) && HexKeys(c.grantKeys)
    requires CanonicalHex(d.routePublicKey, 32) && HexKeys(d.grantKeys)
    requires DeliveryPreimage(c, h) == DeliveryPreimage(d, i)
    ensures h == i && c.activationPhase == d.activationPhase && c.routeKeyId == d.routeKeyId
            && c.routePublicKey == d.routePublicKey && c.grantKeys == d.grantKeys
  {
    hide CanonicalHex, Ascii, IsAscii, KeysFrame, HexKeys, ValidKey, ValidCatalog, ValidCompatibility;
    var kc, kd := KeysFrame(c.grantKeys), KeysFrame(d.grantKeys);
    var c4, d4 := Word(|c.grantKeys|) + kc, Word(|d.grantKeys|) + kd;
    var c3, d3 := Unhex(c.routePublicKey) + c4, Unhex(d.routePublicKey) + d4;
    var c2, d2 := Prefixed(Ascii(c.routeKeyId), 8) + c3, Prefixed(Ascii(d.routeKeyId), 8) + d3;
    var domain := Ascii(DELIVERY_DOMAIN);
    SameHeads(domain, h + (Ascii(c.activationPhase) + c2), domain, i + (Ascii(d.activationPhase) + d2));
    SameHeads(h, Ascii(c.activationPhase) + c2, i, Ascii(d.activationPhase) + d2);
    PhaseInjective(c.activationPhase, c2, d.activationPhase, d2);
    FieldInjective(Ascii(c.routeKeyId), c3, Ascii(d.routeKeyId), d3);
    AsciiInjective(c.routeKeyId, d.routeKeyId);
    SameHeads(Unhex(c.routePublicKey), c4, Unhex(d.routePublicKey), d4);
    UnhexInjective(c.routePublicKey, d.routePublicKey, 32);
    WordInjective(|c.grantKeys|, kc, |d.grantKeys|, kd);
    KeysInjective(c.grantKeys, d.grantKeys);
  }

  /** The digest in a delivery's ETag. */
  function DeliveryDigest(sha: seq<byte> -> Bytes32, c: Configuration, o: Objects): string
    requires HexCatalog(c.catalog) && HexGenerations(c.compatibility)
    requires CanonicalHex(c.routePublicKey, 32) && HexKeys(c.grantKeys)
  {
    Hex(sha(DeliveryPreimage(c, sha(ObjectsPreimage(c, o)))))
  }

  predicate Hashable(c: Configuration) {
    HexCatalog(c.catalog) && HexGenerations(c.compatibility) && CanonicalHex(c.routePublicKey, 32) && HexKeys(c.grantKeys)
  }

  /** The hash collides on neither preimage of these two deliveries. */
  ghost predicate ToldApart(sha: seq<byte> -> Bytes32, c: Configuration, o: Objects, d: Configuration, p: Objects)
    requires Hashable(c) && Hashable(d)
  {
    && NoCollision(sha, ObjectsPreimage(c, o), ObjectsPreimage(d, p))
    && NoCollision(sha, DeliveryPreimage(c, sha(ObjectsPreimage(c, o))), DeliveryPreimage(d, sha(ObjectsPreimage(d, p))))
  }

  /** One digest names one delivery: its signed objects, phase, route key and grant keys. */
  lemma DigestNamesDelivery(sha: seq<byte> -> Bytes32, c: Configuration, o: Objects, d: Configuration, p: Objects)
    requires ValidConfiguration(c) && ValidConfiguration(d) && DecodedFrom(c, o) && DecodedFrom(d, p)
    requires Hashable(c) && Hashable(d) && ToldApart(sha, c, o, d, p)
    requires DeliveryDigest(sha, c, o) == DeliveryDigest(sha, d, p)
    ensures o == p && SameCatalog(c.catalog, d.catalog) && SameGenerations(c.compatibility, d.compatibility)
    ensures c.activationPhase == d.activationPhase && c.routeKeyId == d.routeKeyId
            && c.routePublicKey == d.routePublicKey && c.grantKeys == d.grantKeys
  {
    hide CanonicalHex, ValidConfiguration, DecodedFrom, Hex, HexKeys, HexCatalog, HexGenerations, ObjectsPreimage,
         DeliveryPreimage;
    var h, i := sha(ObjectsPreimage(c, o)), sha(ObjectsPreimage(d, p));
    HexInjective(sha(DeliveryPreimage(c, h)), sha(DeliveryPreimage(d, i)));
    DeliveryInjective(c, h, d, i);
    ObjectsInjective(c, o, d, p);
  }
}
