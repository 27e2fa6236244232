/** The digests that name a delivered configuration. Their preimages are concatenations of
    fixed-width and length-prefixed fields, except for one bare string; each preimage determines the
    signed objects it was made from. */
module Delivery {
  import opened Bytes
  import opened Text
  import opened Wrappers

  datatype PeerProjection = PeerProjection(
    projectionId: Bytes16, projectionGeneration: u64, projectionContentHash: string, siteProjection: string)

  datatype CompatibilityGeneration = CompatibilityGeneration(
    segmentGeneration: u64, segmentContentHash: string, segmentSnapshot: string, catalog: seq<PeerProjection>)

  datatype GrantKey = GrantKey(keyId: string, publicKey: string, issuerId: Bytes16, environmentId: Bytes16)

  datatype Configuration = Configuration(
    schemaVersion: nat, activationPhase: string, publicationId: Bytes16, projectionId: Bytes16, segmentId: Bytes16,
    attachmentId: Bytes16, segmentGeneration: u64, projectionGeneration: u64, projectionContentHash: string,
    routeKeyId: string, routePublicKey: string, segmentSnapshot: string, siteProjection: string,
    catalog: seq<PeerProjection>, compatibility: seq<CompatibilityGeneration>, grantKeys: seq<GrantKey>)

  datatype DecodedGeneration = DecodedGeneration(
    segmentGeneration: u64, segment: seq<byte>, peers: seq<seq<byte>>)

  /** The envelopes of a configuration after base64 decoding. */
  datatype Objects = Objects(
    segment: seq<byte>, projection: seq<byte>, peers: seq<seq<byte>>, compatibility: seq<DecodedGeneration>)

  const OBJECTS_DOMAIN := "candy/runtime-configuration-v1\0"
  const DELIVERY_DOMAIN := "candy/runtime-delivery-v1\0"

  // ---- preimages ----

  function Word(n: nat): (b: seq<byte>)
    ensures |b| == 8
  {
    BigEndian(n, 8)
  }

  /** One catalog entry with its envelope. */
  function EntryFrame(entry: PeerProjection, envelope: seq<byte>): seq<byte>
    requires CanonicalHex(entry.projectionContentHash, 32)
  {
    entry.projectionId + (Word(entry.projectionGeneration)
    + (Unhex(entry.projectionContentHash) + Prefixed(envelope, 8)))
  }

  predicate HexCatalog(catalog: seq<PeerProjection>) {
    forall i :: 0 <= i < |catalog| ==> CanonicalHex(catalog[i].projectionContentHash, 32)
  }

  /** The entries and envelopes side by side, as far as both go. */
  function CatalogFrame(catalog: seq<PeerProjection>, envelopes: seq<seq<byte>>): seq<byte>
    requires HexCatalog(catalog)
  {
    if catalog == [] || envelopes == [] then []
    else EntryFrame(catalog[0], envelopes[0]) + CatalogFrame(catalog[1..], envelopes[1..])
  }

  predicate HexGeneration(g: CompatibilityGeneration) {
    CanonicalHex(g.segmentContentHash, 32) && HexCatalog(g.catalog)
  }

  function GenerationFrame(g: CompatibilityGeneration, d: DecodedGeneration): seq<byte>
    requires HexGeneration(g)
  {
    Word(g.segmentGeneration) + (Unhex(g.segmentContentHash)
    + (Prefixed(d.segment, 8) + (Word(|g.catalog|) + CatalogFrame(g.catalog, d.peers))))
  }

  predicate HexGenerations(gs: seq<CompatibilityGeneration>) {
    forall i :: 0 <= i < |gs| ==> HexGeneration(gs[i])
  }

  function GenerationsFrame(gs: seq<CompatibilityGeneration>, ds: seq<DecodedGeneration>): seq<byte>
    requires HexGenerations(gs)
  {
    if gs == [] || ds == [] then []
    else GenerationFrame(gs[0], ds[0]) + GenerationsFrame(gs[1..], ds[1..])
  }

  function ObjectsPreimage(c: Configuration, o: Objects): seq<byte>
    requires HexCatalog(c.catalog) && HexGenerations(c.compatibility)
  {
    Ascii(OBJECTS_DOMAIN) + (Prefixed(o.segment, 8) + (Prefixed(o.projection, 8)
    + (Word(|c.catalog|) + (CatalogFrame(c.catalog, o.peers)
    + (Word(|c.compatibility|) + GenerationsFrame(c.compatibility, o.compatibility))))))
  }

  function KeyFrame(k: GrantKey): seq<byte>
    requires CanonicalHex(k.publicKey, 32)
  {
    Prefixed(Ascii(k.keyId), 8) + (Unhex(k.publicKey) + (k.issuerId + k.environmentId))
  }

  predicate HexKeys(ks: seq<GrantKey>) {
    forall i :: 0 <= i < |ks| ==> CanonicalHex(ks[i].publicKey, 32)
  }

  function KeysFrame(ks: seq<GrantKey>): seq<byte>
    requires HexKeys(ks)
  {
    if ks == [] then [] else KeyFrame(ks[0]) + KeysFrame(ks[1..])
  }

  /** The phase goes in bare, without a length. */
  function DeliveryPreimage(c: Configuration, objectsHash: Bytes32): seq<byte>
    requires CanonicalHex(c.routePublicKey, 32) && HexKeys(c.grantKeys)
  {
    Ascii(DELIVERY_DOMAIN) + (objectsHash + (Ascii(c.activationPhase)
    + (Prefixed(Ascii(c.routeKeyId), 8) + (Unhex(c.routePublicKey)
    + (Word(|c.grantKeys|) + KeysFrame(c.grantKeys))))))
  }

  // ---- the digests as computed ----

  method HashEntry(start: seq<byte>, entry: PeerProjection, envelope: seq<byte>) returns (hasher: seq<byte>)
    requires CanonicalHex(entry.projectionContentHash, 32)
    ensures hasher == start + EntryFrame(entry, envelope)
  {
    hide CanonicalHex;
    hasher := start + entry.projectionId;
    hasher := hasher + Word(entry.projectionGeneration);
    hasher := hasher + Unhex(entry.projectionContentHash);
    hasher := hasher + Word(|envelope|);
    hasher := hasher + envelope;
    FiveParts(start, entry.projectionId, Word(entry.projectionGeneration), Unhex(entry.projectionContentHash),
              Word(|envelope|), envelope);
  }

  method HashCatalog(start: seq<byte>, catalog: seq<PeerProjection>, envelopes: seq<seq<byte>>)
    returns (hasher: seq<byte>)
    requires HexCatalog(catalog)
    ensures hasher == start + CatalogFrame(catalog, envelopes)
  {
    hide CanonicalHex, EntryFrame;
    hasher := start;
    var i := 0;
    while i < |catalog| && i < |envelopes|
      invariant i <= |catalog| && i <= |envelopes|
      invariant hasher + CatalogFrame(catalog[i..], envelopes[i..]) == start + CatalogFrame(catalog, envelopes)
    {
      ghost var before := hasher;
      hasher := HashEntry(hasher, catalog[i], envelopes[i]);
      assert catalog[i..][1..] == catalog[i + 1..] && envelopes[i..][1..] == envelopes[i + 1..];
      Assoc(before, EntryFrame(catalog[i], envelopes[i]), CatalogFrame(catalog[i + 1..], envelopes[i + 1..]));
      i := i + 1;
    }
    assert hasher + [] == hasher;
  }

  lemma FiveParts(a: seq<byte>, b: seq<byte>, c: seq<byte>, d: seq<byte>, e: seq<byte>, f: seq<byte>)
    ensures ((((a + b) + c) + d) + e) + f == a + (b + (c + (d + (e + f))))
  {
    Assoc(((a + b) + c) + d, e, f);
    Assoc((a + b) + c, d, e + f);
    Assoc(a + b, c, d + (e + f));
    Assoc(a, b, c + (d + (e + f)));
  }

  method HashGeneration(start: seq<byte>, g: CompatibilityGeneration, d: DecodedGeneration)
    returns (hasher: seq<byte>)
    requires HexGeneration(g)
    ensures hasher == start + GenerationFrame(g, d)
  {
    hide CanonicalHex, CatalogFrame, HexCatalog;
    hasher := start + Word(g.segmentGeneration);
    hasher := hasher + Unhex(g.segmentContentHash);
    hasher := hasher + (Word(|d.segment|) + d.segment);
    hasher := hasher + Word(|g.catalog|);
    hasher := HashCatalog(hasher, g.catalog, d.peers);
    FiveParts(start, Word(g.segmentGeneration), Unhex(g.segmentContentHash), Prefixed(d.segment, 8),
              Word(|g.catalog|), CatalogFrame(g.catalog, d.peers));
  }

  method HashGenerations(start: seq<byte>, gs: seq<CompatibilityGeneration>, ds: seq<DecodedGeneration>)
    returns (hasher: seq<byte>)
    requires HexGenerations(gs)
    ensures hasher == start + GenerationsFrame(gs, ds)
  {
    hide HexGeneration, GenerationFrame;
    hasher := start;
    var i := 0;
    while i < |gs| && i < |ds|
      invariant i <= |gs| && i <= |ds|
      invariant hasher + GenerationsFrame(gs[i..], ds[i..]) == start + GenerationsFrame(gs, ds)
    {
      ghost var before := hasher;
      hasher := HashGeneration(hasher, gs[i], ds[i]);
      assert gs[i..][1..] == gs[i + 1..] && ds[i..][1..] == ds[i + 1..];
      Assoc(before, GenerationFrame(gs[i], ds[i]), GenerationsFrame(gs[i + 1..], ds[i + 1..]));
      i := i + 1;
    }
    assert hasher + [] == hasher;
  }

  method ConfigurationObjectsDigest(sha: seq<byte> -> Bytes32, c: Configuration, o: Objects) returns (digest: Bytes32)
    requires HexCatalog(c.catalog) && HexGenerations(c.compatibility)
    ensures digest == sha(ObjectsPreimage(c, o))
  {
    hide CanonicalHex, CatalogFrame, HexCatalog, GenerationsFrame, HexGenerations, Ascii;
    var domain := Ascii(OBJECTS_DOMAIN);
    var hasher := domain + (Word(|o.segment|) + o.segment);
    hasher := hasher + (Word(|o.projection|) + o.projection);
    hasher := hasher + Word(|c.catalog|);
    hasher := HashCatalog(hasher, c.catalog, o.peers);
    ghost var tail := Word(|c.compatibility|) + GenerationsFrame(c.compatibility, o.compatibility);
    ghost var catalog := CatalogFrame(c.catalog, o.peers);
    ghost var before := hasher;
    FiveParts(domain, Prefixed(o.segment, 8), Prefixed(o.projection, 8), Word(|c.catalog|), catalog, tail);
    hasher := hasher + Word(|c.compatibility|);
    hasher := HashGenerations(hasher, c.compatibility, o.compatibility);
    Assoc(before, Word(|c.compatibility|), GenerationsFrame(c.compatibility, o.compatibility));
    digest := sha(hasher);
  }

  method HashKey(start: seq<byte>, k: GrantKey) returns (hasher: seq<byte>)
    requires CanonicalHex(k.publicKey, 32)
    ensures hasher == start + KeyFrame(k)
  {
    hide CanonicalHex, Ascii;
    hasher := start + (Word(|k.keyId|) + Ascii(k.keyId));
    hasher := hasher + Unhex(k.publicKey);
    hasher := hasher + k.issuerId;
    hasher := hasher + k.environmentId;
    FourParts(start, Prefixed(Ascii(k.keyId), 8), Unhex(k.publicKey), k.issuerId, k.environmentId);
  }

  /** Gives up at the first key that is not canonical hexadecimal. */
  method HashKeys(start: seq<byte>, keys: seq<GrantKey>) returns (hasher: Option<seq<byte>>)
    ensures hasher == if HexKeys(keys) then Some(start + KeysFrame(keys)) else None
  {
    hide CanonicalHex, KeyFrame;
    var bytes := start;
    var i := 0;
    assert keys[0..] == keys;
    while i < |keys|
      invariant i <= |keys|
      invariant forall j :: 0 <= j < i ==> CanonicalHex(keys[j].publicKey, 32)
      invariant HexKeys(keys) ==> bytes + KeysFrame(keys[i..]) == start + KeysFrame(keys)
    {
      if !CanonicalHex(keys[i].publicKey, 32) {
        return None;
      }
      ghost var before := bytes;
      bytes := HashKey(bytes, keys[i]);
      if HexKeys(keys) {
        assert keys[i..][1..] == keys[i + 1..];
        Assoc(before, KeyFrame(keys[i]), KeysFrame(keys[i + 1..]));
      }
      i := i + 1;
    }
    assert bytes + [] == bytes;
    hasher := Some(bytes);
  }

  method ConfigurationDeliveryDigest(sha: seq<byte> -> Bytes32, c: Configuration, objectsHash: Bytes32)
    returns (digest: Result<string, ()>)
    ensures digest == if CanonicalHex(c.routePublicKey, 32) && HexKeys(c.grantKeys)
                      then Ok(Hex(sha(DeliveryPreimage(c, objectsHash)))) else Err(())
  {
    hide CanonicalHex, Ascii, Hex, HexKeys, KeysFrame;
    var domain := Ascii(DELIVERY_DOMAIN);
    var hasher := domain + objectsHash;
    hasher := hasher + Ascii(c.activationPhase);
    hasher := hasher + (Word(|c.routeKeyId|) + Ascii(c.routeKeyId));
    if !CanonicalHex(c.routePublicKey, 32) {
      return Err(());
    }
    hasher := hasher + Unhex(c.routePublicKey);
    ghost var upToKey := hasher;
    hasher := hasher + Word(|c.grantKeys|);
    var complete := HashKeys(hasher, c.grantKeys);
    if complete.None? {
      return Err(());
    }
    ghost var tail := Word(|c.grantKeys|) + KeysFrame(c.grantKeys);
    Assoc(upToKey, Word(|c.grantKeys|), KeysFrame(c.grantKeys));
    FiveParts(domain, objectsHash, Ascii(c.activationPhase), Prefixed(Ascii(c.routeKeyId), 8),
              Unhex(c.routePublicKey), tail);
    digest := Ok(Hex(sha(complete.value)));
  }

  lemma FourParts(a: seq<byte>, b: seq<byte>, c: seq<byte>, d: seq<byte>, e: seq<byte>)
    ensures (((a + b) + c) + d) + e == a + (b + (c + (d + e)))
  {
    Assoc((a + b) + c, d, e);
    Assoc(a + b, c, d + e);
    Assoc(a, b, c + (d + e));
  }
}
