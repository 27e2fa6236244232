/** Which configurations are valid, condition by condition, and that their lists can be written in one way only. */
module CatalogOutcomes {
  import opened Bytes
  import opened Catalogs
  import opened Delivery
  import opened Sorting
  import opened Text
  import opened Wrappers

  // ---- order ----

  /** By projection id, and under one id by generation. */
  ghost predicate Before(p: PeerProjection, q: PeerProjection) {
    || Precedes(p.projectionId, q.projectionId)
    || (p.projectionId == q.projectionId && p.projectionGeneration < q.projectionGeneration)
  }

  lemma RanksInOrder(p: PeerProjection, q: PeerProjection)
    ensures EntryRank(p) < EntryRank(q) <==> Before(p, q)
  {
    hide FromBigEndian, Precedes;
    BigEndianOrder(p.projectionId, q.projectionId);
    FromBigEndianRoundTrip(p.projectionId);
    FromBigEndianRoundTrip(q.projectionId);
  }

  lemma {:induction false} Pairwise(catalog: seq<PeerProjection>, i: nat, j: nat)
    requires i < j < |catalog|
    requires forall k :: 0 < k < |catalog| ==> EntryRank(catalog[k - 1]) < EntryRank(catalog[k])
    ensures EntryRank(catalog[i]) < EntryRank(catalog[j])
  {
    hide EntryRank;
    if i < j - 1 {
      Pairwise(catalog, i, j - 1);
    }
    assert EntryRank(catalog[j - 1]) < EntryRank(catalog[j]);
  }

  lemma {:induction false} KeysPairwise(ks: seq<GrantKey>, i: nat, j: nat)
    requires i < j < |ks|
    requires forall k :: 0 < k < |ks| ==> Less(ks[k - 1].keyId, ks[k].keyId)
    ensures Less(ks[i].keyId, ks[j].keyId)
  {
    hide Less;
    assert Less(ks[j - 1].keyId, ks[j].keyId);
    if i < j - 1 {
      KeysPairwise(ks, i, j - 1);
      LessInTurn(ks[i].keyId, ks[j - 1].keyId, ks[j].keyId);
    }
  }

  /** Two ordered catalogs with the same entries are the same list. */
  lemma {:induction false} OneCatalog(a: seq<PeerProjection>, b: seq<PeerProjection>)
    requires ValidCatalog(a) && ValidCatalog(b)
    requires forall p :: p in a <==> p in b
    ensures a == b
  {
    hide ValidCatalog;
    assert a != [] ==> a[0] in b;
    assert b != [] ==> b[0] in a;
    if a != [] {
      var m, n := |a| - 1, |b| - 1;
      SameLast(a, b);
      var p, q := a[..m], b[..n];
      InitIsValid(a);
      InitIsValid(b);
      forall x ensures x in p <==> x in q {
        InInit(a, x);
        InInit(b, x);
      }
      OneCatalog(p, q);
      assert a == p + [a[m]] && b == q + [b[n]];
    }
  }

  lemma InitIsValid(a: seq<PeerProjection>)
    requires ValidCatalog(a) && a != []
    ensures ValidCatalog(a[..|a| - 1])
  {
    hide EntryRank, ValidEntry;
  }

  lemma {:induction false} SameLast(a: seq<PeerProjection>, b: seq<PeerProjection>)
    requires ValidCatalog(a) && ValidCatalog(b) && a != [] && b != []
    requires forall p :: p in a <==> p in b
    ensures a[|a| - 1] == b[|b| - 1]
  {
    hide EntryRank, ValidEntry;
    var x, y := a[|a| - 1], b[|b| - 1];
    assert x in a && y in b;
    var i :| 0 <= i < |b| && b[i] == x;
    var j :| 0 <= j < |a| && a[j] == y;
    if i < |b| - 1 {
      Pairwise(b, i, |b| - 1);
    }
    if j < |a| - 1 {
      Pairwise(a, j, |a| - 1);
    }
  }

  lemma {:induction false} InInit(a: seq<PeerProjection>, x: PeerProjection)
    requires ValidCatalog(a) && a != []
    ensures x in a[..|a| - 1] <==> x in a && x != a[|a| - 1]
  {
    hide EntryRank, ValidEntry;
    if x in a[..|a| - 1] {
      var i :| 0 <= i < |a| - 1 && a[i] == x;
      Pairwise(a, i, |a| - 1);
    }
  }

  // ---- older generations ----

  /** How many peers are kept for older generations. */
  function Peers(gs: seq<CompatibilityGeneration>): nat {
    if gs == [] then 0 else Peers(gs[..|gs| - 1]) + |gs[|gs| - 1].catalog|
  }

  /** This peer is kept, for this generation and at this place. */
  predicate KeptAt(gs: seq<CompatibilityGeneration>, id: Bytes16, g: int, i: int) {
    0 <= g < |gs| && 0 <= i < |gs[g].catalog| && gs[g].catalog[i].projectionId == id
  }

  /** Nobody is kept at two places. */
  ghost predicate KeptOnce(gs: seq<CompatibilityGeneration>) {
    forall id, g, i, h, j :: KeptAt(gs, id, g, i) && KeptAt(gs, id, h, j) ==> g == h && i == j
  }

  lemma {:induction false} RetainedAre(gs: seq<CompatibilityGeneration>, id: Bytes16)
    ensures |RetainedIds(gs)| == Peers(gs)
    ensures id in RetainedIds(gs) <==> exists g, i :: KeptAt(gs, id, g, i)
  {
    if gs != [] {
      var n := |gs| - 1;
      var init, ids := gs[..n], Ids(gs[n].catalog);
      RetainedAre(init, id);
      if id in RetainedIds(init) {
        var g, i :| KeptAt(init, id, g, i);
        assert KeptAt(gs, id, g, i);
      }
      if id in ids {
        var i :| 0 <= i < |ids| && ids[i] == id;
        assert KeptAt(gs, id, n, i);
      }
      if g, i :| KeptAt(gs, id, g, i) {
        if g < n {
          assert KeptAt(init, id, g, i);
        } else {
          assert ids[i] == id;
        }
      }
    }
  }

  lemma {:induction false} OnceExactly(gs: seq<CompatibilityGeneration>)
    ensures Distinct(RetainedIds(gs)) <==> KeptOnce(gs)
  {
    hide KeptOnce;
    if gs == [] {
      assert KeptOnce(gs) by { NobodyKept(gs); }
    } else {
      var n := |gs| - 1;
      var init, ids := gs[..n], Ids(gs[n].catalog);
      OnceExactly(init);
      DistinctParts(RetainedIds(init), ids);
      OnceParts(gs);
    }
  }

  lemma NobodyKept(gs: seq<CompatibilityGeneration>)
    requires gs == []
    ensures KeptOnce(gs)
  {
  }

  lemma DistinctParts<T>(a: seq<T>, b: seq<T>)
    ensures Distinct(a + b) <==> Distinct(a) && Distinct(b) && forall x :: x in a ==> x !in b
  {
    var c := a + b;
    assert forall i :: 0 <= i < |a| ==> c[i] == a[i];
    assert forall i :: 0 <= i < |b| ==> c[|a| + i] == b[i];
    if Distinct(a) && Distinct(b) && forall x :: x in a ==> x !in b {
      forall i, j | 0 <= i < j < |c| ensures c[i] != c[j] {
        assert i < |a| ==> c[i] in a;
        assert j >= |a| ==> c[j] in b;
      }
    }
    if Distinct(c) {
      forall i, j | 0 <= i < j < |a| ensures a[i] != a[j] {
        assert c[i] != c[j];
      }
      forall i, j | 0 <= i < j < |b| ensures b[i] != b[j] {
        assert c[|a| + i] != c[|a| + j];
      }
      forall i, j | 0 <= i < |a| && 0 <= j < |b| ensures a[i] != b[j] {
        assert c[i] != c[|a| + j];
      }
    }
  }

  lemma LastHas(gs: seq<CompatibilityGeneration>, id: Bytes16)
    requires gs != []
    ensures var n := |gs| - 1; id in Ids(gs[n].catalog) ==> exists i :: KeptAt(gs, id, n, i)
  {
    var ids := Ids(gs[|gs| - 1].catalog);
    if id in ids {
      var i :| 0 <= i < |ids| && ids[i] == id;
      assert KeptAt(gs, id, |gs| - 1, i);
    }
  }

  lemma {:induction false} OnceParts(gs: seq<CompatibilityGeneration>)
    requires gs != []
    ensures var n := |gs| - 1; var init, ids := gs[..n], Ids(gs[n].catalog);
            KeptOnce(gs) <==> KeptOnce(init) && Distinct(ids) && forall x :: x in RetainedIds(init) ==> x !in ids
  {
    hide RetainedIds;
    var n := |gs| - 1;
    var init, ids := gs[..n], Ids(gs[n].catalog);
    assert forall id, g, i :: KeptAt(gs, id, g, i) && g < n ==> KeptAt(init, id, g, i);
    assert forall id, g, i :: KeptAt(init, id, g, i) ==> KeptAt(gs, id, g, i);
    assert forall id, i :: KeptAt(gs, id, n, i) <==> 0 <= i < |ids| && ids[i] == id;
    if KeptOnce(gs) {
      forall x | x in RetainedIds(init) ensures x !in ids {
        RetainedAre(init, x);
        var g, i :| KeptAt(init, x, g, i);
        assert KeptAt(gs, x, g, i) && g < n;
        LastHas(gs, x);
      }
      forall i, j | 0 <= i < j < |ids| ensures ids[i] != ids[j] {
        assert KeptAt(gs, ids[i], n, i) && KeptAt(gs, ids[j], n, j);
      }
    }
    if KeptOnce(init) && Distinct(ids) && forall x :: x in RetainedIds(init) ==> x !in ids {
      forall id, g, i, h, j | KeptAt(gs, id, g, i) && KeptAt(gs, id, h, j) ensures g == h && i == j {
        RetainedAre(init, id);
        assert g < n ==> KeptAt(init, id, g, i);
        assert h < n ==> KeptAt(init, id, h, j);
        assert g == n ==> ids[i] == id;
        assert h == n ==> ids[j] == id;
      }
    }
  }

  // ---- the whole configuration ----

  predicate HexDigest(s: string) {
    |s| == 64 && forall i :: 0 <= i < 64 ==> s[i] in "0123456789abcdef"
  }

  predicate Named(id: Bytes16) {
    exists i :: 0 <= i < 16 && id[i] != 0
  }

  predicate KeyName(s: string) {
    1 <= |s| <= 64 && forall i :: 0 <= i < |s| ==> s[i] as int <= 127
  }

  ghost predicate InOrder(catalog: seq<PeerProjection>) {
    forall i, j :: 0 <= i < j < |catalog| ==> Before(catalog[i], catalog[j])
  }

  lemma CatalogExactly(catalog: seq<PeerProjection>)
    ensures ValidCatalog(catalog) <==>
            && InOrder(catalog)
            && forall i :: 0 <= i < |catalog| ==>
                 && Named(catalog[i].projectionId) && catalog[i].projectionGeneration > 0
                 && HexDigest(catalog[i].projectionContentHash)
  {
    hide EntryRank, Before, Named, HexDigest, CanonicalHex;
    forall i | 0 <= i < |catalog| ensures ValidEntry(catalog[i]) <==>
        Named(catalog[i].projectionId) && catalog[i].projectionGeneration > 0 && HexDigest(catalog[i].projectionContentHash)
    {
      NilExactly(catalog[i].projectionId);
      HexExactly(catalog[i].projectionContentHash);
    }
    if forall i :: 0 < i < |catalog| ==> EntryRank(catalog[i - 1]) < EntryRank(catalog[i]) {
      forall i, j | 0 <= i < j < |catalog| ensures Before(catalog[i], catalog[j]) {
        Pairwise(catalog, i, j);
        RanksInOrder(catalog[i], catalog[j]);
      }
    }
    if InOrder(catalog) {
      forall i | 0 < i < |catalog| ensures EntryRank(catalog[i - 1]) < EntryRank(catalog[i]) {
        RanksInOrder(catalog[i - 1], catalog[i]);
      }
    }
  }

  lemma NilExactly(id: Bytes16)
    ensures id != NIL <==> Named(id)
  {
  }

  lemma HexExactly(s: string)
    ensures CanonicalHex(s, 32) <==> HexDigest(s)
  {
    assert forall c: char :: c in "0123456789abcdef" <==> '0' <= c <= '9' || 'a' <= c <= 'f';
  }

  /** Older generations are numbered upwards below the present one, none is empty, every peer is kept once and never
      the device itself, and all of it stays within the bounds. */
  lemma GenerationsExactly(c: Configuration)
    ensures var gs := c.compatibility;
            ValidCompatibility(c) <==>
            && |c.catalog| <= 4096 && |gs| <= 32 && Peers(gs) <= 4096
            && (forall g, h :: 0 <= g < h < |gs| ==> gs[g].segmentGeneration < gs[h].segmentGeneration)
            && (forall g :: 0 <= g < |gs| ==>
                  && 0 < gs[g].segmentGeneration < c.segmentGeneration && gs[g].catalog != []
                  && HexDigest(gs[g].segmentContentHash) && (exists i :: 0 <= i < 64 && gs[g].segmentContentHash[i] != '0')
                  && ValidCatalog(gs[g].catalog))
            && KeptOnce(gs) && forall g, i :: !KeptAt(gs, c.projectionId, g, i)
  {
    hide ValidCatalog, KeptOnce, KeptAt, HexDigest, CanonicalHex, Distinct, RetainedIds;
    var gs := c.compatibility;
    RetainedAre(gs, c.projectionId);
    OnceExactly(gs);
    forall g | 0 <= g < |gs| ensures |gs[g].catalog| <= Peers(gs) {
      PeersCount(gs, g);
    }
    forall g | 0 <= g < |gs| ensures CanonicalHex(gs[g].segmentContentHash, 32) <==> HexDigest(gs[g].segmentContentHash) {
      HexExactly(gs[g].segmentContentHash);
    }
    if forall g :: 0 < g < |gs| ==> gs[g - 1].segmentGeneration < gs[g].segmentGeneration {
      forall g, h | 0 <= g < h < |gs| ensures gs[g].segmentGeneration < gs[h].segmentGeneration {
        Upwards(gs, g, h);
      }
    }
  }

  lemma {:induction false} PeersCount(gs: seq<CompatibilityGeneration>, g: nat)
    requires g < |gs|
    ensures |gs[g].catalog| <= Peers(gs)
  {
    if g < |gs| - 1 {
      PeersCount(gs[..|gs| - 1], g);
    }
  }

  lemma {:induction false} Upwards(gs: seq<CompatibilityGeneration>, g: nat, h: nat)
    requires g < h < |gs|
    requires forall k :: 0 < k < |gs| ==> gs[k - 1].segmentGeneration < gs[k].segmentGeneration
    ensures gs[g].segmentGeneration < gs[h].segmentGeneration
  {
    if g < h - 1 {
      Upwards(gs, g, h - 1);
    }
    assert gs[h - 1].segmentGeneration < gs[h].segmentGeneration;
  }

  lemma KeysExactly(ks: seq<GrantKey>)
    ensures ValidKeys(ks) <==>
            && (forall i, j :: 0 <= i < j < |ks| ==> Less(ks[i].keyId, ks[j].keyId))
            && forall i :: 0 <= i < |ks| ==>
                 && KeyName(ks[i].keyId) && Named(ks[i].issuerId) && Named(ks[i].environmentId) && HexDigest(ks[i].publicKey)
  {
    hide Less, Named, HexDigest, CanonicalHex;
    forall i | 0 <= i < |ks| ensures ValidKey(ks[i]) <==>
        KeyName(ks[i].keyId) && Named(ks[i].issuerId) && Named(ks[i].environmentId) && HexDigest(ks[i].publicKey)
    {
      NilExactly(ks[i].issuerId);
      NilExactly(ks[i].environmentId);
      HexExactly(ks[i].publicKey);
      NameExactly(ks[i].keyId);
    }
    if forall i :: 0 < i < |ks| ==> Less(ks[i - 1].keyId, ks[i].keyId) {
      forall i, j | 0 <= i < j < |ks| ensures Less(ks[i].keyId, ks[j].keyId) {
        KeysPairwise(ks, i, j);
      }
    }
  }

  lemma NameExactly(s: string)
    ensures 0 < |s| <= 64 && IsAscii(s) <==> KeyName(s)
  {
  }

  /** What a configuration has to be besides the order of its lists. */
  lemma ConfigurationExactly(c: Configuration)
    ensures ValidConfiguration(c) <==>
            && c.schemaVersion == 1 && (c.activationPhase == "prepare" || c.activationPhase == "commit")
            && Named(c.publicationId) && Named(c.projectionId) && Named(c.segmentId) && Named(c.attachmentId)
            && c.segmentGeneration > 0 && c.projectionGeneration > 0 && KeyName(c.routeKeyId)
            && |c.catalog| <= 4096 && |c.grantKeys| <= 8
            && HexDigest(c.projectionContentHash) && HexDigest(c.routePublicKey)
            && ValidCatalog(c.catalog) && ValidCompatibility(c) && ValidKeys(c.grantKeys)
  {
    hide Named, HexDigest, CanonicalHex, KeyName, IsAscii, ValidCatalog, ValidCompatibility, ValidKeys;
    NilExactly(c.publicationId);
    NilExactly(c.projectionId);
    NilExactly(c.segmentId);
    NilExactly(c.attachmentId);
    NameExactly(c.routeKeyId);
    HexExactly(c.projectionContentHash);
    HexExactly(c.routePublicKey);
  }
}
