/** Validation of a delivered configuration's catalogs. */
module Catalogs {
  import opened Bytes
  import opened Delivery
  import opened Sorting
  import opened Text
  import opened Wrappers

  const MAX_COMPATIBILITY_GENERATIONS: nat := 32
  const MAX_COMPATIBILITY_PROJECTIONS: nat := 4096
  const NIL: Bytes16 := [0, 0, 0, 0, 0, 0, 0, 0, 0, 0, 0, 0, 0, 0, 0, 0]

  /** The rank of (projection id, generation) in their lexicographic order. */
  function EntryRank(p: PeerProjection): nat {
    FromBigEndian(p.projectionId) * 0x1_0000_0000_0000_0000 + p.projectionGeneration
  }

  predicate ValidEntry(p: PeerProjection) {
    p.projectionId != NIL && p.projectionGeneration != 0 && CanonicalHex(p.projectionContentHash, 32)
  }

  /** Entries are well formed and strictly ordered. */
  predicate ValidCatalog(catalog: seq<PeerProjection>) {
    && (forall i :: 0 <= i < |catalog| ==> ValidEntry(catalog[i]))
    && (forall i :: 0 < i < |catalog| ==> EntryRank(catalog[i - 1]) < EntryRank(catalog[i]))
  }

  predicate AllZeros(s: string) {
    forall i :: 0 <= i < |s| ==> s[i] == '0'
  }

  /** One older generation, by itself. */
  predicate ValidGeneration(g: CompatibilityGeneration, current: u64) {
    && 0 < g.segmentGeneration < current
    && 1 <= |g.catalog| <= MAX_COMPATIBILITY_PROJECTIONS
    && CanonicalHex(g.segmentContentHash, 32) && !AllZeros(g.segmentContentHash)
    && ValidCatalog(g.catalog)
  }

  function Ids(catalog: seq<PeerProjection>): (ids: seq<Bytes16>)
    ensures |ids| == |catalog|
  {
    seq(|catalog|, i requires 0 <= i < |catalog| => catalog[i].projectionId)
  }

  /** The peers kept by all older generations, in order. */
  function RetainedIds(gs: seq<CompatibilityGeneration>): seq<Bytes16> {
    if gs == [] then [] else RetainedIds(gs[..|gs| - 1]) + Ids(gs[|gs| - 1].catalog)
  }

  /** Strictly increasing older generations; each retained peer kept once, never the local one; and
      the bounds on how much is kept. */
  predicate ValidCompatibility(c: Configuration) {
    var gs := c.compatibility;
    && |c.catalog| <= MAX_COMPATIBILITY_PROJECTIONS && |gs| <= MAX_COMPATIBILITY_GENERATIONS
    && (forall i :: 0 <= i < |gs| ==> ValidGeneration(gs[i], c.segmentGeneration))
    && (forall i :: 0 < i < |gs| ==> gs[i - 1].segmentGeneration < gs[i].segmentGeneration)
    && Distinct(RetainedIds(gs)) && c.projectionId !in RetainedIds(gs)
    && |RetainedIds(gs)| <= MAX_COMPATIBILITY_PROJECTIONS
    && |c.catalog| + |RetainedIds(gs)| <= 2 * MAX_COMPATIBILITY_PROJECTIONS
  }

  predicate ValidKey(k: GrantKey) {
    0 < |k.keyId| <= 64 && IsAscii(k.keyId) && k.issuerId != NIL && k.environmentId != NIL
    && CanonicalHex(k.publicKey, 32)
  }

  /** Keys are well formed and strictly ordered by id. */
  predicate ValidKeys(ks: seq<GrantKey>) {
    && (forall i :: 0 <= i < |ks| ==> ValidKey(ks[i]))
    && forall i :: 0 < i < |ks| ==> Less(ks[i - 1].keyId, ks[i].keyId)
  }

  predicate ValidConfiguration(c: Configuration) {
    && c.schemaVersion == 1 && c.activationPhase in ["prepare", "commit"]
    && c.publicationId != NIL && c.projectionId != NIL && c.segmentId != NIL && c.attachmentId != NIL
    && c.segmentGeneration != 0 && c.projectionGeneration != 0
    && 0 < |c.routeKeyId| <= 64 && IsAscii(c.routeKeyId) && |c.catalog| <= 4096 && |c.grantKeys| <= 8
    && CanonicalHex(c.projectionContentHash, 32) && CanonicalHex(c.routePublicKey, 32)
    && ValidCatalog(c.catalog) && ValidCompatibility(c)
    && ValidKeys(c.grantKeys)
  }

  // ---- the checks as the code runs them ----

  method ValidateCatalog(catalog: seq<PeerProjection>) returns (ok: bool)
    ensures ok <==> ValidCatalog(catalog)
  {
    hide CanonicalHex, EntryRank;
    var previous: Option<nat> := None;
    for i := 0 to |catalog|
      invariant forall j :: 0 <= j < i ==> ValidEntry(catalog[j])
      invariant forall j :: 0 < j < i ==> EntryRank(catalog[j - 1]) < EntryRank(catalog[j])
      invariant previous == if i == 0 then None else Some(EntryRank(catalog[i - 1]))
    {
      var projection := catalog[i];
      if projection.projectionId == NIL || projection.projectionGeneration == 0 {
        return false;
      }
      if !CanonicalHex(projection.projectionContentHash, 32) {
        return false;
      }
      var current := EntryRank(projection);
      if previous.Some? && previous.value >= current {
        return false;
      }
      previous := Some(current);
    }
    ok := true;
  }

  method ValidateGrantVerificationKeys(ks: seq<GrantKey>) returns (ok: bool)
    ensures ok <==> ValidKeys(ks)
  {
    hide CanonicalHex, Less, IsAscii;
    var previous: Option<string> := None;
    for i := 0 to |ks|
      invariant forall j :: 0 <= j < i ==> ValidKey(ks[j])
      invariant forall j :: 0 < j < i ==> Less(ks[j - 1].keyId, ks[j].keyId)
      invariant previous == if i == 0 then None else Some(ks[i - 1].keyId)
    {
      var key := ks[i];
      if key.keyId == "" || |key.keyId| > 64 || !IsAscii(key.keyId) || (previous.Some? && !Less(previous.value, key.keyId))
         || key.issuerId == NIL || key.environmentId == NIL
      {
        return false;
      }
      if !CanonicalHex(key.publicKey, 32) {
        return false;
      }
      previous := Some(key.keyId);
    }
    ok := true;
  }

  ghost predicate Holds(retained: set<Bytes16>, ids: seq<Bytes16>) {
    && Distinct(ids) && |retained| == |ids|
    && forall id :: id in retained <==> id in ids
  }

  /** Adds a catalog's peers to the retained ones; fails on the local projection and on a repetition. */
  method RetainPeers(local: Bytes16, catalog: seq<PeerProjection>, retained: set<Bytes16>, ghost ids: seq<Bytes16>)
    returns (ok: bool, all: set<Bytes16>)
    requires Holds(retained, ids) && local !in ids
    ensures ok <==> Distinct(ids + Ids(catalog)) && local !in ids + Ids(catalog)
    ensures ok ==> Holds(all, ids + Ids(catalog))
  {
    all := retained;
    ghost var seen := ids;
    assert ids + Ids(catalog)[..0] == ids;
    for i := 0 to |catalog|
      invariant seen == ids + Ids(catalog)[..i]
      invariant Holds(all, seen) && local !in seen
    {
      var id := catalog[i].projectionId;
      ghost var next := ids + Ids(catalog)[..i + 1];
      assert next == seen + [id];
      if id == local || id in all {
        ghost var whole := ids + Ids(catalog);
        assert whole[|seen|] == id && forall k :: 0 <= k < |seen| ==> whole[k] == seen[k];
        if id != local {
          assert id in seen;
        } else {
          assert local in whole;
        }
        return false, all;
      }
      assert next[|seen|] == id;
      all := all + {id};
      seen := next;
    }
    assert Ids(catalog)[..|catalog|] == Ids(catalog);
    ok := true;
  }

  lemma RetainedOneMore(gs: seq<CompatibilityGeneration>, i: nat)
    requires i < |gs|
    ensures RetainedIds(gs[..i + 1]) == RetainedIds(gs[..i]) + Ids(gs[i].catalog)
  {
    assert gs[..i + 1][..i] == gs[..i];
  }

  /** What is retained by the first generations is retained by all of them. */
  lemma {:induction false} RetainedGrows(gs: seq<CompatibilityGeneration>, i: nat)
    requires i <= |gs|
    ensures RetainedIds(gs[..i]) <= RetainedIds(gs)
    decreases |gs| - i
  {
    if i < |gs| {
      RetainedOneMore(gs, i);
      RetainedGrows(gs, i + 1);
    } else {
      assert gs[..i] == gs;
    }
  }

  lemma PrefixOfDistinct(a: seq<Bytes16>, b: seq<Bytes16>, x: Bytes16)
    requires a <= b && Distinct(b) && x !in b
    ensures Distinct(a) && x !in a
  {
  }

  method ValidateCompatibilityGenerations(c: Configuration) returns (ok: bool)
    ensures ok <==> ValidCompatibility(c)
  {
    hide CanonicalHex, ValidCatalog, AllZeros, Distinct, Holds, RetainedIds;
    var gs := c.compatibility;
    if |c.catalog| > MAX_COMPATIBILITY_PROJECTIONS || |gs| > MAX_COMPATIBILITY_GENERATIONS {
      return false;
    }
    var previous := 0;
    var retained: set<Bytes16> := {};
    NothingRetained(c.projectionId);
    assert gs[..0] == [];
    for i := 0 to |gs|
      invariant forall j :: 0 <= j < i ==> ValidGeneration(gs[j], c.segmentGeneration)
      invariant forall j :: 0 < j < i ==> gs[j - 1].segmentGeneration < gs[j].segmentGeneration
      invariant previous == if i == 0 then 0 else gs[i - 1].segmentGeneration
      invariant Holds(retained, RetainedIds(gs[..i])) && c.projectionId !in RetainedIds(gs[..i])
      invariant |RetainedIds(gs[..i])| <= MAX_COMPATIBILITY_PROJECTIONS
    {
      var generation := gs[i];
      if generation.segmentGeneration <= previous || generation.segmentGeneration >= c.segmentGeneration
         || generation.catalog == [] || |generation.catalog| > MAX_COMPATIBILITY_PROJECTIONS
      {
        return false;
      }
      if !CanonicalHex(generation.segmentContentHash, 32) {
        return false;
      }
      if AllZeros(generation.segmentContentHash) {
        return false;
      }
      var ordered := ValidateCatalog(generation.catalog);
      if !ordered {
        return false;
      }
      previous := generation.segmentGeneration;
      RetainedOneMore(gs, i);
      RetainedGrows(gs, i + 1);
      var kept, all := RetainPeers(c.projectionId, generation.catalog, retained, RetainedIds(gs[..i]));
      if !kept {
        RefusedForGood(c, i + 1);
        return false;
      }
      retained := all;
      HoldsCounts(retained, RetainedIds(gs[..i + 1]));
      if |retained| > MAX_COMPATIBILITY_PROJECTIONS
         || |c.catalog| + |retained| > MAX_COMPATIBILITY_PROJECTIONS * 2
      {
        return false;
      }
    }
    assert gs[..|gs|] == gs;
    HoldsCounts(retained, RetainedIds(gs));
    ok := true;
  }

  lemma NothingRetained(local: Bytes16)
    ensures RetainedIds([]) == [] && Holds({}, []) && local !in RetainedIds([])
  {
  }

  lemma HoldsCounts(retained: set<Bytes16>, ids: seq<Bytes16>)
    requires Holds(retained, ids)
    ensures |retained| == |ids| && Distinct(ids)
  {
  }

  /** A repetition among the first generations is a repetition among all. */
  lemma RefusedForGood(c: Configuration, i: nat)
    requires i <= |c.compatibility|
    requires !(Distinct(RetainedIds(c.compatibility[..i])) && c.projectionId !in RetainedIds(c.compatibility[..i]))
    ensures !ValidCompatibility(c)
  {
    hide ValidGeneration, RetainedIds;
    RetainedGrows(c.compatibility, i);
    if Distinct(RetainedIds(c.compatibility)) && c.projectionId !in RetainedIds(c.compatibility) {
      PrefixOfDistinct(RetainedIds(c.compatibility[..i]), RetainedIds(c.compatibility), c.projectionId);
    }
  }
}
