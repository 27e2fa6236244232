/** How a declaration is checked: the sweep over sorted address ranges that looks for overlaps, and the
    whole check around it. */
module DeclarationCheck {
  import opened Bytes
  import opened Netd
  import opened NetdProto
  import opened Sorting
  import opened Wrappers

  /** The addresses of a prefix, both ends included. */
  datatype Range = Range(start: nat, end: nat)

  predicate Proper(r: Range) {
    r.start <= r.end < 0x1_0000_0000
  }

  /** The derived order on (start, end), for addresses. */
  function RangeRank(r: Range): nat {
    r.start * 0x1_0000_0000 + r.end
  }

  predicate Apart(a: Range, b: Range) {
    a.end < b.start || b.end < a.start
  }

  lemma {:induction false} PowersMultiply(a: nat, b: nat)
    ensures Pow2(a) * Pow2(b) == Pow2(a + b)
  {
    if a > 0 {
      PowersMultiply(a - 1, b);
      assert Pow2(a) * Pow2(b) == 2 * (Pow2(a - 1) * Pow2(b));
    }
  }

  lemma BlockFits(first: nat, size: nat, blocks: nat)
    requires size > 0 && first < size * blocks
    ensures first <= first - first % size + size - 1 < size * blocks
  {
    var k := first / size;
    assert first == size * k + first % size;
    if k >= blocks {
      TimesGrows(size, blocks, k);
    }
    TimesGrows(size, k + 1, blocks);
  }

  lemma TimesGrows(size: nat, a: nat, b: nat)
    ensures a <= b ==> size * a <= size * b
  {
    if a <= b {
      assert size * b == size * a + size * (b - a);
    }
  }

  lemma PrefixRange(p: Ipv4Prefix)
    requires p.prefixLen <= 32
    ensures FirstAddress(p) <= LastAddress(p) < 0x1_0000_0000
  {
    hide FromBigEndian, Pow2;
    Widths();
    PowersMultiply(32 - p.prefixLen as int, p.prefixLen as int);
    AddressCount();
    BlockFits(FirstAddress(p), Size(p), Pow2(p.prefixLen as int));
  }

  lemma AddressCount()
    ensures Pow2(32) == 0x1_0000_0000
  {
    PowersMultiply(16, 16);
    assert Pow2(8) == 256;
    PowersMultiply(8, 8);
  }

  function RangeOf(p: Ipv4Prefix): (r: Range)
    requires p.prefixLen <= 32
    ensures Proper(r)
  {
    PrefixRange(p);
    Range(FirstAddress(p), LastAddress(p))
  }

  predicate Bounded(ps: seq<Ipv4Prefix>) {
    forall i :: 0 <= i < |ps| ==> ps[i].prefixLen <= 32
  }

  /** No two prefixes of the list share an address. */
  predicate AllApart(ps: seq<Ipv4Prefix>)
    requires Bounded(ps)
  {
    forall i, j :: 0 <= i < j < |ps| ==> !RangesMeet(ps[i], ps[j])
  }

  predicate AreRanges(ps: seq<Ipv4Prefix>, rs: seq<Range>)
    requires Bounded(ps)
  {
    |rs| == |ps| && forall i :: 0 <= i < |ps| ==> rs[i] == RangeOf(ps[i])
  }

  lemma RangesApart(ps: seq<Ipv4Prefix>, rs: seq<Range>)
    requires Bounded(ps) && AreRanges(ps, rs)
    ensures AllApart(ps) <==> Pairwise(Apart, rs)
  {
    hide FirstAddress, LastAddress;
    forall i, j | 0 <= i < j < |ps| ensures !RangesMeet(ps[i], ps[j]) <==> Apart(rs[i], rs[j]) {
    }
  }

  /** Sorting does not change whether all ranges are apart. */
  lemma SortedApart(rs: seq<Range>)
    ensures Pairwise(Apart, StableSorted(rs, RangeRank)) <==> Pairwise(Apart, rs)
  {
    hide StableSorted;
    StableSortedPairwise(Apart, rs, RangeRank);
  }

  lemma SortedStarts(rs: seq<Range>, i: nat)
    requires Every(Proper, rs) && InOrder(rs, RangeRank) && 0 < i < |rs|
    ensures rs[i - 1].start <= rs[i].start
  {
    assert Proper(rs[i - 1]) && Proper(rs[i]);
    assert RangeRank(rs[i - 1]) <= RangeRank(rs[i]);
  }

  /** One range more, beginning behind the furthest end, stays apart from all before it. */
  lemma StaysApart(rs: seq<Range>, i: nat)
    requires Every(Proper, rs) && 0 < i < |rs| && Pairwise(Apart, rs[..i]) && InOrder(rs, RangeRank)
    requires rs[i - 1].end < rs[i].start
    ensures Pairwise(Apart, rs[..i + 1])
  {
    hide InOrder;
    var before := rs[..i];
    forall j | 0 <= j < i ensures Apart(before[j], rs[i]) {
      if j < i - 1 {
        StartsAscend(rs, j, i - 1);
        assert Apart(before[j], before[i - 1]);
        assert Proper(rs[j]) && Proper(rs[i - 1]);
      }
    }
    OneMorePairwise(Apart, before, rs[i]);
    assert rs[..i + 1] == before + [rs[i]];
  }

  lemma {:induction false} StartsAscend(rs: seq<Range>, j: nat, i: nat)
    requires Every(Proper, rs) && InOrder(rs, RangeRank) && j <= i < |rs|
    ensures rs[j].start <= rs[i].start
    decreases i
  {
    if j < i {
      StartsAscend(rs, j, i - 1);
      SortedStarts(rs, i);
    }
  }

  /** Sorts the ranges and compares each with the one before it only. */
  method HasPrefixOverlap(ps: seq<Ipv4Prefix>) returns (overlap: bool)
    requires Bounded(ps)
    ensures overlap <==> !AllApart(ps)
  {
    hide RangeOf, StableSorted, AllApart, RangeRank;
    var ranges: seq<Range> := [];
    for i := 0 to |ps|
      invariant |ranges| == i && forall k :: 0 <= k < i ==> ranges[k] == RangeOf(ps[k])
    {
      ranges := ranges + [RangeOf(ps[i])];
    }
    RangesApart(ps, ranges);
    SortedApart(ranges);
    SameMembers(StableSorted(ranges, RangeRank), ranges, Proper);
    StableSortedInOrder(ranges, RangeRank);
    ranges := StableSort(ranges, RangeRank);
    var furthestEnd: Option<nat> := None;
    for i := 0 to |ranges|
      invariant furthestEnd == if i == 0 then None else Some(ranges[i - 1].end)
      invariant Pairwise(Apart, ranges[..i])
    {
      if i > 0 {
        SortedStarts(ranges, i);
      }
      if furthestEnd.Some? && ranges[i].start <= furthestEnd.value {
        assert Proper(ranges[i]) && !Apart(ranges[i - 1], ranges[i]);
        return true;
      }
      if i > 0 {
        StaysApart(ranges, i);
      }
      furthestEnd := Some(ranges[i].end);
    }
    assert ranges[..|ranges|] == ranges;
    overlap := false;
  }

  // ---- the whole check ----

  predicate Owned(r: RouteDeclaration) {
    !r.kind.RemoteEgress?
  }

  /** The prefixes that must not overlap: all but the remote-egress ones. */
  function OwnedPrefixes(rs: seq<RouteDeclaration>): seq<Ipv4Prefix> {
    if rs == [] then [] else
      OwnedPrefixes(rs[..|rs| - 1]) + if Owned(rs[|rs| - 1]) then [rs[|rs| - 1].prefix] else []
  }

  /** Two routes that do not clash. */
  predicate RoutesApart(a: RouteDeclaration, b: RouteDeclaration) {
    Owned(a) && Owned(b) ==> PrefixesApart(a.prefix, b.prefix)
  }

  predicate PrefixesApart(p: Ipv4Prefix, q: Ipv4Prefix) {
    p.prefixLen <= 32 && q.prefixLen <= 32 && !RangesMeet(p, q)
  }

  lemma {:induction false} OwnedEvery(rs: seq<RouteDeclaration>, holds: Ipv4Prefix -> bool)
    ensures Every(holds, OwnedPrefixes(rs)) <==> Every((r: RouteDeclaration) => Owned(r) ==> holds(r.prefix), rs)
  {
    hide Every;
    var fits := (r: RouteDeclaration) => Owned(r) ==> holds(r.prefix);
    if rs == [] {
      NothingEvery(holds);
      NothingEvery(fits);
    } else {
      var init, last := rs[..|rs| - 1], rs[|rs| - 1];
      OwnedEvery(init, holds);
      assert rs == init + [last];
      OneMoreEvery(fits, init, last);
      OneMoreEvery(holds, OwnedPrefixes(init), last.prefix);
      assert OwnedPrefixes(init) + [] == OwnedPrefixes(init);
    }
  }

  lemma NothingEvery<T>(holds: T -> bool)
    ensures Every(holds, [])
  {
  }

  lemma {:induction false} OwnedPairwise(rs: seq<RouteDeclaration>)
    ensures Pairwise(PrefixesApart, OwnedPrefixes(rs)) <==> Pairwise(RoutesApart, rs)
  {
    hide Pairwise, PrefixesApart;
    if rs == [] {
      NothingPairwise(PrefixesApart);
      NothingPairwise(RoutesApart);
    } else {
      var init, last := rs[..|rs| - 1], rs[|rs| - 1];
      OwnedPairwise(init);
      assert rs == init + [last];
      OneMorePairwise(RoutesApart, init, last);
      if Owned(last) {
        OneMorePairwise(PrefixesApart, OwnedPrefixes(init), last.prefix);
        OwnedEvery(init, p => PrefixesApart(p, last.prefix));
        EverySame(r => RoutesApart(r, last), r => Owned(r) ==> PrefixesApart(r.prefix, last.prefix), init);
      } else {
        assert OwnedPrefixes(init) + [] == OwnedPrefixes(init);
        Trivially((r: RouteDeclaration) => RoutesApart(r, last), init);
      }
    }
  }

  lemma {:induction false} Trivially<T>(holds: T -> bool, xs: seq<T>)
    requires forall x :: holds(x)
    ensures Every(holds, xs)
  {
  }

  lemma {:induction false} OwnedBounded(rs: seq<RouteDeclaration>)
    requires forall i :: 0 <= i < |rs| ==> rs[i].prefix.prefixLen <= 32
    ensures Bounded(OwnedPrefixes(rs))
    ensures AllApart(OwnedPrefixes(rs)) <==>
            forall i, j :: 0 <= i < j < |rs| && Owned(rs[i]) && Owned(rs[j]) ==> !RangesMeet(rs[i].prefix, rs[j].prefix)
  {
    hide RangesMeet;
    OwnedEvery(rs, (p: Ipv4Prefix) => p.prefixLen <= 32);
    OwnedPairwise(rs);
    var ps := OwnedPrefixes(rs);
    assert Bounded(ps);
    assert AllApart(ps) <==> Pairwise(PrefixesApart, ps);
    forall i, j | 0 <= i < j < |rs|
      ensures RoutesApart(rs[i], rs[j]) <==> (Owned(rs[i]) && Owned(rs[j]) ==> !RangesMeet(rs[i].prefix, rs[j].prefix))
    {
    }
  }

  function Excluded(d: PrepareDeclaration): seq<Ipv4Prefix> {
    Mapped((x: UnderlayExclusion) => x.prefix, d.exclusions)
  }

  /** `PrepareDeclaration::validate`, sweep included, accepts exactly the valid declarations. */
  method ValidateDeclaration(d: PrepareDeclaration) returns (ok: bool)
    ensures ok <==> DeclarationValid(d)
  {
    hide RangesMeet, Contains, Ordered, OwnedPrefixes;
    if !(20_000 <= d.tableId <= 20_999) || !(576 <= d.effectiveMtu <= 1400) || d.routes == [] || |d.routes| > MAX_ROUTES
       || d.exclusions == [] || |d.exclusions| > MAX_EXCLUSIONS || !BoundedLengths(d)
    {
      return false;
    }
    var sorted := StrictlySorted(d);
    if !sorted
       || (exists i :: 0 <= i < |d.routes| && d.routes[i].prefix.prefixLen == 0 && Owned(d.routes[i]))
       || (exists i :: 0 <= i < |d.exclusions| && d.exclusions[i].prefix.prefixLen == 0)
    {
      return false;
    }
    OwnedBounded(d.routes);
    var routesOverlap := HasPrefixOverlap(OwnedPrefixes(d.routes));
    if routesOverlap {
      return false;
    }
    assert Bounded(Excluded(d));
    var exclusionsOverlap := HasPrefixOverlap(Excluded(d));
    if exclusionsOverlap {
      return false;
    }
    assert forall i, j :: 0 <= i < j < |d.exclusions| ==> !RangesMeet(Excluded(d)[i], Excluded(d)[j]);
    ok := Clear(d) && d.overlayRouterIpv4 != [0, 0, 0, 0] && d.overlayRouterIpv4[0] < 224;
  }

  /** Routes stay clear of exclusions, and both of the overlay address. */
  predicate Clear(d: PrepareDeclaration)
    requires BoundedLengths(d)
  {
    && (forall i, j :: 0 <= i < |d.routes| && 0 <= j < |d.exclusions| && Owned(d.routes[i]) ==>
          !Contains(d.routes[i].prefix, FirstAddress(d.exclusions[j].prefix))
          && !Contains(d.exclusions[j].prefix, FirstAddress(d.routes[i].prefix)))
    && (forall i :: 0 <= i < |d.routes| && Owned(d.routes[i]) ==>
          !Contains(d.routes[i].prefix, FromBigEndian(d.overlayRouterIpv4)))
    && (forall i :: 0 <= i < |d.exclusions| ==> !Contains(d.exclusions[i].prefix, FromBigEndian(d.overlayRouterIpv4)))
  }

  /** `strictly_sorted_by` on routes and on exclusions. */
  method StrictlySorted(d: PrepareDeclaration) returns (sorted: bool)
    ensures sorted <==>
            && (forall i :: 0 < i < |d.routes| ==>
                  Ordered(d.routes[i - 1].prefix, RouteTag(d.routes[i - 1].kind),
                          d.routes[i].prefix, RouteTag(d.routes[i].kind)))
            && (forall i :: 0 < i < |d.exclusions| ==>
                  Ordered(d.exclusions[i - 1].prefix, UnderlayTag(d.exclusions[i - 1].kind),
                          d.exclusions[i].prefix, UnderlayTag(d.exclusions[i].kind)))
  {
    hide Ordered;
    for k := 0 to |d.routes|
      invariant forall i :: 0 < i < k ==>
        Ordered(d.routes[i - 1].prefix, RouteTag(d.routes[i - 1].kind), d.routes[i].prefix, RouteTag(d.routes[i].kind))
    {
      if k > 0 && !Ordered(d.routes[k - 1].prefix, RouteTag(d.routes[k - 1].kind), d.routes[k].prefix, RouteTag(d.routes[k].kind)) {
        return false;
      }
    }
    for k := 0 to |d.exclusions|
      invariant forall i :: 0 < i < k ==>
        Ordered(d.exclusions[i - 1].prefix, UnderlayTag(d.exclusions[i - 1].kind),
                d.exclusions[i].prefix, UnderlayTag(d.exclusions[i].kind))
    {
      if k > 0 && !Ordered(d.exclusions[k - 1].prefix, UnderlayTag(d.exclusions[k - 1].kind), d.exclusions[k].prefix, UnderlayTag(d.exclusions[k].kind)) {
        return false;
      }
    }
    sorted := true;
  }
}
