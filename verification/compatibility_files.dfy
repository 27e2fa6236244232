/** The directories that keep older signed generations next to the current one: written while staged,
    sealed read-only, verified, and named again by the rendered server configuration. */
module CompatibilityFiles {
  import opened Bytes
  import opened Catalogs
  import opened Delivery
  import opened DeliveryProofs
  import opened Sorting
  import opened Text
  import opened Wrappers

  type Mode = bv16

  const FILE_PRIVATE: Mode := 0x180
  const FILE_SEALED: Mode := 0x100
  const DIRECTORY_PRIVATE: Mode := 0x1C0
  const DIRECTORY_SEALED: Mode := 0x140

  /** Paths below the generation being published. The peer directory of a generation is `Peers`. */
  datatype Path =
    | Root
    | Generation(dir: string)
    | Segment(dir: string)
    | Peers(dir: string)
    | Peer(dir: string, file: string)

  datatype Node = Directory(mode: Mode) | File(content: seq<byte>, mode: Mode)

  type Nodes = map<Path, Node>

  datatype GenerationPaths = GenerationPaths(segmentGeneration: u64, segmentSnapshot: Path, peers: seq<Path>)

  // ---- names ----

  function DirectoryName(generation: u64): string {
    "generation-" + Decimal(generation)
  }

  function ProjectionName(entry: PeerProjection): string {
    Hex(entry.projectionId) + ("-" + (Decimal(entry.projectionGeneration) + ".projection"))
  }

  lemma DirectoryNameInjective(a: u64, b: u64)
    requires DirectoryName(a) == DirectoryName(b)
    ensures a == b
  {
    hide Decimal;
    assert DirectoryName(a)[11..] == Decimal(a) && DirectoryName(b)[11..] == Decimal(b);
    DecimalRoundTrip(a);
    DecimalRoundTrip(b);
  }

  lemma CommonHead(a: string, x: string, b: string, y: string)
    requires |a| == |b| && a + x == b + y
    ensures a == b && x == y
  {
    assert (a + x)[..|a|] == a && (b + y)[..|b|] == b;
    assert (a + x)[|a|..] == x && (b + y)[|b|..] == y;
  }

  lemma CommonTail(a: string, b: string, tail: string)
    requires a + tail == b + tail
    ensures a == b
  {
    assert |a| == |b|;
    CommonHead(a, tail, b, tail);
  }

  lemma ProjectionNameInjective(a: PeerProjection, b: PeerProjection)
    requires ProjectionName(a) == ProjectionName(b)
    ensures a.projectionId == b.projectionId && a.projectionGeneration == b.projectionGeneration
  {
    hide Decimal, Hex;
    var x, y := Decimal(a.projectionGeneration) + ".projection", Decimal(b.projectionGeneration) + ".projection";
    CommonHead(Hex(a.projectionId), "-" + x, Hex(b.projectionId), "-" + y);
    HexInjective(a.projectionId, b.projectionId);
    CommonHead("-", x, "-", y);
    CommonTail(Decimal(a.projectionGeneration), Decimal(b.projectionGeneration), ".projection");
    DecimalRoundTrip(a.projectionGeneration);
    DecimalRoundTrip(b.projectionGeneration);
  }

  function PeerPath(g: CompatibilityGeneration, j: nat): Path
    requires j < |g.catalog|
  {
    Peer(DirectoryName(g.segmentGeneration), ProjectionName(g.catalog[j]))
  }

  function PeerPaths(g: CompatibilityGeneration): (paths: seq<Path>)
    ensures |paths| == |g.catalog|
  {
    seq(|g.catalog|, j requires 0 <= j < |g.catalog| => PeerPath(g, j))
  }

  /** `server_compatibility_paths`. */
  function ServerPaths(gs: seq<CompatibilityGeneration>): (paths: seq<GenerationPaths>)
    ensures |paths| == |gs|
  {
    seq(|gs|, i requires 0 <= i < |gs| => PathsOf(gs[i]))
  }

  function PathsOf(g: CompatibilityGeneration): GenerationPaths {
    GenerationPaths(g.segmentGeneration, Segment(DirectoryName(g.segmentGeneration)), PeerPaths(g))
  }

  predicate DistinctPeers(g: CompatibilityGeneration) {
    forall i, j :: 0 <= i < j < |g.catalog| ==> PeerPath(g, i) != PeerPath(g, j)
  }

  predicate DistinctGenerations(gs: seq<CompatibilityGeneration>) {
    && (forall i, j :: 0 <= i < j < |gs| ==>
          DirectoryName(gs[i].segmentGeneration) != DirectoryName(gs[j].segmentGeneration))
    && forall i :: 0 <= i < |gs| ==> DistinctPeers(gs[i])
  }

  lemma {:induction false} RanksIncrease(catalog: seq<PeerProjection>, i: nat, j: nat)
    requires ValidCatalog(catalog) && i < j < |catalog|
    ensures EntryRank(catalog[i]) < EntryRank(catalog[j])
    decreases j
  {
    hide EntryRank, ValidEntry;
    assert EntryRank(catalog[j - 1]) < EntryRank(catalog[j]);
    if i < j - 1 {
      RanksIncrease(catalog, i, j - 1);
    }
  }

  lemma {:induction false} GenerationsIncrease(gs: seq<CompatibilityGeneration>, i: nat, j: nat)
    requires forall k :: 0 < k < |gs| ==> gs[k - 1].segmentGeneration < gs[k].segmentGeneration
    requires i < j < |gs|
    ensures gs[i].segmentGeneration < gs[j].segmentGeneration
    decreases j
  {
    assert gs[j - 1].segmentGeneration < gs[j].segmentGeneration;
    if i < j - 1 {
      GenerationsIncrease(gs, i, j - 1);
    }
  }

  /** No two retained objects share a path. */
  lemma ValidMeansDistinct(c: Configuration)
    requires ValidCompatibility(c)
    ensures DistinctGenerations(c.compatibility)
  {
    hide Decimal, ProjectionName, DirectoryName, ValidGeneration, EntryRank, Distinct, RetainedIds;
    var gs := c.compatibility;
    forall i, j | 0 <= i < j < |gs|
      ensures DirectoryName(gs[i].segmentGeneration) != DirectoryName(gs[j].segmentGeneration)
    {
      GenerationsIncrease(gs, i, j);
      if DirectoryName(gs[i].segmentGeneration) == DirectoryName(gs[j].segmentGeneration) {
        DirectoryNameInjective(gs[i].segmentGeneration, gs[j].segmentGeneration);
      }
    }
    forall i | 0 <= i < |gs| ensures DistinctPeers(gs[i]) {
      GenerationPeersDistinct(gs[i], c.segmentGeneration);
    }
  }

  lemma GenerationPeersDistinct(g: CompatibilityGeneration, current: u64)
    requires ValidGeneration(g, current)
    ensures DistinctPeers(g)
  {
    hide ProjectionName, DirectoryName, EntryRank, CanonicalHex, AllZeros, ValidCatalog;
    forall i, j | 0 <= i < j < |g.catalog| ensures PeerPath(g, i) != PeerPath(g, j) {
      RanksIncrease(g.catalog, i, j);
      if PeerPath(g, i) == PeerPath(g, j) {
        SameNameSameRank(g.catalog[i], g.catalog[j]);
      }
    }
  }

  lemma SameNameSameRank(a: PeerProjection, b: PeerProjection)
    requires ProjectionName(a) == ProjectionName(b)
    ensures EntryRank(a) == EntryRank(b)
  {
    hide ProjectionName;
    ProjectionNameInjective(a, b);
  }

  // ---- the tree ----

  predicate ReadOnly(m: Mode) {
    m & 0x92 == 0
  }

  predicate OwnerWrites(m: Mode) {
    m & 0x80 != 0
  }

  function Above(p: Path): Path
    requires !p.Root?
  {
    match p
    case Generation(_) => Root
    case Segment(dir) => Generation(dir)
    case Peers(dir) => Generation(dir)
    case Peer(dir, _) => Peers(dir)
  }

  /** A new entry needs a writable directory around it; the one around the root is the caller's own. */
  predicate CanCreate(nodes: Nodes, p: Path) {
    p.Root? || (Above(p) in nodes && nodes[Above(p)].Directory? && OwnerWrites(nodes[Above(p)].mode))
  }

  predicate Same(a: Nodes, b: Nodes, p: Path) {
    (p in a <==> p in b) && (p in a ==> b[p] == a[p])
  }

  class Tree {
    var nodes: Nodes

    method SetMode(p: Path, mode: Mode) returns (ok: bool)
      modifies this
      ensures ok <==> p in old(nodes)
      ensures nodes == if ok then old(nodes)[p := old(nodes)[p].(mode := mode)] else old(nodes)
    {
      ok := p in nodes;
      if ok {
        nodes := nodes[p := nodes[p].(mode := mode)];
      }
    }

    method EnsurePrivateDirectory(p: Path) returns (ok: bool)
      modifies this
      ensures ok <==> if p in old(nodes) then old(nodes)[p].Directory? else CanCreate(old(nodes), p)
      ensures nodes == if ok then old(nodes)[p := Directory(DIRECTORY_PRIVATE)] else old(nodes)
    {
      if p in nodes {
        if !nodes[p].Directory? {
          return false;
        }
      } else {
        if !CanCreate(nodes, p) {
          return false;
        }
        nodes := nodes[p := Directory(DIRECTORY_PRIVATE)];
      }
      ok := SetMode(p, DIRECTORY_PRIVATE);
    }

    method AtomicBytes(p: Path, bytes: seq<byte>, mode: Mode) returns (ok: bool)
      modifies this
      ensures ok <==> CanCreate(old(nodes), p) && (p in old(nodes) ==> old(nodes)[p].File?)
      ensures nodes == if ok then old(nodes)[p := File(bytes, mode)] else old(nodes)
    {
      ok := CanCreate(nodes, p) && (p in nodes ==> nodes[p].File?);
      if ok {
        nodes := nodes[p := File(bytes, mode)];
      }
    }

    method ReadBounded(p: Path) returns (content: Option<seq<byte>>)
      ensures content == if Readable(nodes, p) then Some(nodes[p].content) else None
    {
      content := if Readable(nodes, p) then Some(nodes[p].content) else None;
    }
  }

  predicate Readable(nodes: Nodes, p: Path) {
    p in nodes && nodes[p].File? && Bounded(nodes[p].content)
  }

  // ---- writing ----

  /** One generation stands on the tree with these modes. */
  predicate Stands(nodes: Nodes, g: CompatibilityGeneration, d: DecodedGeneration, files: Mode, directories: Mode) {
    var dir := DirectoryName(g.segmentGeneration);
    && |g.catalog| == |d.peers|
    && Generation(dir) in nodes && nodes[Generation(dir)] == Directory(directories)
    && Segment(dir) in nodes && nodes[Segment(dir)] == File(d.segment, files)
    && Peers(dir) in nodes && nodes[Peers(dir)] == Directory(directories)
    && forall j :: 0 <= j < |g.catalog| ==> PeerPath(g, j) in nodes && nodes[PeerPath(g, j)] == File(d.peers[j], files)
  }

  predicate Below(dir: string, p: Path) {
    !p.Root? && p.dir == dir
  }

  predicate PeerIn(dir: string, p: Path) {
    p.Peer? && p.dir == dir
  }

  predicate NothingBelow(nodes: Nodes, dir: string) {
    forall p :: p in nodes ==> !Below(dir, p)
  }

  predicate NoPeers(nodes: Nodes, dir: string) {
    forall p :: p in nodes ==> !PeerIn(dir, p)
  }

  ghost predicate SameOutside(a: Nodes, b: Nodes, dir: string) {
    forall p :: !Below(dir, p) ==> Same(a, b, p)
  }

  ghost predicate SameButPeers(a: Nodes, b: Nodes, dir: string) {
    forall p :: !PeerIn(dir, p) ==> Same(a, b, p)
  }

  predicate PeersStand(nodes: Nodes, g: CompatibilityGeneration, d: DecodedGeneration, files: Mode, k: nat)
    requires k <= |g.catalog| == |d.peers|
  {
    forall j :: 0 <= j < k ==> PeerPath(g, j) in nodes && nodes[PeerPath(g, j)] == File(d.peers[j], files)
  }

  method WritePeers(tree: Tree, g: CompatibilityGeneration, d: DecodedGeneration, files: Mode)
    returns (paths: Option<seq<Path>>)
    requires |g.catalog| == |d.peers|
    modifies tree
    ensures paths.Some? ==> paths.value == PeerPaths(g)
    ensures SameButPeers(old(tree.nodes), tree.nodes, DirectoryName(g.segmentGeneration))
    ensures paths.Some? && DistinctPeers(g) ==> PeersStand(tree.nodes, g, d, files, |g.catalog|)
    ensures NoPeers(old(tree.nodes), DirectoryName(g.segmentGeneration))
            && CanCreate(old(tree.nodes), Peer(DirectoryName(g.segmentGeneration), "")) ==>
              paths.Some?
  {
    hide DirectoryName, ProjectionName, OwnerWrites;
    var dir := DirectoryName(g.segmentGeneration);
    var written: seq<Path> := [];
    for i := 0 to |g.catalog|
      invariant written == PeerPaths(g)[..i]
      invariant SameButPeers(old(tree.nodes), tree.nodes, dir)
      invariant DistinctPeers(g) ==> PeersStand(tree.nodes, g, d, files, i)
      invariant NoPeers(old(tree.nodes), dir) ==>
                  forall p :: p in tree.nodes && PeerIn(dir, p) ==> tree.nodes[p].File?
    {
      var path := PeerPath(g, i);
      assert Same(old(tree.nodes), tree.nodes, Peers(dir));
      var ok := tree.AtomicBytes(path, d.peers[i], files);
      if !ok {
        return None;
      }
      written := written + [path];
    }
    assert PeerPaths(g)[..|g.catalog|] == PeerPaths(g);
    paths := Some(written);
  }

  method WriteGeneration(tree: Tree, g: CompatibilityGeneration, d: DecodedGeneration, files: Mode, directories: Mode)
    returns (paths: Option<GenerationPaths>)
    modifies tree
    ensures paths.Some? ==>
              d.segmentGeneration == g.segmentGeneration && |g.catalog| == |d.peers| && paths.value == PathsOf(g)
    ensures SameOutside(old(tree.nodes), tree.nodes, DirectoryName(g.segmentGeneration))
    ensures paths.Some? && DistinctPeers(g) ==> Stands(tree.nodes, g, d, files, directories)
    ensures d.segmentGeneration == g.segmentGeneration && |g.catalog| == |d.peers|
            && NothingBelow(old(tree.nodes), DirectoryName(g.segmentGeneration))
            && CanCreate(old(tree.nodes), Generation(DirectoryName(g.segmentGeneration))) ==>
              paths.Some?
  {
    hide DirectoryName, ProjectionName, OwnerWrites;
    PrivateIsWritable();
    if d.segmentGeneration != g.segmentGeneration || |g.catalog| != |d.peers| {
      return None;
    }
    var dir := DirectoryName(g.segmentGeneration);
    ghost var before := tree.nodes;
    var ok := tree.EnsurePrivateDirectory(Generation(dir));
    if !ok {
      return None;
    }
    ok := tree.AtomicBytes(Segment(dir), d.segment, files);
    if !ok {
      return None;
    }
    ok := tree.EnsurePrivateDirectory(Peers(dir));
    if !ok {
      return None;
    }
    ghost var staged := tree.nodes;
    var peers := WritePeers(tree, g, d, files);
    Unpeered(before, staged, tree.nodes, dir);
    if peers.None? {
      return None;
    }
    ok := tree.SetMode(Peers(dir), directories);
    ok := tree.SetMode(Generation(dir), directories);
    paths := Some(GenerationPaths(g.segmentGeneration, Segment(dir), peers.value));
  }

  lemma PrivateIsWritable()
    ensures OwnerWrites(DIRECTORY_PRIVATE)
  {
  }

  lemma Unpeered(a: Nodes, b: Nodes, c: Nodes, dir: string)
    requires SameOutside(a, b, dir) && SameButPeers(b, c, dir)
    ensures SameOutside(a, c, dir)
    ensures Same(b, c, Generation(dir)) && Same(b, c, Segment(dir)) && Same(b, c, Peers(dir))
  {
    forall p | !Below(dir, p) ensures Same(a, c, p) {
      assert Same(a, b, p) && Same(b, c, p);
    }
  }

  predicate AllStand(nodes: Nodes, gs: seq<CompatibilityGeneration>, ds: seq<DecodedGeneration>, files: Mode, directories: Mode) {
    gs != [] ==>
      && Root in nodes && nodes[Root] == Directory(directories)
      && |gs| == |ds| && FirstStand(nodes, gs, ds, files, directories, |gs|)
  }

  predicate FirstStand(nodes: Nodes, gs: seq<CompatibilityGeneration>, ds: seq<DecodedGeneration>, files: Mode,
                       directories: Mode, k: nat)
    requires k <= |gs| == |ds|
  {
    forall i :: 0 <= i < k ==> Stands(nodes, gs[i], ds[i], files, directories)
  }

  predicate Matching(gs: seq<CompatibilityGeneration>, ds: seq<DecodedGeneration>) {
    && |gs| == |ds|
    && forall i :: 0 <= i < |gs| ==>
         ds[i].segmentGeneration == gs[i].segmentGeneration && |ds[i].peers| == |gs[i].catalog|
  }

  predicate VacantFrom(nodes: Nodes, gs: seq<CompatibilityGeneration>, k: nat) {
    forall i :: k <= i < |gs| ==> NothingBelow(nodes, DirectoryName(gs[i].segmentGeneration))
  }

  method WriteCompatibilityDirectories(tree: Tree, gs: seq<CompatibilityGeneration>, ds: seq<DecodedGeneration>,
                                       files: Mode, directories: Mode)
    returns (paths: Option<seq<GenerationPaths>>)
    modifies tree
    ensures paths.Some? ==> Matching(gs, ds) && paths.value == ServerPaths(gs)
    ensures paths.Some? && DistinctGenerations(gs) ==> AllStand(tree.nodes, gs, ds, files, directories)
    ensures Matching(gs, ds) && DistinctGenerations(gs) && Root !in old(tree.nodes) && VacantFrom(old(tree.nodes), gs, 0) ==>
              paths.Some?
    ensures gs == [] ==> tree.nodes == old(tree.nodes)
  {
    hide DirectoryName, ProjectionName, OwnerWrites, Stands, DistinctPeers, PeerPaths, NothingBelow;
    PrivateIsWritable();
    if |gs| != |ds| {
      return None;
    }
    if gs == [] {
      return Some([]);
    }
    var ok := tree.EnsurePrivateDirectory(Root);
    if !ok {
      return None;
    }
    var output: seq<GenerationPaths> := [];
    StillVacant(old(tree.nodes), tree.nodes, gs);
    for i := 0 to |gs|
      invariant output == ServerPaths(gs)[..i]
      invariant Root in tree.nodes && tree.nodes[Root] == Directory(DIRECTORY_PRIVATE)
      invariant forall j :: 0 <= j < i ==>
                  ds[j].segmentGeneration == gs[j].segmentGeneration && |ds[j].peers| == |gs[j].catalog|
      invariant DistinctGenerations(gs) ==> FirstStand(tree.nodes, gs, ds, files, directories, i)
      invariant DistinctGenerations(gs) && VacantFrom(old(tree.nodes), gs, 0) ==> VacantFrom(tree.nodes, gs, i)
    {
      ghost var before := tree.nodes;
      var written := WriteGeneration(tree, gs[i], ds[i], files, directories);
      if written.None? {
        return None;
      }
      OthersStay(before, tree.nodes, gs, ds, files, directories, i);
      output := output + [written.value];
    }
    assert ServerPaths(gs)[..|gs|] == ServerPaths(gs);
    ghost var unsealed := tree.nodes;
    ok := tree.SetMode(Root, directories);
    RootAside(unsealed, tree.nodes, gs, ds, files, directories);
    paths := Some(output);
  }

  lemma StillVacant(a: Nodes, b: Nodes, gs: seq<CompatibilityGeneration>)
    requires b == a[Root := Directory(DIRECTORY_PRIVATE)]
    ensures VacantFrom(a, gs, 0) ==> VacantFrom(b, gs, 0)
  {
    hide DirectoryName;
    if VacantFrom(a, gs, 0) {
      forall i | 0 <= i < |gs| ensures NothingBelow(b, DirectoryName(gs[i].segmentGeneration)) {
        assert NothingBelow(a, DirectoryName(gs[i].segmentGeneration));
      }
    }
  }

  /** A generation keeps standing while another one is written. */
  lemma StandsAside(a: Nodes, b: Nodes, dir: string, g: CompatibilityGeneration, d: DecodedGeneration, files: Mode,
                    directories: Mode)
    requires SameOutside(a, b, dir) && DirectoryName(g.segmentGeneration) != dir && Stands(a, g, d, files, directories)
    ensures Stands(b, g, d, files, directories)
  {
    hide DirectoryName, ProjectionName;
    var own := DirectoryName(g.segmentGeneration);
    assert Same(a, b, Generation(own)) && Same(a, b, Segment(own)) && Same(a, b, Peers(own));
    forall j | 0 <= j < |g.catalog|
      ensures PeerPath(g, j) in b && b[PeerPath(g, j)] == File(d.peers[j], files)
    {
      assert Same(a, b, PeerPath(g, j));
    }
  }

  lemma VacantAside(a: Nodes, b: Nodes, dir: string, other: string)
    requires SameOutside(a, b, dir) && other != dir && NothingBelow(a, other)
    ensures NothingBelow(b, other)
  {
    forall p | p in b ensures !Below(other, p) {
      assert !Below(dir, p) ==> Same(a, b, p);
    }
  }

  lemma OthersStay(a: Nodes, b: Nodes, gs: seq<CompatibilityGeneration>, ds: seq<DecodedGeneration>, files: Mode,
                   directories: Mode, i: nat)
    requires i < |gs| == |ds| && SameOutside(a, b, DirectoryName(gs[i].segmentGeneration))
    requires DistinctGenerations(gs) ==> Stands(b, gs[i], ds[i], files, directories)
    requires Root in a
    ensures Same(a, b, Root)
    ensures DistinctGenerations(gs) && FirstStand(a, gs, ds, files, directories, i) ==>
              FirstStand(b, gs, ds, files, directories, i + 1)
    ensures DistinctGenerations(gs) && VacantFrom(a, gs, i) ==> VacantFrom(b, gs, i + 1)
  {
    hide DirectoryName, ProjectionName, Stands, DistinctPeers, NothingBelow;
    var dir := DirectoryName(gs[i].segmentGeneration);
    assert !Below(dir, Root);
    if DistinctGenerations(gs) {
      forall j | 0 <= j < |gs| && j != i ensures DirectoryName(gs[j].segmentGeneration) != dir {
        assert j < i || i < j;
      }
      if FirstStand(a, gs, ds, files, directories, i) {
        forall j | 0 <= j < i ensures Stands(b, gs[j], ds[j], files, directories) {
          StandsAside(a, b, dir, gs[j], ds[j], files, directories);
        }
      }
      if VacantFrom(a, gs, i) {
        forall j | i + 1 <= j < |gs| ensures NothingBelow(b, DirectoryName(gs[j].segmentGeneration)) {
          VacantAside(a, b, dir, DirectoryName(gs[j].segmentGeneration));
        }
      }
    }
  }

  lemma RootAside(a: Nodes, b: Nodes, gs: seq<CompatibilityGeneration>, ds: seq<DecodedGeneration>, files: Mode,
                  directories: Mode)
    requires |gs| == |ds| && Root in a && Root in b && b == a[Root := b[Root]]
    ensures FirstStand(a, gs, ds, files, directories, |gs|) ==> FirstStand(b, gs, ds, files, directories, |gs|)
  {
    hide DirectoryName, ProjectionName;
  }

  // ---- sealing ----

  ghost predicate SameContents(a: Nodes, b: Nodes) {
    forall p :: (p in a <==> p in b) && (p in a ==> b[p] == a[p].(mode := b[p].mode))
  }

  predicate Present(nodes: Nodes, g: CompatibilityGeneration) {
    var dir := DirectoryName(g.segmentGeneration);
    && Generation(dir) in nodes && Segment(dir) in nodes && Peers(dir) in nodes
    && forall j :: 0 <= j < |g.catalog| ==> PeerPath(g, j) in nodes
  }

  predicate Sealed(nodes: Nodes, g: CompatibilityGeneration) {
    var dir := DirectoryName(g.segmentGeneration);
    && Present(nodes, g)
    && nodes[Generation(dir)].mode == DIRECTORY_SEALED && nodes[Peers(dir)].mode == DIRECTORY_SEALED
    && nodes[Segment(dir)].mode == FILE_SEALED
    && PeersSealed(nodes, g, |g.catalog|)
  }

  predicate PeersSealed(nodes: Nodes, g: CompatibilityGeneration, k: nat)
    requires k <= |g.catalog|
  {
    forall j :: 0 <= j < k ==> PeerPath(g, j) in nodes && nodes[PeerPath(g, j)].mode == FILE_SEALED
  }

  method SealPeers(tree: Tree, g: CompatibilityGeneration) returns (ok: bool)
    modifies tree
    ensures ok <==> forall j :: 0 <= j < |g.catalog| ==> PeerPath(g, j) in old(tree.nodes)
    ensures SameContents(old(tree.nodes), tree.nodes)
    ensures SameButPeers(old(tree.nodes), tree.nodes, DirectoryName(g.segmentGeneration))
    ensures ok ==> PeersSealed(tree.nodes, g, |g.catalog|)
  {
    hide DirectoryName, ProjectionName;
    for i := 0 to |g.catalog|
      invariant SameContents(old(tree.nodes), tree.nodes)
      invariant SameButPeers(old(tree.nodes), tree.nodes, DirectoryName(g.segmentGeneration))
      invariant PeersSealed(tree.nodes, g, i)
    {
      ok := tree.SetMode(PeerPath(g, i), FILE_SEALED);
      if !ok {
        return false;
      }
    }
    ok := true;
  }

  lemma SameContentsOnward(a: Nodes, b: Nodes, c: Nodes)
    requires SameContents(a, b) && SameContents(b, c)
    ensures SameContents(a, c)
  {
  }

  lemma SameOutsideOnward(a: Nodes, b: Nodes, c: Nodes, dir: string)
    requires SameOutside(a, b, dir) && SameOutside(b, c, dir)
    ensures SameOutside(a, c, dir)
  {
    forall p | !Below(dir, p) ensures Same(a, c, p) {
      assert Same(a, b, p) && Same(b, c, p);
    }
  }

  lemma ModeOnly(a: Nodes, p: Path, mode: Mode, dir: string)
    requires p in a && Below(dir, p)
    ensures SameContents(a, a[p := a[p].(mode := mode)]) && SameOutside(a, a[p := a[p].(mode := mode)], dir)
  {
  }

  lemma PresentParts(nodes: Nodes, g: CompatibilityGeneration)
    ensures var dir := DirectoryName(g.segmentGeneration);
            Present(nodes, g) <==>
              Generation(dir) in nodes && Segment(dir) in nodes && Peers(dir) in nodes
              && forall j :: 0 <= j < |g.catalog| ==> PeerPath(g, j) in nodes
  {
    hide DirectoryName, ProjectionName;
  }

  method SealGeneration(tree: Tree, g: CompatibilityGeneration) returns (ok: bool)
    modifies tree
    ensures ok <==> Present(old(tree.nodes), g)
    ensures SameContents(old(tree.nodes), tree.nodes)
    ensures SameOutside(old(tree.nodes), tree.nodes, DirectoryName(g.segmentGeneration))
    ensures ok ==> Sealed(tree.nodes, g)
  {
    hide DirectoryName, ProjectionName, PeersSealed, SameContents, SameOutside, Present, SameButPeers;
    var dir := DirectoryName(g.segmentGeneration);
    ghost var a := tree.nodes;
    PresentParts(a, g);
    SameContentsItself(a, dir);
    ok := tree.SetMode(Segment(dir), FILE_SEALED);
    if !ok {
      return false;
    }
    ghost var b := tree.nodes;
    ModeOnly(a, Segment(dir), FILE_SEALED, dir);
    ok := SealPeers(tree, g);
    ghost var c := tree.nodes;
    SameContentsOnward(a, b, c);
    PeersAside(b, c, dir);
    SameOutsideOnward(a, b, c, dir);
    if !ok {
      return false;
    }
    ok := tree.SetMode(Peers(dir), DIRECTORY_SEALED);
    if !ok {
      return false;
    }
    ghost var d := tree.nodes;
    ModeOnly(c, Peers(dir), DIRECTORY_SEALED, dir);
    SameContentsOnward(a, c, d);
    SameOutsideOnward(a, c, d, dir);
    ok := tree.SetMode(Generation(dir), DIRECTORY_SEALED);
    if ok {
      ModeOnly(d, Generation(dir), DIRECTORY_SEALED, dir);
      SameContentsOnward(a, d, tree.nodes);
      SameOutsideOnward(a, d, tree.nodes, dir);
      PeersSealedStill(c, tree.nodes, g);
      PresentToo(a, tree.nodes, g);
    }
  }

  lemma SameContentsItself(a: Nodes, dir: string)
    ensures SameContents(a, a) && SameOutside(a, a, dir)
  {
  }

  lemma PeersAside(b: Nodes, c: Nodes, dir: string)
    requires SameButPeers(b, c, dir)
    ensures SameOutside(b, c, dir)
    ensures Same(b, c, Generation(dir)) && Same(b, c, Segment(dir)) && Same(b, c, Peers(dir))
  {
  }

  lemma {:induction false} PeersSealedStill(a: Nodes, b: Nodes, g: CompatibilityGeneration)
    requires PeersSealed(a, g, |g.catalog|)
    requires forall p: Path :: p in a && p.Peer? ==> p in b && b[p] == a[p]
    ensures PeersSealed(b, g, |g.catalog|)
  {
    hide DirectoryName, ProjectionName;
  }

  method SealCompatibilityDirectories(tree: Tree, gs: seq<CompatibilityGeneration>) returns (ok: bool)
    modifies tree
    ensures ok <==> gs == [] || (Root in old(tree.nodes) && forall i :: 0 <= i < |gs| ==> Present(old(tree.nodes), gs[i]))
    ensures SameContents(old(tree.nodes), tree.nodes)
    ensures ok && gs != [] && DistinctGenerations(gs) ==>
              && Root in tree.nodes && tree.nodes[Root].mode == DIRECTORY_SEALED
              && forall i :: 0 <= i < |gs| ==> Sealed(tree.nodes, gs[i])
  {
    hide DirectoryName, ProjectionName, Present, Sealed, DistinctPeers;
    if gs == [] {
      return true;
    }
    for i := 0 to |gs|
      invariant SameContents(old(tree.nodes), tree.nodes)
      invariant forall j :: 0 <= j < i ==> Present(old(tree.nodes), gs[j])
      invariant DistinctGenerations(gs) ==> forall j :: 0 <= j < i ==> Sealed(tree.nodes, gs[j])
    {
      ghost var before := tree.nodes;
      PresentToo(old(tree.nodes), before, gs[i]);
      ok := SealGeneration(tree, gs[i]);
      if !ok {
        return false;
      }
      SealedAside(before, tree.nodes, gs, i);
    }
    ghost var unsealed := tree.nodes;
    ok := tree.SetMode(Root, DIRECTORY_SEALED);
    if ok && DistinctGenerations(gs) {
      SealedRoot(unsealed, tree.nodes, gs);
    }
  }

  lemma PresentToo(a: Nodes, b: Nodes, g: CompatibilityGeneration)
    requires SameContents(a, b)
    ensures Present(a, g) <==> Present(b, g)
  {
    hide DirectoryName, ProjectionName;
  }

  lemma SealedStays(a: Nodes, b: Nodes, dir: string, g: CompatibilityGeneration)
    requires SameOutside(a, b, dir) && DirectoryName(g.segmentGeneration) != dir && Sealed(a, g)
    ensures Sealed(b, g)
  {
    hide DirectoryName, ProjectionName;
    var own := DirectoryName(g.segmentGeneration);
    assert Same(a, b, Generation(own)) && Same(a, b, Segment(own)) && Same(a, b, Peers(own));
    forall j | 0 <= j < |g.catalog| ensures PeerPath(g, j) in b && b[PeerPath(g, j)].mode == FILE_SEALED {
      assert Same(a, b, PeerPath(g, j));
    }
  }

  lemma SealedAside(a: Nodes, b: Nodes, gs: seq<CompatibilityGeneration>, i: nat)
    requires i < |gs| && SameOutside(a, b, DirectoryName(gs[i].segmentGeneration))
    ensures DistinctGenerations(gs) && (forall j :: 0 <= j < i ==> Sealed(a, gs[j])) ==>
              forall j :: 0 <= j < i ==> Sealed(b, gs[j])
  {
    hide DirectoryName, ProjectionName, Sealed, DistinctPeers;
    if DistinctGenerations(gs) && forall j :: 0 <= j < i ==> Sealed(a, gs[j]) {
      forall j | 0 <= j < i ensures Sealed(b, gs[j]) {
        SealedStays(a, b, DirectoryName(gs[i].segmentGeneration), gs[j]);
      }
    }
  }

  lemma {:induction false} SealedRoot(a: Nodes, b: Nodes, gs: seq<CompatibilityGeneration>)
    requires Root in a && Root in b && b == a[Root := b[Root]] && forall i :: 0 <= i < |gs| ==> Sealed(a, gs[i])
    ensures forall i :: 0 <= i < |gs| ==> Sealed(b, gs[i])
  {
    hide DirectoryName, ProjectionName;
  }

  // ---- verifying ----

  predicate ReadOnlyDirectory(nodes: Nodes, p: Path) {
    p in nodes && nodes[p].Directory? && ReadOnly(nodes[p].mode)
  }

  /** A sealed file with exactly this content. */
  predicate Holds(nodes: Nodes, p: Path, content: seq<byte>) {
    Readable(nodes, p) && nodes[p].content == content && ReadOnly(nodes[p].mode)
  }

  predicate GenerationVerified(nodes: Nodes, g: CompatibilityGeneration, d: DecodedGeneration) {
    var dir := DirectoryName(g.segmentGeneration);
    && ReadOnlyDirectory(nodes, Generation(dir)) && Holds(nodes, Segment(dir), d.segment)
    && ReadOnlyDirectory(nodes, Peers(dir))
    && forall j :: 0 <= j < |g.catalog| && j < |d.peers| ==> Holds(nodes, PeerPath(g, j), d.peers[j])
  }

  predicate Verified(nodes: Nodes, gs: seq<CompatibilityGeneration>, ds: seq<DecodedGeneration>) {
    && |gs| == |ds|
    && (gs == [] ==> Root !in nodes)
    && (gs != [] ==> ReadOnlyDirectory(nodes, Root))
    && forall i :: 0 <= i < |gs| ==> GenerationVerified(nodes, gs[i], ds[i])
  }

  method VerifyGeneration(tree: Tree, g: CompatibilityGeneration, d: DecodedGeneration) returns (ok: bool)
    ensures ok <==> GenerationVerified(tree.nodes, g, d)
  {
    hide DirectoryName, ProjectionName, ReadOnly, Bounded;
    var dir := DirectoryName(g.segmentGeneration);
    if !ReadOnlyDirectory(tree.nodes, Generation(dir)) {
      return false;
    }
    var content := tree.ReadBounded(Segment(dir));
    if content != Some(d.segment) {
      return false;
    }
    if !ReadOnly(tree.nodes[Segment(dir)].mode) {
      return false;
    }
    if !ReadOnlyDirectory(tree.nodes, Peers(dir)) {
      return false;
    }
    var count := if |g.catalog| < |d.peers| then |g.catalog| else |d.peers|;
    for i := 0 to count
      invariant forall j :: 0 <= j < i ==> Holds(tree.nodes, PeerPath(g, j), d.peers[j])
    {
      content := tree.ReadBounded(PeerPath(g, i));
      if content != Some(d.peers[i]) {
        assert !Holds(tree.nodes, PeerPath(g, i), d.peers[i]);
        return false;
      }
      if !ReadOnly(tree.nodes[PeerPath(g, i)].mode) {
        assert !Holds(tree.nodes, PeerPath(g, i), d.peers[i]);
        return false;
      }
    }
    ok := true;
  }

  method VerifyCompatibilityDirectories(tree: Tree, gs: seq<CompatibilityGeneration>, ds: seq<DecodedGeneration>)
    returns (ok: bool)
    ensures ok <==> Verified(tree.nodes, gs, ds)
  {
    hide GenerationVerified, ReadOnly;
    if |gs| != |ds| {
      return false;
    }
    if gs == [] {
      return Root !in tree.nodes;
    }
    if !ReadOnlyDirectory(tree.nodes, Root) {
      return false;
    }
    for i := 0 to |gs|
      invariant forall j :: 0 <= j < i ==> GenerationVerified(tree.nodes, gs[j], ds[j])
    {
      ok := VerifyGeneration(tree, gs[i], ds[i]);
      if !ok {
        return false;
      }
    }
    ok := true;
  }

  // ---- the three together ----

  lemma SealedModesAreReadOnly()
    ensures ReadOnly(FILE_SEALED) && ReadOnly(DIRECTORY_SEALED)
  {
  }

  lemma StandingSealedVerifies(a: Nodes, b: Nodes, g: CompatibilityGeneration, d: DecodedGeneration)
    requires Stands(a, g, d, FILE_PRIVATE, DIRECTORY_PRIVATE) && SameContents(a, b) && Sealed(b, g)
    requires DecodedGenerationFrom(g, d)
    ensures GenerationVerified(b, g, d)
  {
    hide DirectoryName, ProjectionName, ReadOnly, Bounded;
    SealedModesAreReadOnly();
  }

  lemma StandingIsPresent(nodes: Nodes, g: CompatibilityGeneration, d: DecodedGeneration)
    requires Stands(nodes, g, d, FILE_PRIVATE, DIRECTORY_PRIVATE)
    ensures Present(nodes, g)
  {
    hide DirectoryName, ProjectionName;
  }

  /** Publishing the retained generations of an accepted configuration in a fresh staging directory:
      writing, sealing and verifying succeed, the written paths are those the server configuration
      will name, and the sealed tree verifies. */
  method PublishCompatibility(tree: Tree, c: Configuration, o: Objects) returns (paths: seq<GenerationPaths>, ok: bool)
    requires ValidConfiguration(c) && DecodedFrom(c, o) && tree.nodes == map[]
    modifies tree
    ensures ok && paths == ServerPaths(c.compatibility)
    ensures Verified(tree.nodes, c.compatibility, o.compatibility)
  {
    hide DirectoryName, ProjectionName, Stands, Present, Sealed, GenerationVerified, ReadOnly, ValidCompatibility,
         DistinctGenerations, ServerPaths, DecodedGenerationFrom, NothingBelow;
    var gs, ds := c.compatibility, o.compatibility;
    ValidMeansDistinct(c);
    DecodedMatches(c, o);
    EmptyIsVacant(gs);
    var written := WriteCompatibilityDirectories(tree, gs, ds, FILE_PRIVATE, DIRECTORY_PRIVATE);
    paths := written.value;
    ghost var staged := tree.nodes;
    forall i | 0 <= i < |gs| ensures Present(staged, gs[i]) {
      StandingIsPresent(staged, gs[i], ds[i]);
    }
    ok := SealCompatibilityDirectories(tree, gs);
    SealedModesAreReadOnly();
    forall i | 0 <= i < |gs| ensures GenerationVerified(tree.nodes, gs[i], ds[i]) {
      StandingSealedVerifies(staged, tree.nodes, gs[i], ds[i]);
    }
    ok := VerifyCompatibilityDirectories(tree, gs, ds);
  }

  lemma EmptyIsVacant(gs: seq<CompatibilityGeneration>)
    ensures VacantFrom(map[], gs, 0)
  {
    hide DirectoryName;
  }

  lemma DecodedMatches(c: Configuration, o: Objects)
    requires DecodedFrom(c, o)
    ensures Matching(c.compatibility, o.compatibility)
    ensures forall i :: 0 <= i < |c.compatibility| ==> DecodedGenerationFrom(c.compatibility[i], o.compatibility[i])
  {
    hide Bounded;
  }

  /** Nobody may write: not the owner, the group or others. */
  predicate Unwritable(m: Mode) {
    m & 0x80 == 0 && m & 0x10 == 0 && m & 0x02 == 0
  }

  predicate SealedDirectory(nodes: Nodes, p: Path) {
    p in nodes && nodes[p].Directory? && Unwritable(nodes[p].mode)
  }

  predicate SealedFile(nodes: Nodes, p: Path, content: seq<byte>) {
    p in nodes && nodes[p].File? && nodes[p].content == content && 0 < |content| <= 8_388_608 && Unwritable(nodes[p].mode)
  }

  /** A tree is accepted exactly when nothing is there and nothing expected, or when every directory and every file
      that is expected stands under its name, without write permission and with its content. */
  lemma VerifiedExactly(nodes: Nodes, gs: seq<CompatibilityGeneration>, ds: seq<DecodedGeneration>)
    ensures Verified(nodes, gs, ds) <==>
            |gs| == |ds| &&
            if gs == [] then Root !in nodes
            else
              && SealedDirectory(nodes, Root)
              && forall i :: 0 <= i < |gs| ==>
                   var dir := "generation-" + Decimal(gs[i].segmentGeneration);
                   && SealedDirectory(nodes, Generation(dir)) && SealedDirectory(nodes, Peers(dir))
                   && SealedFile(nodes, Segment(dir), ds[i].segment)
                   && forall j :: 0 <= j < |gs[i].catalog| && j < |ds[i].peers| ==>
                        var entry := gs[i].catalog[j];
                        SealedFile(nodes, Peer(dir, Hex(entry.projectionId) + "-" + Decimal(entry.projectionGeneration) + ".projection"),
                                   ds[i].peers[j])
  {
    hide SealedDirectory, SealedFile, ReadOnlyDirectory, Holds, Hex, Decimal;
    SealedMeans(nodes);
    forall i, j | 0 <= i < |gs| && 0 <= j < |gs[i].catalog|
      ensures ProjectionName(gs[i].catalog[j])
           == Hex(gs[i].catalog[j].projectionId) + "-" + Decimal(gs[i].catalog[j].projectionGeneration) + ".projection"
    {
      var entry := gs[i].catalog[j];
      var id, number := Hex(entry.projectionId), Decimal(entry.projectionGeneration);
      assert id + ("-" + (number + ".projection")) == id + "-" + number + ".projection";
    }
  }

  lemma SealedMeans(nodes: Nodes)
    ensures forall p :: ReadOnlyDirectory(nodes, p) <==> SealedDirectory(nodes, p)
    ensures forall p, content :: Holds(nodes, p, content) <==> SealedFile(nodes, p, content)
  {
    hide Unwritable, ReadOnly;
    forall m: Mode ensures ReadOnly(m) <==> Unwritable(m) {
      WriteBits(m);
    }
  }

  lemma WriteBits(m: Mode)
    ensures ReadOnly(m) <==> Unwritable(m)
    ensures OwnerWrites(m) <==> m / 128 % 2 == 1
  {
  }

  /** What verification accepts is exactly one content for each generation. */
  lemma VerifiedDetermines(nodes: Nodes, gs: seq<CompatibilityGeneration>, ds: seq<DecodedGeneration>,
                           es: seq<DecodedGeneration>)
    requires Verified(nodes, gs, ds) && Verified(nodes, gs, es) && Matching(gs, ds) && Matching(gs, es)
    ensures ds == es
  {
    hide DirectoryName, ProjectionName, ReadOnly, Readable;
    forall i | 0 <= i < |gs| ensures ds[i] == es[i] {
      assert GenerationVerified(nodes, gs[i], ds[i]) && GenerationVerified(nodes, gs[i], es[i]);
      assert |ds[i].peers| == |es[i].peers|;
      forall j | 0 <= j < |ds[i].peers| ensures ds[i].peers[j] == es[i].peers[j] {
        assert Holds(nodes, PeerPath(gs[i], j), ds[i].peers[j]) && Holds(nodes, PeerPath(gs[i], j), es[i].peers[j]);
      }
      assert ds[i].peers == es[i].peers;
    }
  }
}
