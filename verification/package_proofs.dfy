/** What a refreshed package guarantees, and which later changes verification notices. */
module PackageProofs {
  import opened Bytes
  import opened Package
  import opened PackageDigest
  import opened Wrappers

  // ---- names ----

  lemma BaseNameEnds(path: string)
    requires path != "" && path[|path| - 1] != '/'
    ensures BaseName(path) != "" && BaseName(path)[|BaseName(path)| - 1] == path[|path| - 1]
  {
  }

  lemma TopLevelProvenance()
    ensures BaseName(PROVENANCE) == PROVENANCE && CARGO != PROVENANCE && BaseName(CARGO) != PROVENANCE
  {
    NoSlash(PROVENANCE);
    NoSlash(CARGO);
  }

  lemma {:induction false} NoSlash(path: string)
    requires '/' !in path
    ensures BaseName(path) == path
  {
    if path != "" {
      var init := path[..|path| - 1];
      assert path[|path| - 1] in path && forall i :: 0 <= i < |init| ==> init[i] == path[i];
      NoSlash(init);
      InitAndLast(path);
    }
  }

  lemma SourcesAreVisible(sources: Tree, n: string)
    requires RustSources(sources) && n in sources
    ensures BaseName(n) != PROVENANCE && n != PROVENANCE && n != CARGO
  {
    BaseNameEnds(n);
    assert PROVENANCE[|PROVENANCE| - 1] == 'n' && CARGO[|CARGO| - 1] == 'l';
  }

  // ---- refresh, then verify ----

  /** The links a refresh leaves behind: those it writes through and those that reach no file. */
  ghost predicate LinkStays(tools: Tools, entries: Entries, origin: Origin, n: string)
    requires Refreshable(tools, origin)
  {
    n in entries && entries[n].Link?
    && (n in PublishedFiles(tools, origin) || n == PROVENANCE || entries[n].target.None?)
  }

  ghost predicate NoLinkStays(tools: Tools, entries: Entries, origin: Origin)
    requires Refreshable(tools, origin)
  {
    forall n :: !LinkStays(tools, entries, origin, n)
  }

  lemma LinksAfterRefresh(tools: Tools, entries: Entries, origin: Origin)
    requires Refreshable(tools, origin)
    ensures NoLinks(Refreshed(tools, entries, origin)) <==> NoLinkStays(tools, entries, origin)
  {
    hide PublishedFiles, RecordOf, Refreshable;
    var after := Refreshed(tools, entries, origin);
    forall n ensures n in after && after[n].Link? <==> LinkStays(tools, entries, origin, n) {
    }
  }

  lemma ProvenanceAfterRefresh(tools: Tools, entries: Entries, origin: Origin)
    requires Refreshable(tools, origin)
    ensures var after := Refreshed(tools, entries, origin);
            PROVENANCE in after && Contents(after[PROVENANCE]) == Some(tools.encode(RecordOf(tools, origin)))
  {
    hide PublishedFiles, RecordOf, Refreshable, Kept, PutAll;
  }

  /** What verification sees of a refreshed package are the published files. */
  lemma VisibleAfterRefresh(tools: Tools, entries: Entries, origin: Origin)
    requires Refreshable(tools, origin) && RustSources(origin.sources)
    requires NoLinks(Refreshed(tools, entries, origin))
    ensures Visible(Refreshed(tools, entries, origin)) == PublishedFiles(tools, origin)
  {
    hide RecordOf, Refreshable, BaseName, PublishedManifest;
    var after, files := Refreshed(tools, entries, origin), PublishedFiles(tools, origin);
    TopLevelProvenance();
    PublishedAreVisible(tools, origin);
    LinksAfterRefresh(tools, entries, origin);
    forall n | n in after && n !in files ensures n == PROVENANCE {
      assert !LinkStays(tools, entries, origin, n);
    }
    forall n | n in files ensures n in after && after[n] == Plain(files[n]) {
      assert after[n].Plain?;
    }
  }

  lemma PublishedAreVisible(tools: Tools, origin: Origin)
    requires Refreshable(tools, origin) && RustSources(origin.sources)
    ensures forall n :: n in PublishedFiles(tools, origin) ==> BaseName(n) != PROVENANCE && n != PROVENANCE
  {
    hide BaseName, PublishedManifest, Refreshable;
    TopLevelProvenance();
    forall n | n in origin.sources ensures BaseName(n) != PROVENANCE && n != PROVENANCE {
      SourcesAreVisible(origin.sources, n);
    }
  }

  lemma PublishedAreAccepted(tools: Tools, origin: Origin)
    requires Refreshable(tools, origin) && tools.RoundTrips()
    ensures Accepted(tools, PublishedFiles(tools, origin), RecordOf(tools, origin))
            <==> PublicManifest(PublishedManifest(tools, origin))
  {
    hide TreePreimage, PublicManifest, PublishedManifest, Refreshable;
    var files := PublishedFiles(tools, origin);
    assert files[CARGO] == tools.render(PublishedManifest(tools, origin));
    assert SourcesMatch(tools, files, RecordOf(tools, origin).sourceFiles);
  }

  lemma PublishedIsPublic(tools: Tools, origin: Origin)
    requires Refreshable(tools, origin)
    ensures var m := PublishedManifest(tools, origin);
            PublicManifest(m) <==> NoWorkspaceLeft(m.dependencies) && NoWorkspaceLeft(m.devDependencies)
  {
    hide Resolvable, ResolvedSection, PublicSection, NoWorkspaceLeft;
    var m := tools.parse(origin.manifest).value;
    ResolvedIsPublic(origin.workspace, m.dependencies);
    ResolvedIsPublic(origin.workspace, m.devDependencies);
  }

  /** A refreshed package verifies exactly when the refresh left no symbolic link and resolved every
      dependency away from its workspace. */
  lemma RefreshThenVerify(tools: Tools, entries: Entries, origin: Origin)
    requires Refreshable(tools, origin) && tools.RoundTrips() && RustSources(origin.sources)
    ensures var m := PublishedManifest(tools, origin);
            Verifies(tools, Refreshed(tools, entries, origin))
            <==> (NoLinkStays(tools, entries, origin)
                  && NoWorkspaceLeft(m.dependencies) && NoWorkspaceLeft(m.devDependencies))
  {
    hide Accepted, Refreshable, Refreshed, PublishedFiles, PublishedManifest, RecordOf, NoLinks, NoLinkStays, Visible,
         NoWorkspaceLeft, RustSources, PublicManifest;
    var after := Refreshed(tools, entries, origin);
    LinksAfterRefresh(tools, entries, origin);
    ProvenanceAfterRefresh(tools, entries, origin);
    PublishedAreAccepted(tools, origin);
    PublishedIsPublic(tools, origin);
    assert tools.decode(tools.encode(RecordOf(tools, origin))) == Some(RecordOf(tools, origin));
    if NoLinks(after) {
      VisibleAfterRefresh(tools, entries, origin);
    }
  }

  // ---- later changes ----

  /** The hash tells every file of one tree apart from the file of that name in the other. */
  ghost predicate ToldApart(tools: Tools, a: Tree, b: Tree) {
    forall n :: n in a && n in b ==> NoCollision(tools.sha, a[n], b[n])
  }

  /** Unless two versions of a file collide, a package with the provenance of a verified one verifies
      exactly when it holds no link and the same visible files. */
  lemma ChangesAreNoticed(tools: Tools, before: Entries, after: Entries)
    requires Verifies(tools, before) && (NoLinks(after) ==> ToldApart(tools, Visible(after), Visible(before)))
    requires PROVENANCE in after && after[PROVENANCE] == before[PROVENANCE]
    ensures Verifies(tools, after) <==> NoLinks(after) && Visible(after) == Visible(before)
  {
    hide Visible, NoLinks, TreePreimage, PublicManifest, SourcesMatch;
    if NoLinks(after) && Verifies(tools, after) {
      DigestsDetermine(tools, Visible(after), Visible(before));
    }
  }

  lemma DigestsDetermine(tools: Tools, a: Tree, b: Tree)
    requires ToldApart(tools, a, b) && Digests(tools, a) == Digests(tools, b)
    ensures a == b
  {
    assert a.Keys == Digests(tools, a).Keys && b.Keys == Digests(tools, b).Keys;
    forall n | n in a ensures a[n] == b[n] {
      assert Digests(tools, a)[n] == Digests(tools, b)[n];
    }
  }

  /** The package digest alone already fixes every visible file. */
  lemma {:induction false} PackageDigestNamesTheFiles(tools: Tools, a: Tree, b: Tree)
    requires NoCollision(tools.sha, TreePreimage(tools.utf8, a), TreePreimage(tools.utf8, b))
    requires forall x, y :: tools.utf8(x) == tools.utf8(y) ==> x == y
    requires Fits(tools.utf8, a) && Fits(tools.utf8, b)
    requires tools.sha(TreePreimage(tools.utf8, a)) == tools.sha(TreePreimage(tools.utf8, b))
    ensures a == b
  {
    hide Fits, TreePreimage;
    PreimageDeterminesTree(tools.utf8, a, b);
  }

  /** A file called provenance.json in a subdirectory can be added, changed or removed unnoticed. */
  lemma NestedProvenanceIsUnseen(tools: Tools, entries: Entries, name: string, data: seq<byte>)
    requires Verifies(tools, entries) && BaseName(name) == PROVENANCE && name != PROVENANCE
    ensures Verifies(tools, entries[name := Plain(data)]) && Verifies(tools, entries - {name})
  {
    hide Accepted, BaseName;
    assert Visible(entries[name := Plain(data)]) == Visible(entries);
    assert Visible(entries - {name}) == Visible(entries);
  }

  /** There are such names. */
  lemma NestedNameExists()
    ensures BaseName("x/" + PROVENANCE) == PROVENANCE && "x/" + PROVENANCE != PROVENANCE
  {
    NoSlash(PROVENANCE);
    BaseNameBelow("x", PROVENANCE);
    assert "x/" + PROVENANCE == "x" + "/" + PROVENANCE;
  }

  lemma {:induction false} BaseNameBelow(directory: string, file: string)
    requires '/' !in file
    ensures BaseName(directory + "/" + file) == file
  {
    var path := directory + "/" + file;
    if file == "" {
      assert path[|path| - 1] == '/';
    } else {
      var init := file[..|file| - 1];
      assert path[..|path| - 1] == directory + "/" + init;
      assert forall i :: 0 <= i < |init| ==> init[i] == file[i];
      assert file[|file| - 1] in file;
      BaseNameBelow(directory, init);
      InitAndLast(file);
    }
  }

  /** Everywhere else a change is noticed: a file added, removed or altered under any other name. */
  lemma OtherChangesAreNoticed(tools: Tools, entries: Entries, name: string, data: seq<byte>)
    requires Verifies(tools, entries) && BaseName(name) != PROVENANCE
    requires name in entries ==> NoCollision(tools.sha, data, entries[name].data)
    ensures Verifies(tools, entries[name := Plain(data)]) <==> name in entries && entries[name] == Plain(data)
    ensures name in entries ==> !Verifies(tools, entries - {name})
  {
    hide Accepted, BaseName;
    TopLevelProvenance();
    var changed, removed := entries[name := Plain(data)], entries - {name};
    ChangesAreNoticed(tools, entries, changed);
    ChangesAreNoticed(tools, entries, removed);
    assert Visible(changed)[name] == data;
    if name in entries {
      assert name in Visible(entries) && name !in Visible(removed);
      assert Visible(entries)[name] == entries[name].data;
      if entries[name] == Plain(data) {
        assert changed == entries;
      }
    }
  }

  /** Refreshing again from the same source changes nothing. */
  lemma RefreshAgain(tools: Tools, entries: Entries, origin: Origin)
    requires Refreshable(tools, origin)
    ensures Refreshed(tools, Refreshed(tools, entries, origin), origin) == Refreshed(tools, entries, origin)
  {
    hide PublishedFiles, RecordOf, Refreshable;
    var once := Refreshed(tools, entries, origin);
    var twice := Refreshed(tools, once, origin);
    assert once.Keys == twice.Keys;
    assert forall n :: n in once ==> once[n] == twice[n];
  }
}
