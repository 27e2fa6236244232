/** What a dependency of the package resolves to, condition by condition. */
module PackageOutcomes {
  import opened Package
  import opened PackageDigest
  import PackageProofs
  import opened Sorting
  import opened Wrappers

  predicate Public(name: string) {
    name in ["libc", "nix", "serde", "serde_json", "tokio", "tracing", "tempfile"]
  }

  /** It asks for its workspace's entry: anything but an empty value does. */
  predicate Asks(d: Dependency) {
    d.Table? && "workspace" in d.fields && d.fields["workspace"] !in [Text(""), Flag(false), Strings([])]
  }

  predicate SelfContained(d: Dependency) {
    d.Table? ==> "path" !in d.fields && "git" !in d.fields
  }

  /** The features of an entry and of the dependency itself, in one sorted list without repetitions. */
  ghost predicate United(base: Option<Value>, own: Value, both: Value) {
    both.Strings? && Ascending(both.items)
    && match (base, own)
       case (None, Strings(mine)) => forall x :: x in both.items <==> x in mine
       case (Some(Strings(theirs)), Strings(mine)) => forall x :: x in both.items <==> x in theirs || x in mine
       case (Some(Text(theirs)), Text(mine)) => forall x :: x in both.items <==> |x| == 1 && (x[0] in theirs || x[0] in mine)
       case _ => false
  }

  /** The fields of a workspace entry with a dependency's own fields on top. */
  ghost predicate Merged(entry: Dependency, own: map<string, Value>, fields: map<string, Value>) {
    var base := match entry case Version(text) => map["version" := Text(text)] case Table(fields) => fields;
    && fields.Keys == base.Keys + (own.Keys - {"workspace"})
    && forall k :: k in fields ==>
         if k !in own || k == "workspace" then fields[k] == base[k]
         else if k == "features" then United(if k in base then Some(base[k]) else None, own[k], fields[k])
         else fields[k] == own[k]
  }

  /** A dependency resolves to this one: itself, its workspace's entry, or that entry with its own fields on top; only
      public ones do, and none that comes from elsewhere. */
  ghost predicate ResolvesTo(workspace: Section, name: string, d: Dependency, r: Dependency) {
    && Public(name) && SelfContained(r)
    && (if !Asks(d) then r == d
        else name in workspace
             && if d.fields.Keys == {"workspace"} then r == workspace[name]
                else r.Table? && Merged(workspace[name], d.fields, r.fields))
  }

  lemma ResolvesExactly(workspace: Section, name: string, d: Dependency, r: Dependency)
    ensures Resolved(workspace, name, d) == Some(r) <==> ResolvesTo(workspace, name, d, r)
  {
    hide Override, Overridable, Overridden, Merged;
    assert Inherits(d) <==> Asks(d);
    assert Public(name) <==> name in PUBLIC_DEPENDENCIES;
    if Asks(d) && name in workspace {
      var own, base := d.fields - {"workspace"}, BaseFields(workspace[name]);
      assert own == map[] <==> d.fields.Keys == {"workspace"} by {
        assert own == map[] <==> own.Keys == {};
        assert own.Keys == d.fields.Keys - {"workspace"};
      }
      if r.Table? {
        MergesExactly(workspace[name], d.fields, r.fields);
      }
    }
  }

  lemma MergesExactly(entry: Dependency, own: map<string, Value>, fields: map<string, Value>)
    ensures var base, overrides := BaseFields(entry), own - {"workspace"};
            Overridable(base, overrides) && Overridden(base, overrides) == fields <==> Merged(entry, own, fields)
  {
    hide Override, United;
    var base, overrides := BaseFields(entry), own - {"workspace"};
    if Overridable(base, overrides) {
      var all := Overridden(base, overrides);
      forall k | k in overrides && k in fields
        ensures Override(base, k, overrides[k]) == Some(fields[k]) <==>
                (if k == "features" then United(if k in base then Some(base[k]) else None, own[k], fields[k]) else fields[k] == own[k])
      {
        OverridesExactly(base, k, own[k], fields[k]);
      }
      if all == fields {
        assert Merged(entry, own, fields);
      }
      if Merged(entry, own, fields) {
        assert all.Keys == fields.Keys;
        assert forall k :: k in all ==> all[k] == fields[k];
      }
    } else {
      var k :| k in overrides && Override(base, k, overrides[k]).None?;
      if k in fields {
        OverridesExactly(base, k, own[k], fields[k]);
      }
    }
  }

  lemma OverridesExactly(base: map<string, Value>, name: string, own: Value, value: Value)
    ensures Override(base, name, own) == Some(value) <==>
            if name == "features" then United(if name in base then Some(base[name]) else None, own, value) else value == own
  {
    hide Sorted, Lists, Ascending, Less;
    if name == "features" && value.Strings? {
      var names := if name !in base then (if own.Strings? then set x | x in own.items else {})
                   else if base[name].Strings? && own.Strings? then set x | x in base[name].items + own.items
                   else if base[name].Text? && own.Text? then Letters(base[name].text + own.text) else {};
      SortedExactly(names, value.items);
      if name in base && base[name].Text? && own.Text? {
        LettersExactly(base[name].text + own.text);
      }
    }
  }

  lemma SortedExactly(names: set<string>, items: seq<string>)
    ensures Sorted(names) == items <==> Ascending(items) && forall x :: x in items <==> x in names
  {
    hide Ascending;
    if Lists(items, names) {
      ListsIsUnique(Sorted(names), items, names);
    }
  }

  lemma LettersExactly(text: string)
    ensures forall x :: x in Letters(text) <==> |x| == 1 && x[0] in text
  {
    forall x | |x| == 1 && x[0] in text ensures x in Letters(text) {
      assert x == [x[0]];
    }
  }

  // ---- what verification accepts ----

  /** A dependency the published manifest may have. */
  predicate Independent(name: string, d: Dependency) {
    Public(name) && (d.Table? ==> "path" !in d.fields && "git" !in d.fields && "workspace" !in d.fields)
  }

  /** The files verification looks at: all but those called provenance.json. */
  predicate Counts(entries: Entries, n: string) {
    n in entries && BaseName(n) != "provenance.json"
  }

  /** The record names exactly the files that count, with their digests, and the digest of all of them; the published
      sources are the original ones, except for the manifest. */
  ghost predicate Describes(tools: Tools, entries: Entries, record: Record)
    requires NoLinks(entries)
  {
    && record.schemaVersion == 1 && record.package == "candy-packet-port"
    && (forall n :: n in record.files <==> Counts(entries, n))
    && (forall n :: n in record.files ==> n in entries && record.files[n] == tools.sha(entries[n].data))
    && record.packageDigest == tools.sha(TreePreimage(tools.utf8, Visible(entries)))
    && forall n :: n in record.sourceFiles && n != "Cargo.toml" ==>
         Counts(entries, n) && tools.sha(entries[n].data) == record.sourceFiles[n]
  }

  /** A package is accepted exactly when it has no links, its provenance record describes it, and its manifest names
      independent dependencies only. */
  lemma VerifiesExactly(tools: Tools, entries: Entries)
    ensures Verifies(tools, entries) <==>
            && (forall n :: n in entries ==> entries[n].Plain?)
            && "provenance.json" in entries && "Cargo.toml" in entries
            && (exists record :: tools.decode(entries["provenance.json"].data) == Some(record) && Describes(tools, entries, record))
            && exists m :: tools.parse(entries["Cargo.toml"].data) == Some(m)
                           && (forall n :: n in m.dependencies ==> Independent(n, m.dependencies[n]))
                           && forall n :: n in m.devDependencies ==> Independent(n, m.devDependencies[n])
  {
    hide TreePreimage, BaseName;
    assert forall name: string :: Public(name) <==> name in PUBLIC_DEPENDENCIES;
    assert BaseName("Cargo.toml") != "provenance.json" by {
      PackageProofs.TopLevelProvenance();
    }
    if NoLinks(entries) && PROVENANCE in entries && tools.decode(entries[PROVENANCE].data).Some? {
      DescribedIs(tools, entries, tools.decode(entries[PROVENANCE].data).value);
    }
  }

  lemma DescribedIs(tools: Tools, entries: Entries, record: Record)
    requires NoLinks(entries)
    ensures Describes(tools, entries, record) <==>
            && record.schemaVersion == 1 && record.package == NAME && Digests(tools, Visible(entries)) == record.files
            && tools.sha(TreePreimage(tools.utf8, Visible(entries))) == record.packageDigest
            && SourcesMatch(tools, Visible(entries), record.sourceFiles)
  {
    hide TreePreimage, BaseName;
    var files := Visible(entries);
    assert forall n :: n in files <==> Counts(entries, n);
    var digests := Digests(tools, files);
    assert forall n :: n in digests ==> digests[n] == tools.sha(entries[n].data);
    if Describes(tools, entries, record) {
      assert digests.Keys == record.files.Keys;
      assert digests == record.files;
    }
  }
}
