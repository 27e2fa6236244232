/** The vendored public package: refreshed from the authoritative source, verified on its own. */
module Package {
  import opened Bytes
  import opened PackageDigest
  import opened Sorting
  import opened Wrappers

  const PROVENANCE := "provenance.json"
  const CARGO := "Cargo.toml"
  const NAME := "candy-packet-port"
  const PUBLIC_DEPENDENCIES := {"libc", "nix", "serde", "serde_json", "tokio", "tracing", "tempfile"}

  // ---- manifests ----

  datatype Value = Text(text: string) | Flag(on: bool) | Strings(items: seq<string>)

  datatype Dependency = Version(version: string) | Table(fields: map<string, Value>)

  type Section = map<string, Dependency>

  datatype Manifest = Manifest(dependencies: Section, devDependencies: Section)

  datatype Record = Record(
    schemaVersion: int, package: string, worktreeDigest: Bytes32, packageDigest: Bytes32,
    files: map<string, Bytes32>, sourceFiles: map<string, Bytes32>)

  /** SHA-256, UTF-8, and the TOML and JSON libraries. */
  datatype Tools = Tools(
    sha: seq<byte> -> Bytes32, utf8: string -> seq<byte>,
    render: Manifest -> seq<byte>, parse: seq<byte> -> Option<Manifest>,
    encode: Record -> seq<byte>, decode: seq<byte> -> Option<Record>)
  {
    ghost predicate RoundTrips() {
      && (forall m :: parse(render(m)) == Some(m))
      && forall r :: decode(encode(r)) == Some(r)
    }
  }

  predicate Truthy(v: Value) {
    match v
    case Text(t) => t != ""
    case Flag(on) => on
    case Strings(items) => items != []
  }

  predicate Inherits(d: Dependency) {
    d.Table? && "workspace" in d.fields && Truthy(d.fields["workspace"])
  }

  function Letters(text: string): set<string> {
    set c | c in text :: [c]
  }

  /** One overriding field on top of the workspace's: features are united, anything else replaces. Two texts
      are concatenated and taken for a list of letters. */
  ghost function Override(base: map<string, Value>, name: string, item: Value): Option<Value> {
    if name != "features" then Some(item)
    else if item.Text? && name in base && base[name].Text? then Some(Strings(Sorted(Letters(base[name].text + item.text))))
    else if !item.Strings? then None
    else if name !in base then Some(Strings(Sorted(set x | x in item.items)))
    else if !base[name].Strings? then None
    else Some(Strings(Sorted(set x | x in base[name].items + item.items)))
  }

  function BaseFields(base: Dependency): map<string, Value> {
    match base
    case Version(text) => map["version" := Text(text)]
    case Table(fields) => fields
  }

  ghost predicate Overridable(base: map<string, Value>, overrides: map<string, Value>) {
    forall k :: k in overrides ==> Override(base, k, overrides[k]).Some?
  }

  ghost function Overridden(base: map<string, Value>, overrides: map<string, Value>): map<string, Value>
    requires Overridable(base, overrides)
  {
    map k | k in base.Keys + overrides.Keys ::
      if k in overrides then Override(base, k, overrides[k]).value else base[k]
  }

  /** A workspace dependency with this manifest's own fields applied. */
  ghost function Inherited(workspace: Section, name: string, fields: map<string, Value>): Option<Dependency> {
    var overrides := fields - {"workspace"};
    if name !in workspace then None
    else if overrides == map[] then Some(workspace[name])
    else
      var base := BaseFields(workspace[name]);
      if Overridable(base, overrides) then Some(Table(Overridden(base, overrides))) else None
  }

  predicate Elsewhere(d: Dependency) {
    d.Table? && ("path" in d.fields || "git" in d.fields)
  }

  ghost function Resolved(workspace: Section, name: string, d: Dependency): Option<Dependency> {
    if name !in PUBLIC_DEPENDENCIES then None
    else
      var value := if Inherits(d) then Inherited(workspace, name, d.fields) else Some(d);
      if value.None? || Elsewhere(value.value) then None else value
  }

  ghost predicate Resolvable(workspace: Section, section: Section) {
    forall n :: n in section ==> Resolved(workspace, n, section[n]).Some?
  }

  ghost function ResolvedSection(workspace: Section, section: Section): Section
    requires Resolvable(workspace, section)
  {
    map n | n in section :: Resolved(workspace, n, section[n]).value
  }

  method OverrideField(base: map<string, Value>, name: string, item: Value) returns (value: Option<Value>)
    ensures value == Override(base, name, item)
  {
    hide Sorted;
    if name != "features" {
      return Some(item);
    }
    if item.Text? && name in base && base[name].Text? {
      var letters := Sort(Letters(base[name].text + item.text));
      return Some(Strings(letters));
    }
    if !item.Strings? || (name in base && !base[name].Strings?) {
      return None;
    }
    var both := if name in base then base[name].items + item.items else item.items;
    var united := Sort(set x | x in both);
    value := Some(Strings(united));
  }

  lemma OverrideLooksAtOne(a: map<string, Value>, b: map<string, Value>, name: string, item: Value)
    requires (name in a <==> name in b) && (name in a ==> a[name] == b[name])
    ensures Override(a, name, item) == Override(b, name, item)
  {
    hide Sorted;
  }

  /** A map taken apart into what is done and what is left to do. */
  ghost predicate Split<T>(all: map<string, T>, done: map<string, T>, todo: map<string, T>) {
    all == done + todo && done.Keys !! todo.Keys
  }

  lemma NoneMoved<T>(all: map<string, T>)
    ensures Split(all, map[], all)
  {
    assert map[] + all == all;
  }

  lemma AllMoved<T>(all: map<string, T>, done: map<string, T>)
    requires Split(all, done, map[])
    ensures done == all
  {
    assert done + map[] == done;
  }

  lemma MoveOver<T>(all: map<string, T>, done: map<string, T>, todo: map<string, T>, name: string)
    requires Split(all, done, todo) && name in todo
    ensures Split(all, done[name := todo[name]], todo - {name})
    ensures name !in done
  {
  }

  lemma OneMoreOverride(base: map<string, Value>, done: map<string, Value>, name: string, item: Value)
    requires Overridable(base, done) && name !in done
    ensures Overridable(base, done[name := item]) <==> Override(base, name, item).Some?
    ensures Override(base, name, item).Some? ==>
              Overridden(base, done[name := item]) == Overridden(base, done)[name := Override(base, name, item).value]
    ensures Override(Overridden(base, done), name, item) == Override(base, name, item)
  {
    hide Override;
    var more := done[name := item];
    assert forall k :: k in done ==> more[k] == done[k];
    assert more[name] == item;
    OverrideLooksAtOne(Overridden(base, done), base, name, item);
  }

  lemma NotOverridable(base: map<string, Value>, done: map<string, Value>, todo: map<string, Value>,
                       all: map<string, Value>)
    requires !Overridable(base, done) && Split(all, done, todo)
    ensures !Overridable(base, all)
  {
    hide Override;
  }

  method ApplyOverrides(base: map<string, Value>, overrides: map<string, Value>)
    returns (fields: Option<map<string, Value>>)
    ensures fields == if Overridable(base, overrides) then Some(Overridden(base, overrides)) else None
  {
    hide Override, Overridable, Overridden, Split;
    var result, todo := base, overrides;
    ghost var done: map<string, Value> := map[];
    NothingOverridden(base);
    NoneMoved(overrides);
    while todo != map[]
      invariant Overridable(base, done) && result == Overridden(base, done)
      invariant Split(overrides, done, todo)
      decreases |todo|
    {
      var name :| name in todo;
      MoveOver(overrides, done, todo, name);
      var value := OverrideField(result, name, todo[name]);
      OneMoreOverride(base, done, name, todo[name]);
      if value.None? {
        NotOverridable(base, done[name := todo[name]], todo - {name}, overrides);
        return None;
      }
      result := result[name := value.value];
      done := done[name := todo[name]];
      todo := todo - {name};
    }
    AllMoved(overrides, done);
    fields := Some(result);
  }

  lemma NothingOverridden(base: map<string, Value>)
    ensures Overridable(base, map[]) && Overridden(base, map[]) == base
  {
  }

  method Resolve(workspace: Section, name: string, d: Dependency) returns (value: Option<Dependency>)
    ensures value == Resolved(workspace, name, d)
  {
    hide Override, Truthy;
    if name !in PUBLIC_DEPENDENCIES {
      return None;
    }
    var found := d;
    if Inherits(d) {
      if name !in workspace {
        return None;
      }
      found := workspace[name];
      var overrides := d.fields - {"workspace"};
      if overrides != map[] {
        var fields := ApplyOverrides(BaseFields(found), overrides);
        if fields.None? {
          return None;
        }
        found := Table(fields.value);
      }
    }
    value := if Elsewhere(found) then None else Some(found);
  }

  method ResolveSection(workspace: Section, section: Section) returns (result: Option<Section>)
    ensures result == if Resolvable(workspace, section) then Some(ResolvedSection(workspace, section)) else None
  {
    hide Resolved;
    var resolved: Section, todo := map[], section.Keys;
    while todo != {}
      invariant todo <= section.Keys && resolved.Keys == section.Keys - todo
      invariant forall n :: n in resolved ==> Resolved(workspace, n, section[n]) == Some(resolved[n])
      decreases |todo|
    {
      var name :| name in todo;
      var value := Resolve(workspace, name, section[name]);
      if value.None? {
        return None;
      }
      resolved := resolved[name := value.value];
      todo := todo - {name};
    }
    assert Resolvable(workspace, section);
    assert resolved == ResolvedSection(workspace, section);
    result := Some(resolved);
  }

  predicate PublicDependency(name: string, d: Dependency) {
    name in PUBLIC_DEPENDENCIES
    && (d.Table? ==> "path" !in d.fields && "git" !in d.fields && "workspace" !in d.fields)
  }

  predicate PublicSection(section: Section) {
    forall n :: n in section ==> PublicDependency(n, section[n])
  }

  predicate PublicManifest(m: Manifest) {
    PublicSection(m.dependencies) && PublicSection(m.devDependencies)
  }

  /** No resolved dependency still speaks of a workspace. */
  predicate NoWorkspaceLeft(section: Section) {
    forall n :: n in section && section[n].Table? ==> "workspace" !in section[n].fields
  }

  lemma ResolvedIsPublic(workspace: Section, section: Section)
    requires Resolvable(workspace, section)
    ensures PublicSection(ResolvedSection(workspace, section)) <==> NoWorkspaceLeft(ResolvedSection(workspace, section))
  {
    hide Inherited, Inherits;
    var r := ResolvedSection(workspace, section);
    forall n | n in r ensures n in PUBLIC_DEPENDENCIES && !Elsewhere(r[n]) {
      assert Resolved(workspace, n, section[n]) == Some(r[n]);
    }
  }

  // ---- the package directory ----

  /** A regular file, or a symbolic link and what it reaches, if that is a file. */
  datatype Entry = Plain(data: seq<byte>) | Link(target: Option<seq<byte>>)

  type Entries = map<string, Entry>

  predicate IsFile(e: Entry) {
    e.Plain? || e.target.Some?
  }

  /** Writing goes through an existing link. */
  function Put(entries: Entries, name: string, data: seq<byte>): Entries {
    entries[name := if name in entries && entries[name].Link? then Link(Some(data)) else Plain(data)]
  }

  function Contents(e: Entry): Option<seq<byte>> {
    match e
    case Plain(data) => Some(data)
    case Link(target) => target
  }

  /** The last part of a path. */
  function BaseName(path: string): string {
    if path == "" || path[|path| - 1] == '/' then "" else BaseName(path[..|path| - 1]) + [path[|path| - 1]]
  }

  predicate NoLinks(entries: Entries) {
    forall n :: n in entries ==> entries[n].Plain?
  }

  /** What verification looks at: every file not called provenance.json, wherever it is. */
  function Visible(entries: Entries): Tree
    requires NoLinks(entries)
  {
    map n | n in entries && BaseName(n) != PROVENANCE :: entries[n].data
  }

  function Digests(tools: Tools, files: Tree): map<string, Bytes32> {
    map n | n in files :: tools.sha(files[n])
  }

  /** The authoritative crate: its manifest, its workspace's dependencies and its Rust sources. */
  datatype Origin = Origin(manifest: seq<byte>, workspace: Section, sources: Tree)

  predicate RustSources(sources: Tree) {
    forall n :: n in sources ==> |n| > 4 && n[..4] == "src/" && n[|n| - 1] == 's'
  }

  ghost predicate Refreshable(tools: Tools, origin: Origin) {
    && tools.parse(origin.manifest).Some?
    && Resolvable(origin.workspace, tools.parse(origin.manifest).value.dependencies)
    && Resolvable(origin.workspace, tools.parse(origin.manifest).value.devDependencies)
  }

  ghost function PublishedManifest(tools: Tools, origin: Origin): Manifest
    requires Refreshable(tools, origin)
  {
    var m := tools.parse(origin.manifest).value;
    Manifest(ResolvedSection(origin.workspace, m.dependencies), ResolvedSection(origin.workspace, m.devDependencies))
  }

  ghost function PublishedFiles(tools: Tools, origin: Origin): Tree
    requires Refreshable(tools, origin)
  {
    origin.sources[CARGO := tools.render(PublishedManifest(tools, origin))]
  }

  ghost function RecordOf(tools: Tools, origin: Origin): Record
    requires Refreshable(tools, origin)
  {
    var source, files := origin.sources[CARGO := origin.manifest], PublishedFiles(tools, origin);
    Record(1, NAME, tools.sha(TreePreimage(tools.utf8, source)), tools.sha(TreePreimage(tools.utf8, files)),
           Digests(tools, files), Digests(tools, source))
  }

  /** Stale files go, wherever they are; links that reach no file are not seen. */
  function Kept(entries: Entries, names: set<string>): Entries {
    map n | n in entries && (n in names || n == PROVENANCE || !IsFile(entries[n])) :: entries[n]
  }

  function PutAll(entries: Entries, files: Tree): Entries {
    map n | n in entries.Keys + files.Keys :: if n in files then Put(entries, n, files[n])[n] else entries[n]
  }

  ghost function Refreshed(tools: Tools, entries: Entries, origin: Origin): Entries
    requires Refreshable(tools, origin)
  {
    var files := PublishedFiles(tools, origin);
    Put(PutAll(Kept(entries, files.Keys), files), PROVENANCE, tools.encode(RecordOf(tools, origin)))
  }

  lemma NothingPut(entries: Entries)
    ensures PutAll(entries, map[]) == entries
  {
  }

  lemma OneMorePut(entries: Entries, done: Tree, name: string, data: seq<byte>)
    requires name !in done
    ensures PutAll(entries, done[name := data]) == Put(PutAll(entries, done), name, data)
  {
  }

  class PackageDirectory {
    var entries: Entries

    method Unlink(name: string)
      requires name in entries
      modifies this
      ensures entries == old(entries) - {name}
    {
      entries := entries - {name};
    }

    method WriteBytes(name: string, data: seq<byte>)
      modifies this
      ensures entries == Put(old(entries), name, data)
    {
      entries := Put(entries, name, data);
    }

    method RemoveStale(names: set<string>)
      modifies this
      ensures entries == Kept(old(entries), names)
    {
      var existing := set n | n in entries && IsFile(entries[n]);
      var todo := existing - names - {PROVENANCE};
      while todo != {}
        invariant todo <= entries.Keys && todo <= existing - names - {PROVENANCE}
        invariant entries.Keys == old(entries).Keys - (existing - names - {PROVENANCE} - todo)
        invariant forall n :: n in entries ==> entries[n] == old(entries)[n]
        decreases |todo|
      {
        var name :| name in todo;
        Unlink(name);
        todo := todo - {name};
      }
      assert entries == Kept(old(entries), names);
    }

    method WriteAll(files: Tree)
      modifies this
      ensures entries == PutAll(old(entries), files)
    {
      hide Put, PutAll, Split;
      var todo: Tree := files;
      ghost var done: Tree := map[];
      NothingPut(entries);
      NoneMoved(files);
      while todo != map[]
        invariant entries == PutAll(old(entries), done) && Split(files, done, todo)
        decreases |todo|
      {
        var name :| name in todo;
        MoveOver(files, done, todo, name);
        WriteBytes(name, todo[name]);
        OneMorePut(old(entries), done, name, todo[name]);
        done := done[name := todo[name]];
        todo := todo - {name};
      }
      AllMoved(files, done);
    }

    method Refresh(tools: Tools, origin: Origin) returns (ok: bool)
      modifies this
      ensures ok <==> Refreshable(tools, origin)
      ensures entries == if ok then Refreshed(tools, old(entries), origin) else old(entries)
    {
      hide Resolvable, ResolvedSection, Kept, PutAll, TreePreimage;
      var manifest := tools.parse(origin.manifest);
      if manifest.None? {
        return false;
      }
      var dependencies := ResolveSection(origin.workspace, manifest.value.dependencies);
      if dependencies.None? {
        return false;
      }
      var devDependencies := ResolveSection(origin.workspace, manifest.value.devDependencies);
      if devDependencies.None? {
        return false;
      }
      var source := origin.sources[CARGO := origin.manifest];
      var files := origin.sources[CARGO := tools.render(Manifest(dependencies.value, devDependencies.value))];
      RemoveStale(files.Keys);
      WriteAll(files);
      var worktreeDigest := TreeDigest(tools.sha, tools.utf8, source);
      var packageDigest := TreeDigest(tools.sha, tools.utf8, files);
      var provenance := Record(1, NAME, worktreeDigest, packageDigest, Digests(tools, files), Digests(tools, source));
      WriteBytes(PROVENANCE, tools.encode(provenance));
      ok := true;
    }

    method Verify(tools: Tools) returns (ok: bool)
      ensures ok <==> Verifies(tools, entries)
    {
      hide TreePreimage, PublicManifest;
      if PROVENANCE !in entries || Contents(entries[PROVENANCE]).None? {
        return false;
      }
      var record := tools.decode(Contents(entries[PROVENANCE]).value);
      if record.None? || record.value.schemaVersion != 1 || record.value.package != NAME {
        return false;
      }
      if !NoLinks(entries) {
        return false;
      }
      var files := Visible(entries);
      if Digests(tools, files) != record.value.files {
        return false;
      }
      var digest := TreeDigest(tools.sha, tools.utf8, files);
      if digest != record.value.packageDigest {
        return false;
      }
      if !SourcesMatch(tools, files, record.value.sourceFiles) {
        return false;
      }
      if CARGO !in files || tools.parse(files[CARGO]).None? {
        return false;
      }
      ok := PublicManifest(tools.parse(files[CARGO]).value);
    }
  }

  predicate SourcesMatch(tools: Tools, files: Tree, sources: map<string, Bytes32>) {
    forall n :: n in sources && n != CARGO ==> n in files && tools.sha(files[n]) == sources[n]
  }

  ghost predicate Accepted(tools: Tools, files: Tree, record: Record) {
    && record.schemaVersion == 1 && record.package == NAME
    && Digests(tools, files) == record.files
    && tools.sha(TreePreimage(tools.utf8, files)) == record.packageDigest
    && SourcesMatch(tools, files, record.sourceFiles)
    && CARGO in files && tools.parse(files[CARGO]).Some? && PublicManifest(tools.parse(files[CARGO]).value)
  }

  ghost predicate Verifies(tools: Tools, entries: Entries) {
    && PROVENANCE in entries && Contents(entries[PROVENANCE]).Some?
    && tools.decode(Contents(entries[PROVENANCE]).value).Some?
    && NoLinks(entries)
    && Accepted(tools, Visible(entries), tools.decode(Contents(entries[PROVENANCE]).value).value)
  }
}
