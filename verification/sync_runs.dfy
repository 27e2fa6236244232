/** What synchronisation keeps over any sequence of calls, replies and crashes. */
module SyncRuns {
  import opened Bytes
  import opened Catalogs
  import opened Delivery
  import opened DeliveryProofs
  import opened Host
  import opened Sync
  import opened Text
  import opened Wrappers

  type Trace = seq<Effect<StateFile, Message>>

  /** What the state file the run started with says about its delivery; nothing about a phase. */
  datatype Kept = Kept(etag: Option<string>, required: bool)

  function KeptBy(boot: Disk<StateFile>): Kept {
    Kept(Loaded(boot).etag, Loaded(boot).activationRequired)
  }

  /** This effect published the delivery the state describes. */
  ghost predicate Backs(e: Effect<StateFile, Message>, s: SyncState) {
    e.Send? && e.message.Publish?
    && s.etag == Some(e.message.etag)
    && s.publicationId == Some(e.message.configuration.publicationId)
    && s.contentHash == Some(e.message.configuration.projectionContentHash)
    && s.activationPhase == Some(e.message.configuration.activationPhase)
  }

  /** A stored ETag stands for one delivery that was verified and published here, and the stored
      publication id, content hash and phase are that delivery's; or it is the one kept from a file
      written before phases were stored, and says nothing about a phase. */
  ghost predicate Belongs(kept: Kept, t: Trace, s: SyncState) {
    && (s.etag.Some? ==> (exists i :: 0 <= i < |t| && Backs(t[i], s)) || Unphased(kept, s))
    && (s.etag.Some? && s.activationRequired ==> s.activationPhase == Some("commit") || Unphased(kept, s))
  }

  predicate Unphased(kept: Kept, s: SyncState) {
    s.etag == kept.etag && s.activationPhase.None? && (s.activationRequired ==> kept.required)
  }

  ghost predicate Commits(e: Effect<StateFile, Message>, tag: string) {
    e.Send? && e.message.Publish? && e.message.etag == tag && e.message.configuration.activationPhase == "commit"
  }

  ghost predicate Committed(t: Trace, tag: string) {
    exists i :: 0 <= i < |t| && Commits(t[i], tag)
  }

  /** The file the run started with already waited for this activation. */
  predicate Inherited(kept: Kept, tag: string) {
    kept.required && kept.etag == Some(tag)
  }

  /** What may happen after `t`. */
  ghost predicate Sound(kept: Kept, sha: seq<byte> -> Bytes32, t: Trace, e: Effect<StateFile, Message>) {
    match e
    case Replace(name, file) =>
      name == STATE_FILE && file.Parsed? && file.state.schemaVersion == 1 && Belongs(kept, t, file.state)
    case Remove(_) => false
    case Send(m) =>
      && (m.Report? && m.reported.Active? ==> Committed(t, m.etag) || Inherited(kept, m.etag))
      && (m.Publish? ==> WellPublished(sha, m))
  }

  ghost predicate WellPublished(sha: seq<byte> -> Bytes32, m: Message)
    requires m.Publish?
  {
    ValidConfiguration(m.configuration) && DecodedFrom(m.configuration, m.objects)
    && m.etag == EtagOf(sha, m.configuration, m.objects)
  }

  ghost predicate AllSound(kept: Kept, sha: seq<byte> -> Bytes32, t: Trace, es: Trace) {
    forall k :: 0 <= k < |es| ==> Sound(kept, sha, t + es[..k], es[k])
  }

  lemma BelongsStays(kept: Kept, t: Trace, x: Trace, s: SyncState)
    requires Belongs(kept, t, s)
    ensures Belongs(kept, t + x, s)
  {
    hide Backs;
    if i :| 0 <= i < |t| && Backs(t[i], s) {
      assert (t + x)[i] == t[i];
    }
  }

  lemma CommittedStays(t: Trace, x: Trace, tag: string)
    requires Committed(t, tag)
    ensures Committed(t + x, tag)
  {
    hide Commits;
    var i :| 0 <= i < |t| && Commits(t[i], tag);
    assert (t + x)[i] == t[i];
  }

  lemma SoundStays(kept: Kept, sha: seq<byte> -> Bytes32, t: Trace, x: Trace, e: Effect<StateFile, Message>)
    requires Sound(kept, sha, t, e)
    ensures Sound(kept, sha, t + x, e)
  {
    hide Belongs, Committed, WellPublished;
    match e
    case Replace(_, file) => BelongsStays(kept, t, x, file.state);
    case Send(m) => if m.Report? && m.reported.Active? && Committed(t, m.etag) { CommittedStays(t, x, m.etag); }
  }

  /** Effects that are each sound at the start are sound in turn. */
  lemma {:induction false} EachSound(kept: Kept, sha: seq<byte> -> Bytes32, t: Trace, es: Trace)
    requires forall k :: 0 <= k < |es| ==> Sound(kept, sha, t, es[k])
    ensures AllSound(kept, sha, t, es)
  {
    hide Sound;
    forall k | 0 <= k < |es| ensures Sound(kept, sha, t + es[..k], es[k]) {
      SoundStays(kept, sha, t, es[..k], es[k]);
    }
  }

  lemma SoundInTurn(kept: Kept, sha: seq<byte> -> Bytes32, t: Trace, a: Trace, b: Trace)
    requires AllSound(kept, sha, t, a) && AllSound(kept, sha, t + a, b)
    ensures AllSound(kept, sha, t, a + b)
  {
    hide Sound;
    var es := a + b;
    forall k | 0 <= k < |es| ensures Sound(kept, sha, t + es[..k], es[k]) {
      if k < |a| {
        assert es[..k] == a[..k];
      } else {
        assert es[..k] == a + b[..k - |a|];
        Assoc(t, a, b[..k - |a|]);
      }
    }
  }

  lemma SoundUpTo(kept: Kept, sha: seq<byte> -> Bytes32, t: Trace, es: Trace, cut: nat)
    requires AllSound(kept, sha, t, es)
    ensures AllSound(kept, sha, t, UpTo(es, cut))
  {
    hide Sound;
    var done := UpTo(es, cut);
    forall k | 0 <= k < |done| ensures Sound(kept, sha, t + done[..k], done[k]) {
      assert done[..k] == es[..k];
    }
  }

  /** The state file stays readable and true through sound effects. */
  lemma {:induction false} StateStaysTrue(kept: Kept, sha: seq<byte> -> Bytes32, disk: Disk<StateFile>, t: Trace, es: Trace)
    requires AllSound(kept, sha, t, es) && Readable(disk) && Belongs(kept, t, Loaded(disk))
    ensures Readable(ApplyAll(disk, es)) && Belongs(kept, t + es, Loaded(ApplyAll(disk, es)))
    decreases |es|
  {
    hide Belongs, WellPublished, Committed;
    if es == [] {
      assert t + es == t;
    } else {
      var init, last := es[..|es| - 1], es[|es| - 1];
      assert UpTo(es, |es| - 1) == init;
      SoundUpTo(kept, sha, t, es, |es| - 1);
      StateStaysTrue(kept, sha, disk, t, init);
      InitAndLast(es);
      Assoc(t, init, [last]);
      assert Sound(kept, sha, t + init, last);
      if last.Replace? {
        BelongsStays(kept, t + init, [last], last.content.state);
      } else {
        BelongsStays(kept, t + init, [last], Loaded(ApplyAll(disk, init)));
      }
    }
  }

  // ---- one pass ----

  lemma WithoutEtagBelongs(kept: Kept, t: Trace, s: SyncState)
    requires s.etag.None?
    ensures Belongs(kept, t, s)
  {
  }

  /** Fields that say nothing about the delivery may change freely. */
  lemma SameDeliveryBelongs(kept: Kept, t: Trace, s: SyncState, r: SyncState)
    requires Belongs(kept, t, s) && r.etag == s.etag && r.publicationId == s.publicationId && r.contentHash == s.contentHash
    requires r.activationPhase == s.activationPhase && (r.activationRequired ==> s.activationRequired)
    ensures Belongs(kept, t, r)
  {
    if i :| 0 <= i < |t| && Backs(t[i], s) {
      assert Backs(t[i], r);
    }
  }

  lemma CommitIsCommitted(kept: Kept, t: Trace, s: SyncState)
    requires Belongs(kept, t, s) && s.etag.Some? && s.activationPhase == Some("commit")
    ensures Committed(t, s.etag.value)
  {
    var i :| 0 <= i < |t| && Backs(t[i], s);
    assert Commits(t[i], s.etag.value);
  }

  lemma OpenedBelongs(kept: Kept, t: Trace, w: World, s: SyncState)
    requires Belongs(kept, t, s)
    ensures Belongs(kept, t, Opened(w, s))
  {
    hide Belongs;
    if Opened(w, s) != s {
      WithoutEtagBelongs(kept, t, Opened(w, s));
    }
  }

  /** Settling reports only what the stored ETag stands for. */
  lemma SettlingSound(kept: Kept, sha: seq<byte> -> Bytes32, t: Trace, w: World, s: SyncState)
    requires Belongs(kept, t, s) && s.schemaVersion == 1
    ensures AllSound(kept, sha, t, Settling(w, s)) && Belongs(kept, t, SettledState(w, s)) && SettledState(w, s).schemaVersion == 1
    ensures SettledState(w, s).etag == s.etag
  {
    hide Belongs, Committed;
    SameDeliveryBelongs(kept, t, s, SettledState(w, s));
    if Finished(w, s).Some? {
      RequiredIsCommitted(kept, t, s);
    }
    EachSound(kept, sha, t, Settling(w, s));
  }

  lemma RequiredIsCommitted(kept: Kept, t: Trace, s: SyncState)
    requires Belongs(kept, t, s) && s.etag.Some? && s.activationRequired
    ensures Committed(t, s.etag.value) || Inherited(kept, s.etag.value)
  {
    if s.activationPhase == Some("commit") {
      CommitIsCommitted(kept, t, s);
    }
  }

  lemma NotModifiedSound(kept: Kept, sha: seq<byte> -> Bytes32, t: Trace, w: World, s: SyncState, tag: Option<string>, allow: bool)
    requires Belongs(kept, t, s) && s.schemaVersion == 1
    ensures AllSound(kept, sha, t, OnNotModified(w, s, tag, allow).effects)
  {
    hide Belongs, Committed, ValidEtag;
    var es := OnNotModified(w, s, tag, allow).effects;
    WithoutEtagBelongs(kept, t, Unsynchronised(s));
    WithoutEtagBelongs(kept, t, Unsynchronised(s).(activationPhase := None));
    WithoutEtagBelongs(kept, t, Unsynchronised(s).(rejectedEtag := None, rejectedAt := None));
    var at := if s.rejectedAt.Some? then s.rejectedAt.value else w.now;
    SameDeliveryBelongs(kept, t, s, s.(rejectedAt := Some(at)));
    if s.etag.Some? && s.activationPhase == Some("commit") {
      CommitIsCommitted(kept, t, s);
    }
    EachSound(kept, sha, t, es);
  }

  lemma PublishedBacks(kept: Kept, t: Trace, e: Effect<StateFile, Message>, s: SyncState)
    requires Backs(e, s) && (s.activationRequired ==> s.activationPhase == Some("commit"))
    ensures Belongs(kept, t + [e], s)
  {
    assert (t + [e])[|t|] == e;
  }

  lemma AcceptedSound(kept: Kept, sha: seq<byte> -> Bytes32, t: Trace, w: World, s: SyncState, tag: string, digest: string,
                      c: Configuration, o: Objects)
    requires ValidConfiguration(c) && DecodedFrom(c, o) && EtagOf(sha, c, o) == tag && s.schemaVersion == 1
    requires c.activationPhase in ["prepare", "commit"]
    ensures AllSound(kept, sha, t, OnAccepted(w, s, tag, digest, c, o).effects)
  {
    hide Belongs, Committed, ValidConfiguration, DecodedFrom, EtagOf;
    var es := OnAccepted(w, s, tag, digest, c, o).effects;
    var publish, rest := es[0], es[1..];
    PublishedBacks(kept, t, publish, rest[1].content.state);
    assert Sound(kept, sha, t, publish);
    EachSound(kept, sha, t, [publish]);
    EachSound(kept, sha, t + [publish], rest);
    SoundInTurn(kept, sha, t, [publish], rest);
    assert [publish] + rest == es;
  }

  lemma GrantsSound(kept: Kept, sha: seq<byte> -> Bytes32, t: Trace, w: World, s: SyncState, tag: string, digest: string,
                    c: Configuration, o: Objects, allow: bool)
    requires ValidConfiguration(c) && DecodedFrom(c, o) && EtagOf(sha, c, o) == tag && s.schemaVersion == 1
    requires c.activationPhase in ["prepare", "commit"]
    ensures AllSound(kept, sha, t, OnGrants(w, s, tag, digest, c, o, allow).effects)
  {
    hide Belongs, Committed, ValidConfiguration, DecodedFrom, EtagOf, OnAccepted;
    if w.grants.Resolved? {
      AcceptedSound(kept, sha, t, w, s, tag, digest, c, o);
    } else {
      WithoutEtagBelongs(kept, t, s.(etag := None, rejectedEtag := None, rejectedAt := None));
      EachSound(kept, sha, t, OnGrants(w, s, tag, digest, c, o, allow).effects);
    }
  }

  lemma PhaseIsKnown(c: Configuration)
    requires ValidConfiguration(c)
    ensures c.activationPhase in ["prepare", "commit"]
  {
  }

  lemma ReplySound(kept: Kept, sha: seq<byte> -> Bytes32, t: Trace, w: World, s: SyncState, allow: bool)
    requires Belongs(kept, t, s) && s.schemaVersion == 1
    ensures AllSound(kept, sha, t, OnReply(sha, w, s, allow).effects)
  {
    hide Belongs, Committed, ValidConfiguration, DecodedFrom, EtagOf, OnGrants, OnNotModified, ValidEtag;
    match w.reply
    case NoContent =>
      WithoutEtagBelongs(kept, t, OnNoContent(s).effects[1].content.state);
      EachSound(kept, sha, t, OnNoContent(s).effects);
    case NotModified(tag) => NotModifiedSound(kept, sha, t, w, s, tag, allow);
    case Delivered(tag, body) =>
      var p := OnDelivered(sha, w, s, tag, body, allow);
      if tag.Some? && ValidEtag(tag.value) && body.Some? && ValidConfiguration(body.value.0)
         && DecodedFrom(body.value.0, body.value.1) && EtagOf(sha, body.value.0, body.value.1) == tag.value
         && w.control.Accepted? && w.compatibility.Accepted? && w.discovery.Accepted?
      {
        PhaseIsKnown(body.value.0);
        EtagLength(tag.value);
        GrantsSound(kept, sha, t, w, s, tag.value, tag.value[8..72], body.value.0, body.value.1, allow);
      } else {
        EachSound(kept, sha, t, p.effects);
      }
    case OtherStatus => EachSound(kept, sha, t, []);
  }

  lemma PassSound(kept: Kept, sha: seq<byte> -> Bytes32, t: Trace, disk: Disk<StateFile>, w: World, allow: bool)
    requires Readable(disk) && Belongs(kept, t, Loaded(disk))
    ensures AllSound(kept, sha, t, Pass(sha, disk, w, allow).effects)
  {
    hide Belongs, Sound, Settling, SettledState, OnReply, Opened, ValidEtag;
    var s := Opened(w, Loaded(disk));
    OpenedBelongs(kept, t, w, Loaded(disk));
    OpenedSchema(w, Loaded(disk));
    SettlingSound(kept, sha, t, w, s);
    var settling, settled := Settling(w, s), SettledState(w, s);
    var get := [Send(Get(settled.etag))];
    var reply := OnReply(sha, w, settled, allow).effects;
    GetSound(kept, sha, t + settling, settled.etag);
    BelongsStays(kept, t, settling, settled);
    BelongsStays(kept, t + settling, get, settled);
    ReplySound(kept, sha, (t + settling) + get, w, settled, allow);
    SoundInTurn(kept, sha, t + settling, get, reply);
    SoundInTurn(kept, sha, t, settling, get + reply);
  }

  lemma OpenedSchema(w: World, s: SyncState)
    ensures Opened(w, s).schemaVersion == s.schemaVersion
  {
  }

  lemma GetSound(kept: Kept, sha: seq<byte> -> Bytes32, t: Trace, tag: Option<string>)
    ensures AllSound(kept, sha, t, [Send(Get(tag))])
  {
    EachSound(kept, sha, t, [Send(Get(tag))]);
  }

  lemma {:induction false} SynchronisedSound(kept: Kept, sha: seq<byte> -> Bytes32, t: Trace, disk: Disk<StateFile>, w: World,
                                             retry: World, allow: bool)
    requires Readable(disk) && Belongs(kept, t, Loaded(disk))
    ensures AllSound(kept, sha, t, Synchronised(sha, disk, w, retry, allow).effects)
    decreases allow
  {
    hide Belongs, Sound, Pass;
    var first := Pass(sha, disk, w, allow);
    PassSound(kept, sha, t, disk, w, allow);
    if first.again {
      StateStaysTrue(kept, sha, disk, t, first.effects);
      var after := ApplyAll(disk, first.effects);
      SynchronisedSound(kept, sha, t + first.effects, after, retry, retry, false);
      SoundInTurn(kept, sha, t, first.effects, Synchronised(sha, after, retry, retry, false).effects);
    }
  }

  // ---- runs ----

  datatype Call = Call(world: World, retry: World, cut: nat)

  function Steps(sha: seq<byte> -> Bytes32, disk: Disk<StateFile>, c: Call): Trace {
    UpTo(Synchronised(sha, disk, c.world, c.retry, true).effects, c.cut)
  }

  function Run(sha: seq<byte> -> Bytes32, boot: Disk<StateFile>, calls: seq<Call>): Trace {
    if calls == [] then [] else
      var before := Run(sha, boot, calls[..|calls| - 1]);
      before + Steps(sha, ApplyAll(boot, before), calls[|calls| - 1])
  }

  /** Where a run starts: without a state file, or with one from before phases were stored. */
  ghost predicate Upgraded(boot: Disk<StateFile>) {
    Readable(boot) && (Loaded(boot).etag.Some? ==> Loaded(boot).activationPhase.None?)
  }

  /** Over every run from such a start: the stored ETag always belongs to the
      stored publication id, content hash and phase, also after a crash. */
  lemma {:induction false} StoredEtagBelongs(sha: seq<byte> -> Bytes32, boot: Disk<StateFile>, calls: seq<Call>)
    requires Upgraded(boot)
    ensures var t := Run(sha, boot, calls); var disk := ApplyAll(boot, t); var kept := KeptBy(boot);
            Readable(disk) && Belongs(kept, t, Loaded(disk)) && AllSound(kept, sha, [], t)
  {
    hide Belongs, Sound, Synchronised;
    var kept := KeptBy(boot);
    if calls == [] {
      StartBelongs(boot);
    } else {
      var before, c := Run(sha, boot, calls[..|calls| - 1]), calls[|calls| - 1];
      StoredEtagBelongs(sha, boot, calls[..|calls| - 1]);
      var disk := ApplyAll(boot, before);
      var es := Steps(sha, disk, c);
      SynchronisedSound(kept, sha, before, disk, c.world, c.retry, true);
      SoundUpTo(kept, sha, before, Synchronised(sha, disk, c.world, c.retry, true).effects, c.cut);
      StateStaysTrue(kept, sha, disk, before, es);
      ApplyInTurn(boot, before, es);
      assert [] + before == before;
      SoundInTurn(kept, sha, [], before, es);
    }
  }

  lemma StartBelongs(boot: Disk<StateFile>)
    requires Upgraded(boot)
    ensures Belongs(KeptBy(boot), [], Loaded(boot))
  {
  }

  /** One ETag has one phase. */
  lemma EtagHasOnePhase(sha: seq<byte> -> Bytes32, c: Configuration, o: Objects, d: Configuration, p: Objects)
    requires ValidConfiguration(c) && ValidConfiguration(d) && Hashable(c) && Hashable(d) && ToldApart(sha, c, o, d, p)
    requires DecodedFrom(c, o) && DecodedFrom(d, p) && EtagOf(sha, c, o) == EtagOf(sha, d, p)
    ensures c.activationPhase == d.activationPhase
  {
    hide ValidConfiguration, DecodedFrom, DeliveryDigest, HexCatalog, HexGenerations, HexKeys, CanonicalHex, ToldApart;
    var x, y := DeliveryDigest(sha, c, o), DeliveryDigest(sha, d, p);
    var head := "\"sha256-";
    assert EtagOf(sha, c, o)[|head|..|head| + |x|] == x;
    assert EtagOf(sha, d, p)[|head|..|head| + |y|] == y;
    DigestLength(sha, c, o);
    DigestLength(sha, d, p);
    DigestNamesDelivery(sha, c, o, d, p);
  }

  lemma DigestLength(sha: seq<byte> -> Bytes32, c: Configuration, o: Objects)
    requires HexCatalog(c.catalog) && HexGenerations(c.compatibility)
    requires CanonicalHex(c.routePublicKey, 32) && HexKeys(c.grantKeys)
    ensures |DeliveryDigest(sha, c, o)| == 64
  {
  }

  lemma ValidIsHashable(c: Configuration)
    requires ValidConfiguration(c)
    ensures Hashable(c)
  {
    hide ValidConfiguration;
    ValidIsHex(c);
  }

  ghost predicate Publishes(e: Effect<StateFile, Message>) {
    e.Send? && e.message.Publish? && Hashable(e.message.configuration)
  }

  /** The hash tells the deliveries published in a run apart. */
  ghost predicate AllToldApart(sha: seq<byte> -> Bytes32, t: Trace) {
    forall k, j :: 0 <= k < |t| && 0 <= j < |t| && Publishes(t[k]) && Publishes(t[j]) ==>
      ToldApart(sha, t[k].message.configuration, t[k].message.objects, t[j].message.configuration, t[j].message.objects)
  }

  /** No run reports `active` for a delivery whose phase is `prepare`: every delivery published under the
      reported ETag, before or after the report, is in the commit phase, unless the run began with a file
      without phases that already waited for the activation of that ETag. */
  lemma ActiveOnlyAfterCommitPhase(sha: seq<byte> -> Bytes32, boot: Disk<StateFile>, calls: seq<Call>, i: nat, j: nat)
    requires Upgraded(boot) && AllToldApart(sha, Run(sha, boot, calls))
    requires var t := Run(sha, boot, calls);
             && i < |t| && t[i].Send? && t[i].message.Report? && t[i].message.reported.Active?
             && j < |t| && t[j].Send? && t[j].message.Publish? && t[j].message.etag == t[i].message.etag
    ensures Run(sha, boot, calls)[j].message.configuration.activationPhase == "commit"
            || Inherited(KeptBy(boot), Run(sha, boot, calls)[i].message.etag)
  {
    hide Belongs, EtagOf, Run, ValidConfiguration, DecodedFrom, ToldApart, Hashable;
    var t, kept := Run(sha, boot, calls), KeptBy(boot);
    StoredEtagBelongs(sha, boot, calls);
    assert Sound(kept, sha, [] + t[..i], t[i]) && Sound(kept, sha, [] + t[..j], t[j]);
    assert [] + t[..i] == t[..i];
    if !Inherited(kept, t[i].message.etag) {
      var k :| 0 <= k < |t[..i]| && Commits(t[..i][k], t[i].message.etag);
      assert t[..i][k] == t[k];
      assert Sound(kept, sha, [] + t[..k], t[k]);
      ValidIsHashable(t[k].message.configuration);
      ValidIsHashable(t[j].message.configuration);
      EtagHasOnePhase(sha, t[k].message.configuration, t[k].message.objects,
                      t[j].message.configuration, t[j].message.objects);
    }
  }

  /** A file without a phase that waits for the activation of `tag`. */
  function WaitingFile(tag: string): Disk<StateFile> {
    map[STATE_FILE := Parsed(FreshState().(etag := Some(tag), activationRequired := true))]
  }

  function Met(receipt: Option<Activation>, reply: Reply): World {
    World(false, None, receipt, receipt.Some?, None, false, reply, true, false, 0, Accepted, Accepted, Accepted, Resolved, true)
  }

  /** First a committed receipt is found, then the delivery of that ETag arrives. */
  function ReceiptThenDelivery(tag: string, c: Configuration, o: Objects): seq<Call> {
    var first := Met(Some(Activation(tag, c.publicationId, c.projectionContentHash, true)), OtherStatus);
    var second := Met(None, Delivered(Some(tag), Some((c, o))));
    [Call(first, first, 10), Call(second, second, 10)]
  }

  lemma DigestIsHex(sha: seq<byte> -> Bytes32, c: Configuration, o: Objects)
    requires Hashable(c)
    ensures CanonicalHex(DeliveryDigest(sha, c, o), 32)
  {
    hide Hex, DeliveryPreimage, ObjectsPreimage, CanonicalHex;
    HexIsCanonical(sha(DeliveryPreimage(c, sha(ObjectsPreimage(c, o)))));
  }

  /** The receipt is reported, and the file is as before. */
  lemma FirstCallReports(sha: seq<byte> -> Bytes32, c: Configuration, o: Objects)
    requires ValidConfiguration(c)
    ensures var tag := EtagOf(sha, c, o); var boot := WaitingFile(tag);
            var es := Steps(sha, boot, ReceiptThenDelivery(tag, c, o)[0]);
            && ApplyAll(boot, es) == boot && |es| == 5
            && es[1] == Send(Report(tag, c.publicationId, c.projectionContentHash, Active))
  {
    hide ValidConfiguration, EtagOf, ValidEtag;
    EtagIsValid(sha, c, o);
    var tag := EtagOf(sha, c, o);
    var boot, w := WaitingFile(tag), ReceiptThenDelivery(tag, c, o)[0].world;
    var s := boot[STATE_FILE].state;
    var done: Trace := [Send(Promote(tag)), Send(Report(tag, c.publicationId, c.projectionContentHash, Active)),
                        Send(ClearReceipt), Save(s)];
    assert Settling(w, s) == done;
    assert Pass(sha, boot, w, true).effects == done + ([Send(Get(s.etag))] + []);
    assert done + ([Send(Get(s.etag))] + []) == done[..3] + [Save(s)] + [Send(Get(s.etag))];
    SendsKeep(boot, done[..3]);
    ApplyOneMore(boot, done[..3], Save(s));
    ApplyOneMore(boot, done[..3] + [Save(s)], Send(Get(s.etag)));
    assert boot[STATE_FILE := Parsed(s)] == boot;
  }

  lemma {:induction false} SendsKeep(disk: Disk<StateFile>, es: Trace)
    requires forall i :: 0 <= i < |es| ==> es[i].Send?
    ensures ApplyAll(disk, es) == disk
  {
    if es != [] {
      SendsKeep(disk, es[..|es| - 1]);
    }
  }

  lemma SecondCallPublishes(sha: seq<byte> -> Bytes32, c: Configuration, o: Objects)
    requires ValidConfiguration(c) && DecodedFrom(c, o) && c.activationPhase == "prepare"
    ensures var tag := EtagOf(sha, c, o);
            var es := Steps(sha, WaitingFile(tag), ReceiptThenDelivery(tag, c, o)[1]);
            |es| == 5 && es[1] == Send(Publish(tag, c, o, false))
  {
    hide ValidConfiguration, DecodedFrom, EtagOf, ValidEtag, ApplyAll;
    EtagIsValid(sha, c, o);
    var tag := EtagOf(sha, c, o);
    var boot, w := WaitingFile(tag), ReceiptThenDelivery(tag, c, o)[1].world;
    assert Settling(w, boot[STATE_FILE].state) == [];
    EtagLength(tag);
    var reply := OnAccepted(w, boot[STATE_FILE].state, tag, tag[8..72], c, o);
    assert Pass(sha, boot, w, true).effects == [] + ([Send(Get(Some(tag)))] + reply.effects);
  }

  lemma EtagIsValid(sha: seq<byte> -> Bytes32, c: Configuration, o: Objects)
    requires ValidConfiguration(c)
    ensures ValidEtag(EtagOf(sha, c, o))
  {
    hide ValidConfiguration, CanonicalHex, DeliveryDigest;
    var tag := EtagOf(sha, c, o);
    var head := "\"sha256-";
    ValidIsHex(c);
    var digest := DeliveryDigest(sha, c, o);
    DigestIsHex(sha, c, o);
    assert |head| == 8 && tag == head + digest + "\"";
    assert tag[..8] == head && tag[8..72] == digest;
  }

  /** The exception is real: from such a file the receipt is believed, although every delivery of that
      ETag, whichever it is, has phase prepare. */
  lemma InheritedIsBelieved(sha: seq<byte> -> Bytes32, c: Configuration, o: Objects)
    requires ValidConfiguration(c) && DecodedFrom(c, o) && c.activationPhase == "prepare"
    ensures var tag := EtagOf(sha, c, o); var boot := WaitingFile(tag);
            var t := Run(sha, boot, ReceiptThenDelivery(tag, c, o));
            && Upgraded(boot)
            && (exists i :: 0 <= i < |t| && t[i].Send? && t[i].message.Report? && t[i].message.reported.Active?
                            && t[i].message.etag == tag)
            && exists j :: 0 <= j < |t| && t[j].Send? && t[j].message.Publish? && t[j].message.etag == tag
                           && t[j].message.configuration.activationPhase == "prepare"
  {
    hide ValidConfiguration, DecodedFrom, EtagOf, Steps;
    var tag := EtagOf(sha, c, o);
    var boot, calls := WaitingFile(tag), ReceiptThenDelivery(tag, c, o);
    FirstCallReports(sha, c, o);
    SecondCallPublishes(sha, c, o);
    var first, second := Steps(sha, boot, calls[0]), Steps(sha, boot, calls[1]);
    assert calls[..1] == [calls[0]] && calls[..1][..0] == [];
    assert ApplyAll<StateFile, Message>(boot, []) == boot;
    assert Run(sha, boot, []) == [];
    assert Run(sha, boot, [calls[0]]) == [] + first == first;
    assert Run(sha, boot, calls) == first + second;
    assert (first + second)[1] == first[1] && (first + second)[|first| + 1] == second[1];
  }

  /** A 304 to an ETag kept from before phases were stored reports nothing and leads to an unconditional
      request instead. */
  lemma UnphasedAsksAgain(sha: seq<byte> -> Bytes32, disk: Disk<StateFile>, w: World)
    requires Readable(disk) && Loaded(disk).etag.Some? && Loaded(disk).activationPhase.None?
    requires Finished(w, Loaded(disk)).None? && Opened(w, Loaded(disk)) == Loaded(disk) && ValidEtag(Loaded(disk).etag.value)
    requires w.reply == NotModified(Loaded(disk).etag) && Loaded(disk).rejectedEtag != Loaded(disk).etag
    ensures var p := Pass(sha, disk, w, true);
            && p.again && Loaded(ApplyAll(disk, p.effects)).etag.None?
            && forall i :: 0 <= i < |p.effects| && p.effects[i].Send? ==> !p.effects[i].message.Report?
  {
    hide ValidEtag, ApplyAll;
    var s := Loaded(disk);
    var asked := [Send(Get(s.etag))];
    var kept := asked + [Save(Unsynchronised(s))];
    ApplyOneMore(disk, asked, Save(Unsynchronised(s)));
    assert Unsynchronised(s).(activationPhase := None) == Unsynchronised(s);
    assert Settling(w, s) == [];
    var p := Pass(sha, disk, w, true);
    if s.activationRequired && (!w.candidateMatches || w.grantDue) {
      assert p.effects == [] + (asked + [Save(Unsynchronised(s)), Send(LocalStatus(RevalidationRequired))]);
      assert p.effects == kept + [Send(LocalStatus(RevalidationRequired))];
      ApplyOneMore(disk, kept, Send(LocalStatus(RevalidationRequired)));
    } else {
      assert p.effects == [] + kept == kept;
    }
  }

  // ---- the retry ----

  function Gets(es: Trace): nat {
    if es == [] then 0
    else Gets(es[..|es| - 1]) + if es[|es| - 1].Send? && es[|es| - 1].message.Get? then 1 else 0
  }

  lemma {:induction false} GetsAdd(a: Trace, b: Trace)
    ensures Gets(a + b) == Gets(a) + Gets(b)
  {
    if b == [] {
      assert a + b == a;
    } else {
      assert (a + b)[..|a + b| - 1] == a + b[..|b| - 1];
      GetsAdd(a, b[..|b| - 1]);
    }
  }

  lemma {:induction false} NoGets(es: Trace)
    requires forall i :: 0 <= i < |es| && es[i].Send? ==> !es[i].message.Get?
    ensures Gets(es) == 0
  {
    if es != [] {
      NoGets(es[..|es| - 1]);
    }
  }

  lemma SettlingNeverGets(w: World, s: SyncState)
    ensures Gets(Settling(w, s)) == 0
  {
    NoGets(Settling(w, s));
  }

  lemma ReplyNeverGets(sha: seq<byte> -> Bytes32, w: World, s: SyncState, allow: bool)
    ensures Gets(OnReply(sha, w, s, allow).effects) == 0
  {
    hide ValidEtag, ValidConfiguration, DecodedFrom, EtagOf, Gets;
    NoGets(OnReply(sha, w, s, allow).effects);
  }

  /** A pass asks once, under the ETag it settled on. */
  lemma PassAsksOnce(sha: seq<byte> -> Bytes32, disk: Disk<StateFile>, w: World, allow: bool)
    ensures Gets(Pass(sha, disk, w, allow).effects) <= 1
  {
    hide Settling, SettledState, OnReply, Opened, ValidEtag;
    var s := Opened(w, Loaded(disk));
    var settled := SettledState(w, s);
    var get := [Send(Get(settled.etag))];
    var reply := OnReply(sha, w, settled, allow).effects;
    SettlingNeverGets(w, s);
    ReplyNeverGets(sha, w, settled, allow);
    GetsAdd(get, reply);
    GetsAdd(Settling(w, s), get + reply);
    assert get[..0] == [];
    NoGets([]);
  }

  /** What a pass that wants another one leaves behind: a readable state without an ETag. */
  lemma RetryForgetsEtag(sha: seq<byte> -> Bytes32, disk: Disk<StateFile>, w: World)
    requires Pass(sha, disk, w, true).again
    ensures var after := ApplyAll(disk, Pass(sha, disk, w, true).effects);
            Readable(after) && STATE_FILE in after && Loaded(after).etag.None?
  {
    hide Settling, SettledState, Opened, ValidEtag, OnReply;
    var s := Opened(w, Loaded(disk));
    var settled := SettledState(w, s);
    OpenedSchema(w, Loaded(disk));
    SettledSchema(w, s);
    var reply := OnReply(sha, w, settled, true).effects;
    var before := Settling(w, s) + [Send(Get(settled.etag))];
    Assoc(Settling(w, s), [Send(Get(settled.etag))], reply);
    ApplyInTurn(disk, before, reply);
    RetryReply(sha, w, settled, ApplyAll(disk, before));
  }

  lemma SettledSchema(w: World, s: SyncState)
    ensures SettledState(w, s).schemaVersion == s.schemaVersion
  {
  }

  lemma RetryReply(sha: seq<byte> -> Bytes32, w: World, s: SyncState, disk: Disk<StateFile>)
    requires OnReply(sha, w, s, true).again && s.schemaVersion == 1
    ensures var after := ApplyAll(disk, OnReply(sha, w, s, true).effects);
            Readable(after) && STATE_FILE in after && Loaded(after).etag.None?
  {
    hide ValidEtag, ValidConfiguration, DecodedFrom, EtagOf, OnAccepted;
    var es := OnReply(sha, w, s, true).effects;
    ApplyOne(disk, es[0]);
    if |es| == 2 {
      assert es == [es[0]] + [es[1]];
      ApplyOneMore(disk, [es[0]], es[1]);
    } else {
      assert es == [es[0]];
    }
  }

  /** The second request is unconditional, a 304 to it is an error, and there is no third. */
  lemma RetryIsUnconditional(sha: seq<byte> -> Bytes32, disk: Disk<StateFile>, w: World, retry: World)
    requires Pass(sha, disk, w, true).again
    ensures var after := ApplyAll(disk, Pass(sha, disk, w, true).effects);
            var second := Pass(sha, after, retry, false);
            && !second.again
            && second.effects != [] && second.effects[0] == Send(Get(None))
            && (retry.reply.NotModified? ==> second.result.Err?)
            && Gets(Synchronised(sha, disk, w, retry, true).effects) <= 2
  {
    hide OnReply, ValidEtag, Gets, OnNotModified;
    RetryForgetsEtag(sha, disk, w);
    var first := Pass(sha, disk, w, true);
    var after := ApplyAll(disk, first.effects);
    UnconditionalPass(sha, after, retry);
    PassAsksOnce(sha, disk, w, true);
    PassAsksOnce(sha, after, retry, false);
    GetsAdd(first.effects, Pass(sha, after, retry, false).effects);
  }

  lemma UnconditionalPass(sha: seq<byte> -> Bytes32, disk: Disk<StateFile>, w: World)
    requires Readable(disk) && Loaded(disk).etag.None?
    ensures var p := Pass(sha, disk, w, false);
            && p.effects != [] && p.effects[0] == Send(Get(None))
            && (w.reply.NotModified? ==> p.result.Err?)
  {
    hide ValidEtag, OnDelivered, OnNoContent;
  }
}
