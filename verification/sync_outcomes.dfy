/** How one pass that is not cut short ends: the messages it sent, the state it leaves and its answer, for
    every state it finds and everything it meets. */
module SyncOutcomes {
  import opened Bytes
  import opened Catalogs
  import opened Delivery
  import opened DeliveryProofs
  import opened Host
  import opened Sync
  import opened SyncRuns
  import opened Wrappers

  function Messages(es: Trace): seq<Message> {
    if es == [] then [] else Messages(es[..|es| - 1]) + if es[|es| - 1].Send? then [es[|es| - 1].message] else []
  }

  /** The last state written, if any. */
  function Saved(es: Trace): Option<SyncState> {
    if es == [] then None
    else if es[|es| - 1].Replace? && es[|es| - 1].name == STATE_FILE && es[|es| - 1].content.Parsed?
    then Some(es[|es| - 1].content.state)
    else Saved(es[..|es| - 1])
  }

  function Or(saved: Option<SyncState>, s: SyncState): SyncState {
    if saved.Some? then saved.value else s
  }

  predicate OnlySaves(es: Trace) {
    forall i :: 0 <= i < |es| ==> es[i].Send? || (es[i].Replace? && es[i].name == STATE_FILE && es[i].content.Parsed?)
  }

  lemma {:induction false} MessagesAdd(a: Trace, b: Trace)
    ensures Messages(a + b) == Messages(a) + Messages(b)
    ensures Saved(a + b) == if Saved(b).Some? then Saved(b) else Saved(a)
  {
    if b == [] {
      assert a + b == a;
    } else {
      assert (a + b)[..|a + b| - 1] == a + b[..|b| - 1];
      MessagesAdd(a, b[..|b| - 1]);
    }
  }

  lemma OneSent(m: Message)
    ensures var es: Trace := [Send(m)]; Messages(es) == [m] && Saved(es) == None
  {
    var es: Trace := [Send(m)];
    assert es[..0] == [];
  }

  lemma OneSaved(s: SyncState)
    ensures Messages([Save(s)]) == [] && Saved([Save(s)]) == Some(s)
  {
    assert [Save(s)][..0] == [];
  }

  lemma {:induction false} LeftIsSaved(disk: Disk<StateFile>, es: Trace)
    requires OnlySaves(es)
    ensures Loaded(ApplyAll(disk, es)) == Or(Saved(es), Loaded(disk))
  {
    if es != [] {
      var init := es[..|es| - 1];
      assert forall i :: 0 <= i < |init| ==> init[i] == es[i];
      LeftIsSaved(disk, init);
    }
  }

  // ---- one answer of the Cloud ----

  /** A plan in terms of what it says, what it stores and how it ends. */
  predicate Does(p: Plan, messages: seq<Message>, saved: Option<SyncState>, again: bool, result: Result<Outcome, Failure>) {
    Messages(p.effects) == messages && Saved(p.effects) == saved && p.again == again && p.result == result && OnlySaves(p.effects)
  }

  lemma Four(a: Effect<StateFile, Message>, b: Effect<StateFile, Message>, c: Effect<StateFile, Message>, d: Effect<StateFile, Message>)
    ensures var es: Trace := [a, b, c, d];
            && Messages(es) == Messages([a]) + Messages([b]) + Messages([c]) + Messages([d])
            && Saved(es) == if Saved([d]).Some? then Saved([d]) else if Saved([c]).Some? then Saved([c])
                            else if Saved([b]).Some? then Saved([b]) else Saved([a])
  {
    var es: Trace := [a, b, c, d];
    assert es == (([a] + [b]) + [c]) + [d];
    MessagesAdd(([a] + [b]) + [c], [d]);
    MessagesAdd([a] + [b], [c]);
    MessagesAdd([a], [b]);
  }

  lemma Three(a: Effect<StateFile, Message>, b: Effect<StateFile, Message>, c: Effect<StateFile, Message>)
    ensures var es: Trace := [a, b, c];
            && Messages(es) == Messages([a]) + Messages([b]) + Messages([c])
            && Saved(es) == if Saved([c]).Some? then Saved([c]) else if Saved([b]).Some? then Saved([b]) else Saved([a])
  {
    var es: Trace := [a, b, c];
    assert es == ([a] + [b]) + [c];
    MessagesAdd([a] + [b], [c]);
    MessagesAdd([a], [b]);
  }

  lemma Two(a: Effect<StateFile, Message>, b: Effect<StateFile, Message>)
    ensures var es: Trace := [a, b];
            && Messages(es) == Messages([a]) + Messages([b])
            && Saved(es) == if Saved([b]).Some? then Saved([b]) else Saved([a])
  {
    var es: Trace := [a, b];
    assert es == [a] + [b];
    MessagesAdd([a], [b]);
  }

  lemma NothingSaid()
    ensures Messages([]) == [] && Saved([]) == None
  {
  }

  /** An ETag is a quoted SHA-256 in lower-case hexadecimal. */
  lemma EtagShape(e: string)
    ensures ValidEtag(e) <==>
            exists digest :: e == "\"sha256-" + digest + "\"" && |digest| == 64
                             && forall i :: 0 <= i < 64 ==> '0' <= digest[i] <= '9' || 'a' <= digest[i] <= 'f'
  {
    if ValidEtag(e) {
      var digest := e[8..72];
      assert e == e[..8] + digest + e[72..];
    }
    if digest :| e == "\"sha256-" + digest + "\"" && |digest| == 64
                 && forall i :: 0 <= i < 64 ==> '0' <= digest[i] <= '9' || 'a' <= digest[i] <= 'f'
    {
      assert |"\"sha256-"| == 8 && e[8..72] == digest && e[..8] == "\"sha256-";
    }
  }

  /** No configuration for this device: whatever runs is withdrawn and the state forgets its delivery. */
  lemma NothingToRun(sha: seq<byte> -> Bytes32, w: World, s: SyncState, allow: bool)
    requires w.reply.NoContent?
    ensures Does(OnReply(sha, w, s, allow), [RequestWithdrawal, LocalStatus(WaitingForNetworkConfiguration)],
                 Some(s.(etag := None, configurationSha256 := None, activationPhase := None, activationRequired := false,
                         rejectedEtag := None, rejectedAt := None)),
                 false, Ok(Waiting))
  {
    hide Messages, Saved;
    var e := OnNoContent(s).effects;
    Three(e[0], e[1], e[2]);
    OneSent(RequestWithdrawal);
    OneSent(LocalStatus(WaitingForNetworkConfiguration));
    OneSaved(e[1].content.state);
  }

  /** A delivery is verified when its ETag is its own digest and Core accepts all of it. */
  predicate Verified(sha: seq<byte> -> Bytes32, w: World, tag: string, c: Configuration, o: Objects) {
    && w.reply == Delivered(Some(tag), Some((c, o))) && ValidEtag(tag) && ValidConfiguration(c) && DecodedFrom(c, o)
    && EtagOf(sha, c, o) == tag
  }

  predicate CoreAccepts(w: World) {
    w.control.Accepted? && w.compatibility.Accepted? && w.discovery.Accepted?
  }

  /** The first verdict that is not an acceptance refuses; an earlier one that is only unavailable does not. */
  predicate CoreRefuses(w: World) {
    || w.control.Refused?
    || (w.control.Accepted? && w.compatibility.Refused?)
    || (w.control.Accepted? && w.compatibility.Accepted? && w.discovery.Refused?)
  }

  /** A verified delivery of phase prepare is published but not activated, reported prepared, and stored. */
  lemma Prepares(sha: seq<byte> -> Bytes32, w: World, s: SyncState, tag: string, c: Configuration, o: Objects, allow: bool)
    requires Verified(sha, w, tag, c, o) && CoreAccepts(w) && w.grants.Resolved? && c.activationPhase == "prepare"
    ensures |tag| == 73
    ensures Does(OnReply(sha, w, s, allow),
                 [Publish(tag, c, o, false), Report(tag, c.publicationId, c.projectionContentHash, Prepared),
                  LocalStatus(PreparedLocally)],
                 Some(s.(etag := Some(tag), configurationSha256 := Some(tag[8..72]), publicationId := Some(c.publicationId),
                         contentHash := Some(c.projectionContentHash), activationPhase := Some("prepare"),
                         activationRequired := false, rejectedEtag := None, rejectedAt := None)),
                 false, Ok(ConfigurationPrepared))
  {
    hide Messages, Saved, ValidConfiguration, DecodedFrom, EtagOf, ValidEtag;
    EtagLength(tag);
    var e := OnAccepted(w, s, tag, tag[8..72], c, o).effects;
    Four(e[0], e[1], e[2], e[3]);
    OneSent(e[0].message);
    OneSent(e[1].message);
    OneSaved(e[2].content.state);
    OneSent(e[3].message);
  }

  /** One of phase commit is published for activation: as a candidate when the device needs an activation, and
      otherwise what runs is withdrawn. */
  lemma Activates(sha: seq<byte> -> Bytes32, w: World, s: SyncState, tag: string, c: Configuration, o: Objects, allow: bool)
    requires Verified(sha, w, tag, c, o) && CoreAccepts(w) && w.grants.Resolved? && c.activationPhase == "commit"
    ensures |tag| == 73
    ensures Does(OnReply(sha, w, s, allow),
                 [Publish(tag, c, o, true)]
                 + (if w.needsActivation then [PublishCandidate(tag), LocalStatus(PendingActivation)]
                    else [RequestWithdrawal, LocalStatus(ConfigurationUpdated)]),
                 Some(s.(etag := Some(tag), configurationSha256 := Some(tag[8..72]), publicationId := Some(c.publicationId),
                         contentHash := Some(c.projectionContentHash), activationPhase := Some("commit"),
                         activationRequired := w.needsActivation, rejectedEtag := None, rejectedAt := None,
                         serverActivationRevision := if w.serverMode then 4 else 0, serverConfigurationSha256 := w.serverDigest)),
                 false, Ok(if w.needsActivation then ActivationPending else Updated))
  {
    hide Messages, Saved, ValidConfiguration, DecodedFrom, EtagOf, ValidEtag;
    EtagLength(tag);
    var e := OnAccepted(w, s, tag, tag[8..72], c, o).effects;
    Four(e[0], e[1], e[2], e[3]);
    OneSent(e[0].message);
    OneSent(e[1].message);
    OneSaved(e[2].content.state);
    OneSent(e[3].message);
  }

  /** Refused by Core or denied its grants, a delivery is reported rejected and nothing is stored; when Core or
      the Cloud could not say, it is only an error. A stale policy forgets the ETag and asks again. */
  lemma Refuses(sha: seq<byte> -> Bytes32, w: World, s: SyncState, tag: string, c: Configuration, o: Objects, allow: bool)
    requires Verified(sha, w, tag, c, o) && !(CoreAccepts(w) && w.grants.Resolved?)
    ensures var p := OnReply(sha, w, s, allow); var rejected := [Report(tag, c.publicationId, c.projectionContentHash, Rejected)];
            if CoreRefuses(w) then Does(p, rejected, None, false, Err(CoreRefused))
            else if !CoreAccepts(w) then Does(p, [], None, false, Err(CoreUnavailable))
            else if w.grants.Denied? then Does(p, rejected, None, false, Err(GrantsUnresolved))
            else if w.grants.Retryable? then Does(p, [], None, false, Err(GrantsUnresolved))
            else Does(p, [LocalStatus(ResyncRequired)], Some(s.(etag := None, rejectedEtag := None, rejectedAt := None)), allow,
                      if allow then Ok(Unchanged) else Err(GrantsUnresolved))
  {
    hide Messages, Saved, ValidConfiguration, DecodedFrom, EtagOf, ValidEtag;
    EtagLength(tag);
    NothingSaid();
    OneSent(Report(tag, c.publicationId, c.projectionContentHash, Rejected));
    var resync := s.(etag := None, rejectedEtag := None, rejectedAt := None);
    Two(Save(resync), Send(LocalStatus(ResyncRequired)));
    OneSaved(resync);
    OneSent(LocalStatus(ResyncRequired));
  }

  /** Anything else with a body, and any other status, changes and says nothing. */
  lemma {:induction false} Ignores(sha: seq<byte> -> Bytes32, w: World, s: SyncState, allow: bool)
    requires w.reply.OtherStatus? || (w.reply.Delivered? && forall tag, c, o :: !Verified(sha, w, tag, c, o))
    ensures var p := OnReply(sha, w, s, allow);
            Does(p, [], None, false, p.result) && p.result.Err?
  {
    hide ValidConfiguration, DecodedFrom, EtagOf, ValidEtag;
    NothingSaid();
    if w.reply.Delivered? && w.reply.tag.Some? && w.reply.body.Some? {
      assert !Verified(sha, w, w.reply.tag.value, w.reply.body.value.0, w.reply.body.value.1);
    }
  }

  // ---- still ----

  /** The Cloud confirms the stored ETag. */
  predicate Confirmed(w: World, s: SyncState, tag: string) {
    w.reply == NotModified(Some(tag)) && ValidEtag(tag) && s.etag == Some(tag)
  }

  /** The local activation of a confirmed delivery has to be prepared again. */
  predicate Outdated(w: World, s: SyncState) {
    s.activationRequired && s.rejectedEtag != s.etag && !(w.candidateMatches && !w.grantDue)
  }

  lemma {:induction false} NotConfirmed(sha: seq<byte> -> Bytes32, w: World, s: SyncState, allow: bool)
    requires w.reply.NotModified? && forall tag :: !Confirmed(w, s, tag)
    ensures var p := OnReply(sha, w, s, allow);
            Does(p, [], None, false, p.result) && p.result.Err?
  {
    hide ValidEtag;
    NothingSaid();
    if w.reply.tag.Some? {
      assert !Confirmed(w, s, w.reply.tag.value);
    }
  }

  /** An outdated activation is fetched again once, and otherwise is an error. */
  lemma Revalidates(sha: seq<byte> -> Bytes32, w: World, s: SyncState, tag: string, allow: bool)
    requires Confirmed(w, s, tag) && Outdated(w, s)
    ensures var p := OnReply(sha, w, s, allow);
            if allow then Does(p, [LocalStatus(RevalidationRequired)], Some(s.(etag := None, configurationSha256 := None)), true, Ok(Unchanged))
            else Does(p, [], None, false, Err(NeedsRevalidation))
  {
    hide Messages, Saved, ValidEtag;
    NothingSaid();
    var kept := s.(etag := None, configurationSha256 := None);
    Two(Save(kept), Send(LocalStatus(RevalidationRequired)));
    OneSaved(kept);
    OneSent(LocalStatus(RevalidationRequired));
  }

  /** A rejected one is left alone for a minute from its first confirmation and then fetched again. */
  lemma Waits(sha: seq<byte> -> Bytes32, w: World, s: SyncState, tag: string, allow: bool)
    requires Confirmed(w, s, tag) && s.rejectedEtag == Some(tag)
    ensures var p := OnReply(sha, w, s, allow);
            if s.rejectedAt.Some? && w.now - s.rejectedAt.value >= 60 && allow
            then Does(p, [LocalStatus(RevalidationRequired)],
                      Some(s.(etag := None, configurationSha256 := None, rejectedEtag := None, rejectedAt := None)), true, Ok(Unchanged))
            else Does(p, [LocalStatus(LocalActivationFailed)],
                      Some(s.(rejectedAt := if s.rejectedAt.Some? then s.rejectedAt else Some(w.now))), false, Ok(ActivationRejected))
  {
    hide Messages, Saved, ValidEtag;
    var later := s.(etag := None, configurationSha256 := None, rejectedEtag := None, rejectedAt := None);
    var kept := s.(rejectedAt := if s.rejectedAt.Some? then s.rejectedAt else Some(w.now));
    Two(Save(later), Send(LocalStatus(RevalidationRequired)));
    Two(Save(kept), Send(LocalStatus(LocalActivationFailed)));
    OneSaved(later);
    OneSaved(kept);
    OneSent(LocalStatus(RevalidationRequired));
    OneSent(LocalStatus(LocalActivationFailed));
  }

  /** A current one repeats its status, as its phase says; without a publication or a phase to name it is
      fetched again. */
  lemma Repeats(sha: seq<byte> -> Bytes32, w: World, s: SyncState, tag: string, allow: bool)
    requires Confirmed(w, s, tag) && s.rejectedEtag != Some(tag) && !Outdated(w, s)
    ensures var p := OnReply(sha, w, s, allow); var still := LocalStatus(ConfigurationUnchanged);
            var forgotten := s.(etag := None, configurationSha256 := None);
            if s.publicationId.Some? && s.contentHash.Some? then
              (if s.activationPhase == Some("prepare")
               then Does(p, [Report(tag, s.publicationId.value, s.contentHash.value, Prepared), still], None, false, Ok(Unchanged))
               else if s.activationPhase == Some("commit")
               then Does(p, [Report(tag, s.publicationId.value, s.contentHash.value, Active), still], None, false, Ok(Unchanged))
               else if allow then Does(p, [], Some(forgotten.(activationPhase := None)), true, Ok(Unchanged))
               else Does(p, [], None, false, Err(NoPhase)))
            else if allow then Does(p, [], Some(forgotten), true, Ok(Unchanged))
            else Does(p, [still], None, false, Ok(Unchanged))
  {
    hide Messages, Saved, ValidEtag;
    NothingSaid();
    var forgotten := s.(etag := None, configurationSha256 := None);
    OneSaved(forgotten);
    OneSaved(forgotten.(activationPhase := None));
    OneSent(LocalStatus(ConfigurationUnchanged));
    if s.publicationId.Some? && s.contentHash.Some? {
      var prepared := Report(tag, s.publicationId.value, s.contentHash.value, Prepared);
      var active := Report(tag, s.publicationId.value, s.contentHash.value, Active);
      OneSent(prepared);
      OneSent(active);
      Two(Send(prepared), Send(LocalStatus(ConfigurationUnchanged)));
      Two(Send(active), Send(LocalStatus(ConfigurationUnchanged)));
    }
  }

  // ---- settling and the whole pass ----

  /** A finished activation that was found is settled: promoted or removed, reported, its receipt dropped. */
  lemma Settles(w: World, s: SyncState)
    ensures var a := if w.receipt.Some? then w.receipt else w.proof; var es := Settling(w, s);
            && OnlySaves(es)
            && if !(s.activationRequired && a.Some? && s.etag == Some(a.value.etag))
               then es == [] && SettledState(w, s) == s
               else
                 var tag := a.value.etag;
                 var report := Report(tag, a.value.publicationId, a.value.contentHash, if a.value.committed then Active else Rejected);
                 && Saved(es) == Some(SettledState(w, s))
                 && (if a.value.committed then
                       && Messages(es) == (if w.reread then [Promote(tag)] else []) + [report, ClearReceipt]
                       && SettledState(w, s) == s.(rejectedEtag := None, rejectedAt := None)
                     else if w.statusConflict then Messages(es) == [report, ClearReceipt] && SettledState(w, s) == s
                     else
                       && Messages(es) == [report, RemoveCandidate(tag), ClearReceipt]
                       && SettledState(w, s) == s.(rejectedEtag := Some(tag), rejectedAt := Some(w.now)))
  {
    hide Messages, Saved;
    if Finished(w, s).Some? {
      var a := Finished(w, s).value;
      var report := Report(a.etag, a.publicationId, a.contentHash, if a.committed then Active else Rejected);
      OneSent(report);
      OneSent(ClearReceipt);
      OneSent(Promote(a.etag));
      OneSent(RemoveCandidate(a.etag));
      OneSaved(SettledState(w, s));
      Three(Send(report), Send(ClearReceipt), Save(SettledState(w, s)));
      Four(Send(Promote(a.etag)), Send(report), Send(ClearReceipt), Save(SettledState(w, s)));
      Four(Send(report), Send(RemoveCandidate(a.etag)), Send(ClearReceipt), Save(SettledState(w, s)));
      assert [Send(report)] + [Send(ClearReceipt), Save(SettledState(w, s))] == [Send(report), Send(ClearReceipt), Save(SettledState(w, s))];
      assert Settling(w, s) ==
        if a.committed then (if w.reread then [Send(Promote(a.etag)), Send(report), Send(ClearReceipt), Save(SettledState(w, s))]
                             else [Send(report), Send(ClearReceipt), Save(SettledState(w, s))])
        else if w.statusConflict then [Send(report), Send(ClearReceipt), Save(SettledState(w, s))]
        else [Send(report), Send(RemoveCandidate(a.etag)), Send(ClearReceipt), Save(SettledState(w, s))];
    }
  }

  /** The state a pass works with: a server whose own configuration changed has no ETag to send. */
  function Begun(w: World, s: SyncState): SyncState {
    if w.serverMode && !(s.serverActivationRevision == 4 && s.serverConfigurationSha256 == w.serverDigest)
    then s.(etag := None, configurationSha256 := None) else s
  }

  /** Settling, one request under the ETag that is left, and what its answer leads to. */
  lemma PassDoes(sha: seq<byte> -> Bytes32, disk: Disk<StateFile>, w: World, allow: bool)
    requires Readable(disk)
    ensures var s := Begun(w, Loaded(disk)); var settled := SettledState(w, s); var p := Pass(sha, disk, w, allow);
            var reply := OnReply(sha, w, settled, allow);
            && settled.etag == s.etag
            && if settled.etag.Some? && !ValidEtag(settled.etag.value)
               then
                 && Messages(p.effects) == Messages(Settling(w, s)) && !p.again && p.result == Err(InvalidEtag)
                 && Loaded(ApplyAll(disk, p.effects)) == Or(Saved(Settling(w, s)), Loaded(disk))
               else
                 && Messages(p.effects) == Messages(Settling(w, s)) + ([Get(settled.etag)] + Messages(reply.effects))
                 && p.again == reply.again && p.result == reply.result
                 && Loaded(ApplyAll(disk, p.effects)) == Or(Saved(reply.effects), Or(Saved(Settling(w, s)), Loaded(disk)))
  {
    hide ValidEtag, Settling, OnReply, Messages, Saved, ApplyAll;
    var s := Begun(w, Loaded(disk));
    Settles(w, s);
    var settled := SettledState(w, s);
    var get: Trace := [Send(Get(settled.etag))];
    var reply := OnReply(sha, w, settled, allow).effects;
    RepliesSave(sha, w, settled, allow);
    OneSent(Get(settled.etag));
    MessagesAdd(Settling(w, s), get + reply);
    MessagesAdd(get, reply);
    LeftIsSaved(disk, Settling(w, s));
    LeftIsSaved(disk, Settling(w, s) + (get + reply));
  }

  lemma RepliesSave(sha: seq<byte> -> Bytes32, w: World, s: SyncState, allow: bool)
    ensures OnlySaves(OnReply(sha, w, s, allow).effects)
  {
    hide ValidConfiguration, DecodedFrom, EtagOf, ValidEtag;
  }

  lemma UnreadableStops(sha: seq<byte> -> Bytes32, disk: Disk<StateFile>, w: World, allow: bool)
    requires STATE_FILE in disk && (disk[STATE_FILE].Malformed? || disk[STATE_FILE].state.schemaVersion != 1)
    ensures Pass(sha, disk, w, allow) == Plan([], false, Err(UnreadableState))
  {
  }

  /** Without a state file nothing is settled, and the first request is unconditional. */
  lemma FirstPass(sha: seq<byte> -> Bytes32, disk: Disk<StateFile>, w: World, allow: bool)
    requires STATE_FILE !in disk
    ensures Loaded(disk) == SyncState(1, 0, None, None, None, None, None, None, false, None, None)
    ensures var p := Pass(sha, disk, w, allow);
            Messages(p.effects) == [Get(None)] + Messages(OnReply(sha, w, Loaded(disk), allow).effects)
  {
    hide Settling, OnReply, Messages, ValidEtag;
    PassDoes(sha, disk, w, allow);
    Settles(w, Begun(w, Loaded(disk)));
    assert Begun(w, Loaded(disk)) == Loaded(disk);
    NothingSaid();
  }

  // ---- what is activated and what is withdrawn ----

  /** The answer carries a verified commit delivery that Core accepts and all grants are there for. */
  ghost predicate Committing(sha: seq<byte> -> Bytes32, w: World) {
    && CoreAccepts(w) && w.grants.Resolved?
    && exists tag, c, o :: Verified(sha, w, tag, c, o) && c.activationPhase == "commit"
  }

  /** A pass that asks the Cloud withdraws what runs if and only if the Cloud has nothing for this device, or
      commits a delivery that needs no activation; and offers a candidate if and only if it commits one that
      does. */
  lemma OffersOrWithdraws(sha: seq<byte> -> Bytes32, disk: Disk<StateFile>, w: World, allow: bool)
    requires Readable(disk)
    requires var e := Begun(w, Loaded(disk)).etag; e.Some? ==> ValidEtag(e.value)
    ensures var m := Messages(Pass(sha, disk, w, allow).effects);
            && (RequestWithdrawal in m <==> w.reply.NoContent? || (Committing(sha, w) && !w.needsActivation))
            && ((exists tag :: PublishCandidate(tag) in m) <==> Committing(sha, w) && w.needsActivation)
            && (forall tag :: PublishCandidate(tag) in m ==> w.reply.Delivered? && w.reply.tag == Some(tag))
  {
    hide ValidConfiguration, DecodedFrom, EtagOf, ValidEtag, Pass, OnReply, SettledState, Settling, Messages, Saved;
    PassDoes(sha, disk, w, allow);
    var begun := Begun(w, Loaded(disk));
    var s := SettledState(w, begun);
    SettlingOffersNothing(w, begun);
    ReplyOffers(sha, w, s, allow);
    var first, get, last := Messages(Settling(w, begun)), [Get(s.etag)], Messages(OnReply(sha, w, s, allow).effects);
    var m := Messages(Pass(sha, disk, w, allow).effects);
    assert m == first + (get + last);
    assert forall x :: x in m <==> x in first || x in get || x in last;
    if Committing(sha, w) && w.needsActivation {
      var tag, c, o :| Verified(sha, w, tag, c, o) && c.activationPhase == "commit";
      assert PublishCandidate(tag) in last;
    }
  }

  lemma SettlingOffersNothing(w: World, s: SyncState)
    ensures RequestWithdrawal !in Messages(Settling(w, s)) && forall tag :: PublishCandidate(tag) !in Messages(Settling(w, s))
  {
    hide Messages, Saved, Settling, SettledState;
    NothingSaid();
    Settles(w, s);
  }

  lemma ReplyOffers(sha: seq<byte> -> Bytes32, w: World, s: SyncState, allow: bool)
    ensures var m := Messages(OnReply(sha, w, s, allow).effects);
            && (RequestWithdrawal in m <==> w.reply.NoContent? || (Committing(sha, w) && !w.needsActivation))
            && (forall tag :: PublishCandidate(tag) in m <==>
                  Committing(sha, w) && w.needsActivation && w.reply.tag == Some(tag))
  {
    hide ValidConfiguration, DecodedFrom, EtagOf, ValidEtag, OnReply, Messages, Saved, CoreRefuses, Outdated;
    match w.reply
    case NoContent => NothingToRun(sha, w, s, allow);
    case OtherStatus => Ignores(sha, w, s, allow);
    case NotModified(tag) => ConfirmedOffersNothing(sha, w, s, allow);
    case Delivered(tag, body) =>
      if tag.None? || body.None? || !Verified(sha, w, tag.value, body.value.0, body.value.1) {
        Ignores(sha, w, s, allow);
      } else {
        var c, o := body.value.0, body.value.1;
        PhaseIsKnown(c);
        if CoreAccepts(w) && w.grants.Resolved? {
          if c.activationPhase == "prepare" {
            Prepares(sha, w, s, tag.value, c, o, allow);
          } else {
            Activates(sha, w, s, tag.value, c, o, allow);
          }
        } else {
          Refuses(sha, w, s, tag.value, c, o, allow);
        }
      }
  }

  lemma ConfirmedOffersNothing(sha: seq<byte> -> Bytes32, w: World, s: SyncState, allow: bool)
    requires w.reply.NotModified?
    ensures var m := Messages(OnReply(sha, w, s, allow).effects);
            RequestWithdrawal !in m && forall tag :: PublishCandidate(tag) !in m
  {
    hide ValidEtag, OnReply, Messages, Saved, Outdated;
    if w.reply.tag.None? || !Confirmed(w, s, w.reply.tag.value) {
      NotConfirmed(sha, w, s, allow);
    } else if Outdated(w, s) {
      Revalidates(sha, w, s, w.reply.tag.value, allow);
    } else if s.rejectedEtag == w.reply.tag {
      Waits(sha, w, s, w.reply.tag.value, allow);
    } else {
      Repeats(sha, w, s, w.reply.tag.value, allow);
    }
  }

  // ---- over runs ----

  ghost predicate Offered(t: Trace, tag: string) {
    exists i :: 0 <= i < |t| && t[i] == Send(PublishCandidate(tag))
  }

  /** A stored state that waits for an activation waits for one that was offered here, or for the one the first
      file already waited for. */
  ghost predicate Awaits(kept: Kept, t: Trace, s: SyncState) {
    s.etag.Some? && s.activationRequired ==> Offered(t, s.etag.value) || Inherited(kept, s.etag.value)
  }

  ghost predicate AwaitsAll(kept: Kept, t: Trace, es: Trace) {
    forall k :: 0 <= k < |es| && es[k].Replace? && es[k].content.Parsed? ==> Awaits(kept, t + es[..k], es[k].content.state)
  }

  lemma OfferedStays(t: Trace, x: Trace, tag: string)
    requires Offered(t, tag)
    ensures Offered(t + x, tag)
  {
    var i :| 0 <= i < |t| && t[i] == Send(PublishCandidate(tag));
    assert (t + x)[i] == t[i];
  }

  lemma AwaitsStays(kept: Kept, t: Trace, x: Trace, s: SyncState)
    requires Awaits(kept, t, s)
    ensures Awaits(kept, t + x, s)
  {
    hide Offered;
    if s.etag.Some? && Offered(t, s.etag.value) {
      OfferedStays(t, x, s.etag.value);
    }
  }

  lemma {:induction false} StateAwaits(kept: Kept, t: Trace, disk: Disk<StateFile>, es: Trace)
    requires OnlySaves(es) && AwaitsAll(kept, t, es) && Awaits(kept, t, Loaded(disk))
    ensures Awaits(kept, t + es, Loaded(ApplyAll(disk, es)))
  {
    hide Awaits;
    if es == [] {
      assert t + es == t;
    } else {
      var init, last := es[..|es| - 1], es[|es| - 1];
      forall k | 0 <= k < |init| && init[k].Replace? && init[k].content.Parsed? ensures Awaits(kept, t + init[..k], init[k].content.state) {
        assert init[..k] == es[..k] && init[k] == es[k];
      }
      assert forall i :: 0 <= i < |init| ==> init[i] == es[i];
      StateAwaits(kept, t, disk, init);
      assert t + es == (t + init) + [last];
      if last.Replace? {
        AwaitsStays(kept, t + init, [last], last.content.state);
      } else {
        AwaitsStays(kept, t + init, [last], Loaded(ApplyAll(disk, init)));
      }
    }
  }

  lemma AwaitsInTurn(kept: Kept, t: Trace, a: Trace, b: Trace)
    requires AwaitsAll(kept, t, a) && AwaitsAll(kept, t + a, b)
    ensures AwaitsAll(kept, t, a + b)
  {
    hide Awaits;
    var es := a + b;
    forall k | 0 <= k < |es| && es[k].Replace? && es[k].content.Parsed? ensures Awaits(kept, t + es[..k], es[k].content.state) {
      if k < |a| {
        assert es[..k] == a[..k];
      } else {
        assert es[..k] == a + b[..k - |a|];
        assert (t + a) + b[..k - |a|] == t + es[..k];
      }
    }
  }

  lemma AwaitsUpTo(kept: Kept, t: Trace, es: Trace, cut: nat)
    requires AwaitsAll(kept, t, es) && OnlySaves(es)
    ensures AwaitsAll(kept, t, UpTo(es, cut)) && OnlySaves(UpTo(es, cut))
  {
    hide Awaits;
    var done := UpTo(es, cut);
    forall k | 0 <= k < |done| && done[k].Replace? && done[k].content.Parsed? ensures Awaits(kept, t + done[..k], done[k].content.state) {
      assert done[..k] == es[..k];
    }
  }

  /** A reply either keeps what is awaited, or awaits nothing, or has just offered it. */
  lemma ReplyAwaits(kept: Kept, sha: seq<byte> -> Bytes32, t: Trace, w: World, s: SyncState, allow: bool)
    requires Awaits(kept, t, s)
    ensures AwaitsAll(kept, t, OnReply(sha, w, s, allow).effects)
  {
    hide ValidConfiguration, DecodedFrom, EtagOf, ValidEtag, Offered;
    var es := OnReply(sha, w, s, allow).effects;
    forall k | 0 <= k < |es| && es[k].Replace? && es[k].content.Parsed? ensures Awaits(kept, t + es[..k], es[k].content.state) {
      if es[k].content.state.etag == s.etag {
        AwaitsStays(kept, t, es[..k], s);
      }
      if k == 2 && es[1].Send? && es[1].message.PublishCandidate? {
        JustOffered(t, es, es[1].message.etag);
      }
    }
  }

  lemma JustOffered(t: Trace, es: Trace, tag: string)
    requires |es| >= 2 && es[1] == Send(PublishCandidate(tag))
    ensures Offered(t + es[..2], tag)
  {
    assert (t + es[..2])[|t| + 1] == es[1];
  }

  lemma PassAwaits(kept: Kept, sha: seq<byte> -> Bytes32, t: Trace, disk: Disk<StateFile>, w: World, allow: bool)
    requires Awaits(kept, t, Loaded(disk)) && Readable(disk)
    ensures var es := Pass(sha, disk, w, allow).effects; OnlySaves(es) && AwaitsAll(kept, t, es)
  {
    hide ValidEtag, OnReply, Offered, Messages, Saved;
    var s := Opened(w, Loaded(disk));
    var settled := SettledState(w, s);
    var settling := Settling(w, s);
    var get: Trace := [Send(Get(settled.etag))];
    var reply := OnReply(sha, w, settled, allow).effects;
    Settles(w, s);
    RepliesSave(sha, w, settled, allow);
    assert Awaits(kept, t, s) && Awaits(kept, t, settled);
    forall k | 0 <= k < |settling| && settling[k].Replace? && settling[k].content.Parsed?
      ensures Awaits(kept, t + settling[..k], settling[k].content.state)
    {
      AwaitsStays(kept, t, settling[..k], settled);
    }
    AwaitsStays(kept, t, settling, settled);
    AwaitsStays(kept, t + settling, get, settled);
    ReplyAwaits(kept, sha, t + settling + get, w, settled, allow);
    AwaitsInTurn(kept, t + settling, get, reply);
    AwaitsInTurn(kept, t, settling, get + reply);
  }

  lemma {:induction false} SynchronisedAwaits(kept: Kept, sha: seq<byte> -> Bytes32, t: Trace, disk: Disk<StateFile>, w: World,
                                              retry: World, allow: bool)
    requires Awaits(kept, t, Loaded(disk)) && Readable(disk)
    ensures var es := Synchronised(sha, disk, w, retry, allow).effects; OnlySaves(es) && AwaitsAll(kept, t, es)
    decreases allow
  {
    hide Awaits, Pass;
    var first := Pass(sha, disk, w, allow);
    PassAwaits(kept, sha, t, disk, w, allow);
    if first.again {
      StateAwaits(kept, t, disk, first.effects);
      var after := ApplyAll(disk, first.effects);
      PassReadable(sha, disk, w, allow);
      SynchronisedAwaits(kept, sha, t + first.effects, after, retry, retry, false);
      AwaitsInTurn(kept, t, first.effects, Synchronised(sha, after, retry, retry, false).effects);
    }
  }

  lemma PassReadable(sha: seq<byte> -> Bytes32, disk: Disk<StateFile>, w: World, allow: bool)
    requires Readable(disk)
    ensures Readable(ApplyAll(disk, Pass(sha, disk, w, allow).effects))
  {
    hide Pass, ApplyAll;
    PassSchemas(sha, disk, w, allow);
    SchemasStay(disk, Pass(sha, disk, w, allow).effects);
  }

  lemma {:induction false} SchemasStay(disk: Disk<StateFile>, es: Trace)
    requires Readable(disk) && OnlySaves(es)
    requires forall i :: 0 <= i < |es| && es[i].Replace? ==> es[i].content.state.schemaVersion == 1
    ensures Readable(ApplyAll(disk, es))
  {
    if es != [] {
      var init := es[..|es| - 1];
      assert forall i :: 0 <= i < |init| ==> init[i] == es[i];
      SchemasStay(disk, init);
    }
  }

  /** Over every run, a stored state that waits for an activation waits for one whose candidate was offered
      earlier in the run, under the same ETag, or for the one the first file waited for. */
  lemma {:induction false} AwaitedWasOffered(sha: seq<byte> -> Bytes32, boot: Disk<StateFile>, calls: seq<Call>)
    requires Readable(boot)
    ensures var t := Run(sha, boot, calls);
            Readable(ApplyAll(boot, t)) && Awaits(KeptBy(boot), t, Loaded(ApplyAll(boot, t)))
  {
    hide Awaits, Synchronised, Readable;
    var kept := KeptBy(boot);
    if calls == [] {
      FirstAwaits(boot);
    } else {
      var before, c := Run(sha, boot, calls[..|calls| - 1]), calls[|calls| - 1];
      AwaitedWasOffered(sha, boot, calls[..|calls| - 1]);
      var disk := ApplyAll(boot, before);
      var all := Synchronised(sha, disk, c.world, c.retry, true).effects;
      SynchronisedAwaits(kept, sha, before, disk, c.world, c.retry, true);
      AwaitsUpTo(kept, before, all, c.cut);
      StateAwaits(kept, before, disk, UpTo(all, c.cut));
      RunReadable(sha, disk, c);
      ApplyInTurn(boot, before, UpTo(all, c.cut));
    }
  }

  lemma FirstAwaits(boot: Disk<StateFile>)
    ensures Awaits(KeptBy(boot), [], Loaded(boot))
  {
  }

  lemma RunReadable(sha: seq<byte> -> Bytes32, disk: Disk<StateFile>, c: Call)
    requires Readable(disk)
    ensures Readable(ApplyAll(disk, Steps(sha, disk, c)))
  {
    hide Pass, ApplyAll;
    SynchronisedSchemas(sha, disk, c.world, c.retry, true);
    var all := Synchronised(sha, disk, c.world, c.retry, true).effects;
    var done := UpTo(all, c.cut);
    assert forall i :: 0 <= i < |done| ==> done[i] == all[i];
    SchemasStay(disk, done);
  }

  lemma {:induction false} SynchronisedSchemas(sha: seq<byte> -> Bytes32, disk: Disk<StateFile>, w: World, retry: World, allow: bool)
    requires Readable(disk)
    ensures var es := Synchronised(sha, disk, w, retry, allow).effects;
            OnlySaves(es) && forall i :: 0 <= i < |es| && es[i].Replace? ==> es[i].content.state.schemaVersion == 1
    decreases allow
  {
    hide Pass, ApplyAll;
    var first := Pass(sha, disk, w, allow);
    PassSchemas(sha, disk, w, allow);
    if first.again {
      SchemasStay(disk, first.effects);
      SynchronisedSchemas(sha, ApplyAll(disk, first.effects), retry, retry, false);
    }
  }

  /** Only states of the one schema are saved. */
  predicate Saves(es: Trace) {
    OnlySaves(es) && forall i :: 0 <= i < |es| && es[i].Replace? ==> es[i].content.state.schemaVersion == 1
  }

  lemma SettlingSaves(w: World, s: SyncState)
    requires s.schemaVersion == 1
    ensures Saves(Settling(w, s)) && SettledState(w, s).schemaVersion == 1
  {
  }

  lemma ReplySaves(sha: seq<byte> -> Bytes32, w: World, s: SyncState, allow: bool)
    requires s.schemaVersion == 1
    ensures Saves(OnReply(sha, w, s, allow).effects)
  {
    hide ValidConfiguration, DecodedFrom, EtagOf, ValidEtag;
  }

  lemma PassSchemas(sha: seq<byte> -> Bytes32, disk: Disk<StateFile>, w: World, allow: bool)
    requires Readable(disk)
    ensures var es := Pass(sha, disk, w, allow).effects;
            OnlySaves(es) && forall i :: 0 <= i < |es| && es[i].Replace? ==> es[i].content.state.schemaVersion == 1
  {
    hide ValidEtag, OnReply, Settling, SettledState;
    var s := Opened(w, Loaded(disk));
    SettlingSaves(w, s);
    ReplySaves(sha, w, SettledState(w, s), allow);
  }
}
