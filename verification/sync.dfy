/** One synchronisation: settle a finished activation, ask the Cloud for a configuration under the
    stored ETag, and act on the answer; at most once more, unconditionally. */
module Sync {
  import opened Bytes
  import opened Catalogs
  import opened Delivery
  import opened DeliveryProofs
  import opened Host
  import opened Text
  import opened Wrappers

  const STATE_FILE := "sync-state-v1.json"
  const ACTIVATION_REVALIDATION_SECONDS: nat := 60

  datatype SyncState = SyncState(
    schemaVersion: nat, serverActivationRevision: nat, serverConfigurationSha256: Option<string>,
    etag: Option<string>, configurationSha256: Option<string>,
    publicationId: Option<Bytes16>, contentHash: Option<string>, activationPhase: Option<string>,
    activationRequired: bool, rejectedEtag: Option<string>, rejectedAt: Option<u64>)

  datatype StateFile = Parsed(state: SyncState) | Malformed

  /** The state written for the local operator. */
  datatype Status =
    | WaitingForNetworkConfiguration | RevalidationRequired | LocalActivationFailed | ConfigurationUnchanged
    | PreparedLocally | PendingActivation | ConfigurationUpdated | ResyncRequired

  datatype Reported = Active | Prepared | Rejected

  datatype Message =
    | Get(ifNoneMatch: Option<string>)
    | Report(etag: string, publicationId: Bytes16, contentHash: string, reported: Reported)
    | Publish(etag: string, configuration: Configuration, objects: Objects, activate: bool)
    | PublishCandidate(etag: string)
    | Promote(etag: string)
    | RemoveCandidate(etag: string)
    | ClearReceipt
    | RequestWithdrawal
    | LocalStatus(status: Status)

  /** A finished activation as read back from the receipt or the committed proof. */
  datatype Activation = Activation(etag: string, publicationId: Bytes16, contentHash: string, committed: bool)

  datatype Reply =
    | NoContent
    | NotModified(tag: Option<string>)
    | Delivered(tag: Option<string>, body: Option<(Configuration, Objects)>)
    | OtherStatus

  datatype Verdict = Accepted | Unavailable | Refused

  datatype GrantVerdict = Resolved | PolicyResync | Retryable | Denied

  /** What one pass meets: the machine's own settings and files, the Cloud, Core and the clock. `reread` says
      that a receipt is still found when it is read again before a promotion. */
  datatype World = World(
    serverMode: bool, serverDigest: Option<string>, receipt: Option<Activation>, reread: bool, proof: Option<Activation>,
    statusConflict: bool, reply: Reply, candidateMatches: bool, grantDue: bool, now: u64,
    control: Verdict, compatibility: Verdict, discovery: Verdict, grants: GrantVerdict, needsActivation: bool)

  datatype Outcome = Waiting | Unchanged | ActivationRejected | ConfigurationPrepared | ActivationPending | Updated

  datatype Failure =
    | UnreadableState | InvalidEtag | UnexpectedEtag | NeedsRevalidation | NoPhase | InvalidBody | EtagMismatch
    | CoreUnavailable | CoreRefused | GrantsUnresolved | RequestFailed

  datatype Plan = Plan(effects: seq<Effect<StateFile, Message>>, again: bool, result: Result<Outcome, Failure>)

  function FreshState(): SyncState {
    SyncState(1, 0, None, None, None, None, None, None, false, None, None)
  }

  function Save(s: SyncState): Effect<StateFile, Message> {
    Replace(STATE_FILE, Parsed(s))
  }

  predicate ValidEtag(e: string) {
    |e| == 73 && e[..8] == "\"sha256-" && e[72] == '"' && CanonicalHex(e[8..72], 32)
  }

  /** The ETag of a delivery is its digest. */
  function EtagOf(sha: seq<byte> -> Bytes32, c: Configuration, o: Objects): string
    requires ValidConfiguration(c)
  {
    ValidIsHex(c);
    "\"sha256-" + DeliveryDigest(sha, c, o) + "\""
  }

  function Unsynchronised(s: SyncState): SyncState {
    s.(etag := None, configurationSha256 := None)
  }

  /** A server whose own configuration changed must fetch again. */
  function Opened(w: World, s: SyncState): SyncState {
    if w.serverMode && (s.serverActivationRevision != 4 || s.serverConfigurationSha256 != w.serverDigest)
    then Unsynchronised(s) else s
  }

  /** The finished activation to report, if it is the one the stored ETag stands for. */
  function Finished(w: World, s: SyncState): Option<Activation> {
    var a := if w.receipt.Some? then w.receipt else w.proof;
    if s.activationRequired && a.Some? && s.etag == Some(a.value.etag) then a else None
  }

  function SettledState(w: World, s: SyncState): SyncState {
    match Finished(w, s)
    case None => s
    case Some(a) =>
      if a.committed then s.(rejectedEtag := None, rejectedAt := None)
      else if w.statusConflict then s
      else s.(rejectedEtag := Some(a.etag), rejectedAt := Some(w.now))
  }

  function Settling(w: World, s: SyncState): seq<Effect<StateFile, Message>> {
    match Finished(w, s)
    case None => []
    case Some(a) =>
      var report := Send(Report(a.etag, a.publicationId, a.contentHash, if a.committed then Active else Rejected));
      var done := [Send(ClearReceipt), Save(SettledState(w, s))];
      if a.committed then (if w.reread then [Send(Promote(a.etag))] else []) + ([report] + done)
      else if w.statusConflict then [report] + done
      else [report, Send(RemoveCandidate(a.etag))] + done
  }

  function OnNoContent(s: SyncState): (p: Plan)
    ensures !p.again
  {
    var cleared := s.(etag := None, configurationSha256 := None, activationPhase := None,
                      activationRequired := false, rejectedEtag := None, rejectedAt := None);
    Plan([Send(RequestWithdrawal), Save(cleared), Send(LocalStatus(WaitingForNetworkConfiguration))],
         false, Ok(Waiting))
  }

  function Retry(s: SyncState): Plan {
    Plan([Save(s)], true, Ok(Unchanged))
  }

  function RetryWithStatus(s: SyncState, status: Status): Plan {
    Plan([Save(s), Send(LocalStatus(status))], true, Ok(Unchanged))
  }

  function Fails(f: Failure): Plan {
    Plan([], false, Err(f))
  }

  function SaturatingSub(a: nat, b: nat): nat {
    if a >= b then a - b else 0
  }

  function OnRejected(w: World, s: SyncState, allow: bool): (p: Plan)
    ensures p.again ==> allow
  {
    var at := if s.rejectedAt.Some? then s.rejectedAt.value else w.now;
    if SaturatingSub(w.now, at) >= ACTIVATION_REVALIDATION_SECONDS && allow
    then RetryWithStatus(Unsynchronised(s).(rejectedEtag := None, rejectedAt := None), RevalidationRequired)
    else Plan([Save(s.(rejectedAt := Some(at))), Send(LocalStatus(LocalActivationFailed))], false, Ok(ActivationRejected))
  }

  function OnCurrent(s: SyncState, tag: string, allow: bool): (p: Plan)
    ensures p.again ==> allow
  {
    var status := Send(LocalStatus(ConfigurationUnchanged));
    if s.publicationId.Some? && s.contentHash.Some? then
      if s.activationPhase == Some("prepare")
      then Plan([Send(Report(tag, s.publicationId.value, s.contentHash.value, Prepared)), status], false, Ok(Unchanged))
      else if s.activationPhase == Some("commit")
      then Plan([Send(Report(tag, s.publicationId.value, s.contentHash.value, Active)), status], false, Ok(Unchanged))
      else if allow then Retry(Unsynchronised(s).(activationPhase := None))
      else Fails(NoPhase)
    else if allow then Retry(Unsynchronised(s))
    else Plan([status], false, Ok(Unchanged))
  }

  function OnNotModified(w: World, s: SyncState, tag: Option<string>, allow: bool): (p: Plan)
    ensures p.again ==> allow
  {
    if tag.None? || !ValidEtag(tag.value) then Fails(InvalidEtag)
    else if s.etag != tag then Fails(UnexpectedEtag)
    else if s.activationRequired && s.rejectedEtag != tag && (!w.candidateMatches || w.grantDue) then
      if allow then RetryWithStatus(Unsynchronised(s), RevalidationRequired)
      else Fails(NeedsRevalidation)
    else if s.rejectedEtag == tag then OnRejected(w, s, allow)
    else OnCurrent(s, tag.value, allow)
  }

  function Refusal(tag: string, c: Configuration, v: Verdict): (p: Plan)
    ensures !p.again
  {
    if v.Unavailable? then Fails(CoreUnavailable)
    else Plan([Send(Report(tag, c.publicationId, c.projectionContentHash, Rejected))], false, Err(CoreRefused))
  }

  function Stored(s: SyncState, tag: string, digest: string, c: Configuration): SyncState {
    s.(etag := Some(tag), configurationSha256 := Some(digest), publicationId := Some(c.publicationId),
       contentHash := Some(c.projectionContentHash), activationPhase := Some(c.activationPhase),
       rejectedEtag := None, rejectedAt := None)
  }

  /** A verified delivery is published and, in the commit phase, offered for activation. */
  function OnAccepted(w: World, s: SyncState, tag: string, digest: string, c: Configuration, o: Objects): (p: Plan)
    ensures !p.again
  {
    var publish := Send(Publish(tag, c, o, c.activationPhase == "commit"));
    if c.activationPhase == "prepare" then
      Plan([publish, Send(Report(tag, c.publicationId, c.projectionContentHash, Prepared)),
            Save(Stored(s, tag, digest, c).(activationRequired := false)),
            Send(LocalStatus(PreparedLocally))], false, Ok(ConfigurationPrepared))
    else
      var next := Stored(s, tag, digest, c).(
        activationRequired := w.needsActivation,
        serverActivationRevision := if w.serverMode then 4 else 0,
        serverConfigurationSha256 := w.serverDigest);
      Plan([publish, Send(if w.needsActivation then PublishCandidate(tag) else RequestWithdrawal), Save(next),
            Send(LocalStatus(if w.needsActivation then PendingActivation else ConfigurationUpdated))],
           false, Ok(if w.needsActivation then ActivationPending else Updated))
  }

  function OnGrants(w: World, s: SyncState, tag: string, digest: string, c: Configuration, o: Objects, allow: bool): (p: Plan)
    ensures p.again ==> allow
  {
    match w.grants
    case Resolved => OnAccepted(w, s, tag, digest, c, o)
    case PolicyResync =>
      var resync := s.(etag := None, rejectedEtag := None, rejectedAt := None);
      if allow then RetryWithStatus(resync, ResyncRequired)
      else Plan([Save(resync), Send(LocalStatus(ResyncRequired))], false, Err(GrantsUnresolved))
    case Retryable => Fails(GrantsUnresolved)
    case Denied =>
      Plan([Send(Report(tag, c.publicationId, c.projectionContentHash, Rejected))], false, Err(GrantsUnresolved))
  }

  function OnDelivered(sha: seq<byte> -> Bytes32, w: World, s: SyncState, tag: Option<string>,
                       body: Option<(Configuration, Objects)>, allow: bool): (p: Plan)
    ensures p.again ==> allow
  {
    if tag.None? || !ValidEtag(tag.value) then Fails(InvalidEtag)
    else if body.None? || !ValidConfiguration(body.value.0) || !DecodedFrom(body.value.0, body.value.1)
    then Fails(InvalidBody)
    else
      var c, o := body.value.0, body.value.1;
      if EtagOf(sha, c, o) != tag.value then Fails(EtagMismatch)
      else if !w.control.Accepted? then Refusal(tag.value, c, w.control)
      else if !w.compatibility.Accepted? then Refusal(tag.value, c, w.compatibility)
      else if !w.discovery.Accepted? then Refusal(tag.value, c, w.discovery)
      else OnGrants(w, s, tag.value, tag.value[8..72], c, o, allow)
  }

  function OnReply(sha: seq<byte> -> Bytes32, w: World, s: SyncState, allow: bool): (p: Plan)
    ensures p.again ==> allow
  {
    match w.reply
    case NoContent => OnNoContent(s)
    case NotModified(tag) => OnNotModified(w, s, tag, allow)
    case Delivered(tag, body) => OnDelivered(sha, w, s, tag, body, allow)
    case OtherStatus => Fails(RequestFailed)
  }

  predicate Readable(disk: Disk<StateFile>) {
    STATE_FILE in disk ==> disk[STATE_FILE].Parsed? && disk[STATE_FILE].state.schemaVersion == 1
  }

  function Loaded(disk: Disk<StateFile>): SyncState {
    if STATE_FILE in disk && disk[STATE_FILE].Parsed? then disk[STATE_FILE].state else FreshState()
  }

  /** One pass. */
  function Pass(sha: seq<byte> -> Bytes32, disk: Disk<StateFile>, w: World, allow: bool): (p: Plan)
    ensures p.again ==> allow
  {
    if !Readable(disk) then Fails(UnreadableState) else
      var s := Opened(w, Loaded(disk));
      var settled := SettledState(w, s);
      if settled.etag.Some? && !ValidEtag(settled.etag.value)
      then Plan(Settling(w, s), false, Err(InvalidEtag))
      else
        var reply := OnReply(sha, w, settled, allow);
        Plan(Settling(w, s) + ([Send(Get(settled.etag))] + reply.effects), reply.again, reply.result)
  }

  /** A synchronisation: a pass and, if it asks for it, a second one that may not. */
  function Synchronised(sha: seq<byte> -> Bytes32, disk: Disk<StateFile>, w: World, retry: World, allow: bool): Plan
    decreases allow
  {
    var first := Pass(sha, disk, w, allow);
    if !first.again then first
    else
      var second := Synchronised(sha, ApplyAll(disk, first.effects), retry, retry, false);
      Plan(first.effects + second.effects, false, second.result)
  }

  // ---- the same, step by step ----

  method SettleActivation(machine: Machine<StateFile, Message>, w: World, s: SyncState) returns (state: SyncState)
    requires machine.Valid()
    modifies machine
    ensures machine.Valid() && state == SettledState(w, s)
    ensures machine.trace == old(machine.trace) + Settling(w, s)
  {
    hide ApplyAll;
    state := s;
    if !state.activationRequired {
      return;
    }
    var activation := w.receipt;
    if activation.None? {
      activation := w.proof;
    }
    if activation.None? || state.etag != Some(activation.value.etag) {
      return;
    }
    var a := activation.value;
    if a.committed {
      if w.reread {
        machine.Emit(Promote(a.etag));
      }
      machine.Emit(Report(a.etag, a.publicationId, a.contentHash, Active));
      state := state.(rejectedEtag := None);
      state := state.(rejectedAt := None);
    } else {
      machine.Emit(Report(a.etag, a.publicationId, a.contentHash, Rejected));
      if !w.statusConflict {
        machine.Emit(RemoveCandidate(a.etag));
        state := state.(rejectedEtag := Some(a.etag));
        state := state.(rejectedAt := Some(w.now));
      }
    }
    machine.Emit(ClearReceipt);
    machine.Write(STATE_FILE, Parsed(state));
  }

  method HandleNoContent(machine: Machine<StateFile, Message>, s: SyncState) returns (result: Result<Outcome, Failure>)
    requires machine.Valid()
    modifies machine
    ensures machine.Valid()
    ensures result == OnNoContent(s).result && machine.trace == old(machine.trace) + OnNoContent(s).effects
  {
    machine.Emit(RequestWithdrawal);
    var state := s.(etag := None, configurationSha256 := None);
    state := state.(activationPhase := None, activationRequired := false);
    state := state.(rejectedEtag := None, rejectedAt := None);
    machine.Write(STATE_FILE, Parsed(state));
    machine.Emit(LocalStatus(WaitingForNetworkConfiguration));
    result := Ok(Waiting);
  }

  /** The Cloud still offers what was rejected here: ask afresh after a minute. */
  method HandleRejected(machine: Machine<StateFile, Message>, w: World, s: SyncState, allow: bool)
    returns (again: bool, result: Result<Outcome, Failure>)
    requires machine.Valid()
    modifies machine
    ensures machine.Valid()
    ensures var p := OnRejected(w, s, allow);
            again == p.again && result == p.result && machine.trace == old(machine.trace) + p.effects
  {
    hide ApplyAll;
    var state := s;
    if state.rejectedAt.None? {
      state := state.(rejectedAt := Some(w.now));
    }
    if SaturatingSub(w.now, state.rejectedAt.value) >= ACTIVATION_REVALIDATION_SECONDS && allow {
      state := state.(etag := None, configurationSha256 := None);
      state := state.(rejectedEtag := None, rejectedAt := None);
      machine.Write(STATE_FILE, Parsed(state));
      machine.Emit(LocalStatus(RevalidationRequired));
      return true, Ok(Unchanged);
    }
    machine.Write(STATE_FILE, Parsed(state));
    machine.Emit(LocalStatus(LocalActivationFailed));
    again, result := false, Ok(ActivationRejected);
  }

  /** The stored configuration is current: repeat its status, or fetch it once more if the state file
      does not say what to report. */
  method HandleCurrent(machine: Machine<StateFile, Message>, s: SyncState, tag: string, allow: bool)
    returns (again: bool, result: Result<Outcome, Failure>)
    requires machine.Valid()
    modifies machine
    ensures machine.Valid()
    ensures var p := OnCurrent(s, tag, allow);
            again == p.again && result == p.result && machine.trace == old(machine.trace) + p.effects
  {
    hide ApplyAll;
    var state := s;
    if state.publicationId.Some? && state.contentHash.Some? {
      var reported := Prepared;
      if state.activationPhase == Some("commit") {
        reported := Active;
      } else if state.activationPhase != Some("prepare") {
        if !allow {
          return false, Err(NoPhase);
        }
        state := state.(etag := None, configurationSha256 := None);
        state := state.(activationPhase := None);
        machine.Write(STATE_FILE, Parsed(state));
        return true, Ok(Unchanged);
      }
      machine.Emit(Report(tag, state.publicationId.value, state.contentHash.value, reported));
    } else if allow {
      state := state.(etag := None, configurationSha256 := None);
      machine.Write(STATE_FILE, Parsed(state));
      return true, Ok(Unchanged);
    }
    machine.Emit(LocalStatus(ConfigurationUnchanged));
    again, result := false, Ok(Unchanged);
  }

  method HandleNotModified(machine: Machine<StateFile, Message>, w: World, s: SyncState, tag: Option<string>, allow: bool)
    returns (again: bool, result: Result<Outcome, Failure>)
    requires machine.Valid()
    modifies machine
    ensures machine.Valid()
    ensures var p := OnNotModified(w, s, tag, allow);
            again == p.again && result == p.result && machine.trace == old(machine.trace) + p.effects
  {
    hide ValidEtag, OnRejected, OnCurrent, ApplyAll;
    if tag.None? || !ValidEtag(tag.value) {
      return false, Err(InvalidEtag);
    }
    if s.etag != tag {
      return false, Err(UnexpectedEtag);
    }
    if s.activationRequired && s.rejectedEtag != tag && (!w.candidateMatches || w.grantDue) {
      if !allow {
        return false, Err(NeedsRevalidation);
      }
      var state := s.(etag := None, configurationSha256 := None);
      machine.Write(STATE_FILE, Parsed(state));
      machine.Emit(LocalStatus(RevalidationRequired));
      return true, Ok(Unchanged);
    }
    if s.rejectedEtag == tag {
      again, result := HandleRejected(machine, w, s, allow);
    } else {
      again, result := HandleCurrent(machine, s, tag.value, allow);
    }
  }

  method HandlePrepared(machine: Machine<StateFile, Message>, w: World, s: SyncState, tag: string, digest: string,
                        c: Configuration, o: Objects) returns (result: Result<Outcome, Failure>)
    requires machine.Valid() && c.activationPhase == "prepare"
    modifies machine
    ensures machine.Valid()
    ensures var p := OnAccepted(w, s, tag, digest, c, o);
            result == p.result && !p.again && machine.trace == old(machine.trace) + p.effects
  {
    hide ApplyAll;
    machine.Emit(Publish(tag, c, o, false));
    machine.Emit(Report(tag, c.publicationId, c.projectionContentHash, Prepared));
    var state := s.(activationRequired := false, rejectedEtag := None, rejectedAt := None);
    state := state.(etag := Some(tag), configurationSha256 := Some(digest));
    state := state.(publicationId := Some(c.publicationId), contentHash := Some(c.projectionContentHash));
    state := state.(activationPhase := Some(c.activationPhase));
    machine.Write(STATE_FILE, Parsed(state));
    machine.Emit(LocalStatus(PreparedLocally));
    result := Ok(ConfigurationPrepared);
  }

  method HandleCommitted(machine: Machine<StateFile, Message>, w: World, s: SyncState, tag: string, digest: string,
                         c: Configuration, o: Objects) returns (result: Result<Outcome, Failure>)
    requires machine.Valid() && c.activationPhase != "prepare"
    modifies machine
    ensures machine.Valid()
    ensures var p := OnAccepted(w, s, tag, digest, c, o);
            result == p.result && !p.again && machine.trace == old(machine.trace) + p.effects
  {
    hide ApplyAll;
    machine.Emit(Publish(tag, c, o, c.activationPhase == "commit"));
    var state := s;
    if w.needsActivation {
      machine.Emit(PublishCandidate(tag));
      state := state.(activationRequired := true, rejectedEtag := None, rejectedAt := None);
    } else {
      machine.Emit(RequestWithdrawal);
      state := state.(activationRequired := false, rejectedEtag := None, rejectedAt := None);
    }
    state := state.(etag := Some(tag), configurationSha256 := Some(digest));
    state := state.(serverActivationRevision := if w.serverMode then 4 else 0);
    state := state.(serverConfigurationSha256 := w.serverDigest);
    state := state.(publicationId := Some(c.publicationId), contentHash := Some(c.projectionContentHash));
    state := state.(activationPhase := Some(c.activationPhase));
    machine.Write(STATE_FILE, Parsed(state));
    machine.Emit(LocalStatus(if state.activationRequired then PendingActivation else ConfigurationUpdated));
    result := Ok(if state.activationRequired then ActivationPending else Updated);
  }

  method HandleGrants(machine: Machine<StateFile, Message>, w: World, s: SyncState, tag: string, digest: string,
                      c: Configuration, o: Objects, allow: bool)
    returns (again: bool, result: Result<Outcome, Failure>)
    requires machine.Valid()
    modifies machine
    ensures machine.Valid()
    ensures var p := OnGrants(w, s, tag, digest, c, o, allow);
            again == p.again && result == p.result && machine.trace == old(machine.trace) + p.effects
  {
    hide OnAccepted, ApplyAll;
    again := false;
    match w.grants {
      case PolicyResync =>
        var state := s.(etag := None, rejectedEtag := None, rejectedAt := None);
        machine.Write(STATE_FILE, Parsed(state));
        machine.Emit(LocalStatus(ResyncRequired));
        again, result := allow, if allow then Ok(Unchanged) else Err(GrantsUnresolved);
      case Retryable =>
        result := Err(GrantsUnresolved);
      case Denied =>
        machine.Emit(Report(tag, c.publicationId, c.projectionContentHash, Rejected));
        result := Err(GrantsUnresolved);
      case Resolved =>
        if c.activationPhase == "prepare" {
          result := HandlePrepared(machine, w, s, tag, digest, c, o);
        } else {
          result := HandleCommitted(machine, w, s, tag, digest, c, o);
        }
    }
  }

  method HandleDelivered(sha: seq<byte> -> Bytes32, machine: Machine<StateFile, Message>, w: World, s: SyncState,
                         tag: Option<string>, body: Option<(Configuration, Objects)>, allow: bool)
    returns (again: bool, result: Result<Outcome, Failure>)
    requires machine.Valid()
    modifies machine
    ensures machine.Valid()
    ensures var p := OnDelivered(sha, w, s, tag, body, allow);
            again == p.again && result == p.result && machine.trace == old(machine.trace) + p.effects
  {
    hide ValidEtag, ValidConfiguration, DecodedFrom, EtagOf, OnGrants, ApplyAll;
    if tag.None? || !ValidEtag(tag.value) {
      return false, Err(InvalidEtag);
    }
    if body.None? || !ValidConfiguration(body.value.0) || !DecodedFrom(body.value.0, body.value.1) {
      return false, Err(InvalidBody);
    }
    var c, o := body.value.0, body.value.1;
    if EtagOf(sha, c, o) != tag.value {
      return false, Err(EtagMismatch);
    }
    var verdict := if !w.control.Accepted? then w.control
                   else if !w.compatibility.Accepted? then w.compatibility
                   else w.discovery;
    if verdict.Unavailable? {
      return false, Err(CoreUnavailable);
    }
    if verdict.Refused? {
      machine.Emit(Report(tag.value, c.publicationId, c.projectionContentHash, Rejected));
      return false, Err(CoreRefused);
    }
    EtagLength(tag.value);
    again, result := HandleGrants(machine, w, s, tag.value, tag.value[8..72], c, o, allow);
  }

  lemma EtagLength(e: string)
    requires ValidEtag(e)
    ensures |e| == 73
  {
  }

  method SyncPass(sha: seq<byte> -> Bytes32, machine: Machine<StateFile, Message>, w: World, allow: bool)
    returns (again: bool, result: Result<Outcome, Failure>)
    requires machine.Valid()
    modifies machine
    ensures machine.Valid()
    ensures var p := Pass(sha, old(machine.disk), w, allow);
            again == p.again && result == p.result && machine.trace == old(machine.trace) + p.effects
  {
    hide Settling, SettledState, ValidEtag, OnNotModified, OnDelivered, OnNoContent;
    if !Readable(machine.disk) {
      return false, Err(UnreadableState);
    }
    var state := FreshState();
    if STATE_FILE in machine.disk {
      state := machine.disk[STATE_FILE].state;
    }
    if w.serverMode
       && (state.serverActivationRevision != 4 || state.serverConfigurationSha256 != w.serverDigest)
    {
      state := state.(etag := None);
      state := state.(configurationSha256 := None);
    }
    ghost var settling, before := Settling(w, state), machine.trace;
    state := SettleActivation(machine, w, state);
    if state.etag.Some? && !ValidEtag(state.etag.value) {
      return false, Err(InvalidEtag);
    }
    machine.Emit(Get(state.etag));
    match w.reply {
      case NoContent =>
        result := HandleNoContent(machine, state);
        again := false;
      case NotModified(tag) =>
        again, result := HandleNotModified(machine, w, state, tag, allow);
      case Delivered(tag, body) =>
        again, result := HandleDelivered(sha, machine, w, state, tag, body, allow);
      case OtherStatus =>
        again, result := false, Err(RequestFailed);
    }
    ghost var get, effects := [Send(Get(state.etag))], OnReply(sha, w, state, allow).effects;
    Assoc(before + settling, get, effects);
    Assoc(before, settling, get + effects);
  }

  method SyncOnceWithRetry(sha: seq<byte> -> Bytes32, machine: Machine<StateFile, Message>, w: World, retry: World,
                           allow: bool) returns (result: Result<Outcome, Failure>)
    requires machine.Valid()
    modifies machine
    ensures machine.Valid()
    ensures var p := Synchronised(sha, old(machine.disk), w, retry, allow);
            result == p.result && machine.trace == old(machine.trace) + p.effects
    decreases allow
  {
    hide Pass;
    ghost var disk, before := machine.disk, machine.trace;
    var again, outcome := SyncPass(sha, machine, w, allow);
    if !again {
      return outcome;
    }
    ghost var first := Pass(sha, disk, w, allow);
    ApplyInTurn(machine.boot, before, first.effects);
    result := SyncOnceWithRetry(sha, machine, retry, retry, false);
    Assoc(before, first.effects, Synchronised(sha, ApplyAll(disk, first.effects), retry, retry, false).effects);
  }
}
