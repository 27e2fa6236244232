/** The transport-identity outbox: the registration to publish is made durable before it is sent,
    and counted as published only once the Cloud has confirmed it. */
module TransportIdentity {
  import opened Bytes
  import opened Host
  import opened Text
  import opened Wrappers

  const MAX_PUBLIC_ENDPOINTS: nat := 8
  const STATE_FILE := "transport-identity-state-v1.json"

  datatype TransportPreset = Current | BbrV1 | Aggressive

  datatype RegisteredEndpoint = RegisteredEndpoint(
    endpoint: string, serverCertSha256: string, transportPreset: TransportPreset)

  datatype Request = Request(schemaVersion: nat, requestId: string, endpoints: seq<RegisteredEndpoint>)

  datatype PendingRegistration = PendingRegistration(digest: string, request: Request)

  datatype IdentityBinding = IdentityBinding(deviceId: Bytes16, deviceKeyId: Bytes16)

  datatype ReconcileState = ReconcileState(
    schemaVersion: nat, identity: Option<IdentityBinding>,
    appliedDigest: Option<string>, pending: Option<PendingRegistration>)

  /** A state file may also be something that does not parse. */
  datatype StateFile = Parsed(state: ReconcileState) | Malformed

  /** A registration sent to the Cloud under a device identity, and whether its reply arrived. */
  datatype Put = Put(identity: IdentityBinding, request: Request, acknowledged: bool)

  datatype Outcome = NoExplicitEndpoints | Unchanged | Applied

  datatype Failure =
    | InvalidRequest | InvalidIdentity | InvalidState | PutFailed

  /** The libraries: JSON serialization, the hash, and socket-address parsing. */
  datatype Libraries = Libraries(
    json: seq<RegisteredEndpoint> -> seq<byte>,
    sha: seq<byte> -> Bytes32,
    concreteAddress: string -> bool)

  /** `"candy/runtime-transport-identity-v1\0"`. */
  const DIGEST_DOMAIN: seq<byte> :=
    [99, 97, 110, 100, 121, 47, 114, 117, 110, 116, 105, 109, 101, 45, 116, 114, 97, 110, 115, 112, 111, 114, 116,
     45, 105, 100, 101, 110, 116, 105, 116, 121, 45, 118, 49, 0]

  function DigestBytes(lib: Libraries, endpoints: seq<RegisteredEndpoint>): seq<byte> {
    DIGEST_DOMAIN + Prefixed(lib.json(endpoints), 8)
  }

  function Digest(lib: Libraries, endpoints: seq<RegisteredEndpoint>): string {
    Hex(lib.sha(DigestBytes(lib, endpoints)))
  }

  /** The libraries tell these two registrations apart: JSON writes them differently, far below 2^64
      bytes, and the hash does not collide on them. */
  ghost predicate TellsApart(lib: Libraries, a: seq<RegisteredEndpoint>, b: seq<RegisteredEndpoint>) {
    && (lib.json(a) == lib.json(b) ==> a == b)
    && |lib.json(a)| < 0x1_0000_0000_0000_0000 && |lib.json(b)| < 0x1_0000_0000_0000_0000
    && NoCollision(lib.sha, DigestBytes(lib, a), DigestBytes(lib, b))
  }

  predicate Countable(endpoints: seq<RegisteredEndpoint>) {
    1 <= |endpoints| <= MAX_PUBLIC_ENDPOINTS
  }

  predicate ValidRequest(lib: Libraries, r: Request) {
    && r.schemaVersion == 1 && Countable(r.endpoints)
    && r.requestId == "transport-v1-" + Digest(lib, r.endpoints)
    && forall i :: 0 <= i < |r.endpoints| ==>
         lib.concreteAddress(r.endpoints[i].endpoint) && CanonicalHex(r.endpoints[i].serverCertSha256, 32)
  }

  predicate ValidIdentity(i: IdentityBinding) {
    i.deviceId != seq(16, _ => 0) && i.deviceKeyId != seq(16, _ => 0)
  }

  predicate ValidState(lib: Libraries, s: ReconcileState) {
    && ((s.schemaVersion == 1 && s.identity.None?)
        || (s.schemaVersion == 2 && s.identity.Some? && ValidIdentity(s.identity.value)))
    && (s.appliedDigest.Some? ==> CanonicalHex(s.appliedDigest.value, 32))
    && (s.pending.Some? ==>
          ValidRequest(lib, s.pending.value.request)
          && s.pending.value.digest == Digest(lib, s.pending.value.request.endpoints))
  }

  /** Equal digests come from equal registrations. */
  lemma DigestInjective(lib: Libraries, a: seq<RegisteredEndpoint>, b: seq<RegisteredEndpoint>)
    requires TellsApart(lib, a, b) && Digest(lib, a) == Digest(lib, b)
    ensures a == b
  {
    Widths();
    var x, y := Prefixed(lib.json(a), 8), Prefixed(lib.json(b), 8);
    HexInjective(lib.sha(DigestBytes(lib, a)), lib.sha(DigestBytes(lib, b)));
    SameHeads(DIGEST_DOMAIN, x, DIGEST_DOMAIN, y);
    assert x + [] == x && y + [] == y;
    PrefixedInjective(lib.json(a), [], lib.json(b), [], 8);
  }

  function Fresh(identity: IdentityBinding): ReconcileState {
    ReconcileState(2, Some(identity), None, None)
  }

  /** The state a call starts from: the stored one if it belongs to this identity. */
  function Bound(disk: Disk<StateFile>, identity: IdentityBinding): ReconcileState {
    if STATE_FILE in disk && disk[STATE_FILE].Parsed?
       && disk[STATE_FILE].state.schemaVersion == 2 && disk[STATE_FILE].state.identity == Some(identity)
    then disk[STATE_FILE].state
    else Fresh(identity)
  }

  predicate Loadable(lib: Libraries, disk: Disk<StateFile>) {
    STATE_FILE in disk ==> disk[STATE_FILE].Parsed? && ValidState(lib, disk[STATE_FILE].state)
  }

  datatype Plan = Plan(effects: seq<Effect<StateFile, Put>>, result: Result<Outcome, Failure>)

  /** What one call does to the disk and the network, and what it answers. */
  function Reconciled(lib: Libraries, disk: Disk<StateFile>, identity: IdentityBinding,
                      desired: Option<Request>, acknowledged: bool): Plan
  {
    if desired.None? then Plan([], Ok(NoExplicitEndpoints))
    else if !ValidRequest(lib, desired.value) then Plan([], Err(InvalidRequest))
    else if !ValidIdentity(identity) then Plan([], Err(InvalidIdentity))
    else if !Loadable(lib, disk) then Plan([], Err(InvalidState))
    else
      var digest := Digest(lib, desired.value.endpoints);
      var state := Bound(disk, identity);
      if state.appliedDigest == Some(digest) && state.pending.None? then Plan([], Ok(Unchanged))
      else
        var kept := state.pending.Some? && state.pending.value.digest == digest;
        var waiting := if kept then state
                       else state.(pending := Some(PendingRegistration(digest, desired.value)));
        var put := Send(Put(identity, waiting.pending.value.request, acknowledged));
        var sent := if kept then [put] else [Replace(STATE_FILE, Parsed(waiting)), put];
        if !acknowledged then Plan(sent, Err(PutFailed))
        else
          var done := waiting.(appliedDigest := Some(digest), pending := None);
          Plan(sent + [Replace(STATE_FILE, Parsed(done))], Ok(Applied))
  }

  method Reconcile(lib: Libraries, machine: Machine<StateFile, Put>, identity: IdentityBinding,
                   desired: Option<Request>, acknowledged: bool)
    returns (result: Result<Outcome, Failure>)
    requires machine.Valid()
    modifies machine
    ensures machine.Valid()
    ensures var plan := Reconciled(lib, old(machine.disk), identity, desired, acknowledged);
            result == plan.result && machine.trace == old(machine.trace) + plan.effects
  {
    hide ValidRequest, Digest, CanonicalHex, ValidState, ValidIdentity, ApplyAll;
    if desired.None? {
      return Ok(NoExplicitEndpoints);
    }
    if !ValidRequest(lib, desired.value) {
      return Err(InvalidRequest);
    }
    if !ValidIdentity(identity) {
      return Err(InvalidIdentity);
    }
    var digest := Digest(lib, desired.value.endpoints);
    var state := Fresh(identity);
    if STATE_FILE in machine.disk {
      if machine.disk[STATE_FILE].Malformed? || !ValidState(lib, machine.disk[STATE_FILE].state) {
        return Err(InvalidState);
      }
      state := machine.disk[STATE_FILE].state;
    }
    if state.schemaVersion != 2 || state.identity != Some(identity) {
      state := Fresh(identity);
    }
    if state.appliedDigest == Some(digest) && state.pending.None? {
      return Ok(Unchanged);
    }
    if state.pending.None? || state.pending.value.digest != digest {
      state := state.(pending := Some(PendingRegistration(digest, desired.value)));
      machine.Write(STATE_FILE, Parsed(state));
    }
    var request := state.pending.value.request;
    machine.Emit(Put(identity, request, acknowledged));
    if !acknowledged {
      return Err(PutFailed);
    }
    state := state.(appliedDigest := Some(digest));
    state := state.(pending := None);
    machine.Write(STATE_FILE, Parsed(state));
    result := Ok(Applied);
  }

  // ---- runs ----

  /** One call, and after how many of its effects power fails (or none: any larger number). */
  datatype Call = Call(identity: IdentityBinding, desired: Option<Request>, acknowledged: bool, cut: nat)

  function Steps(lib: Libraries, disk: Disk<StateFile>, call: Call): seq<Effect<StateFile, Put>> {
    UpTo(Reconciled(lib, disk, call.identity, call.desired, call.acknowledged).effects, call.cut)
  }

  /** Everything that happened over a sequence of calls and crashes. */
  function Run(lib: Libraries, boot: Disk<StateFile>, calls: seq<Call>): seq<Effect<StateFile, Put>> {
    if calls == [] then [] else
      var before := Run(lib, boot, calls[..|calls| - 1]);
      before + Steps(lib, ApplyAll(boot, before), calls[|calls| - 1])
  }

  /** The last registration that may have reached the Cloud under this identity. */
  function LastPut(trace: seq<Effect<StateFile, Put>>, identity: IdentityBinding): Option<Put> {
    if trace == [] then None else
      var e := trace[|trace| - 1];
      if e.Send? && e.message.identity == identity then Some(e.message)
      else LastPut(trace[..|trace| - 1], identity)
  }

  /** Files from before the first call: none, or one without an identity. */
  ghost predicate Unbound(boot: Disk<StateFile>) {
    STATE_FILE in boot && boot[STATE_FILE].Parsed? ==> boot[STATE_FILE].state.schemaVersion != 2
  }

  /** A settled file vouches for the last put of its identity. */
  ghost predicate Settled(lib: Libraries, disk: Disk<StateFile>, trace: seq<Effect<StateFile, Put>>) {
    STATE_FILE in disk && disk[STATE_FILE].Parsed? ==>
      var s := disk[STATE_FILE].state;
      s.schemaVersion == 2 && s.identity.Some? && s.appliedDigest.Some? && s.pending.None? ==>
        var last := LastPut(trace, s.identity.value);
        last.Some? && last.value.acknowledged
        && ValidRequest(lib, last.value.request)
        && s.appliedDigest.value == Digest(lib, last.value.request.endpoints)
  }

  lemma LastPutOneMore(trace: seq<Effect<StateFile, Put>>, e: Effect<StateFile, Put>, identity: IdentityBinding)
    ensures LastPut(trace + [e], identity)
            == if e.Send? && e.message.identity == identity then Some(e.message) else LastPut(trace, identity)
  {
    assert (trace + [e])[..|trace|] == trace;
  }

  /** While a registration is pending the file promises nothing, so a put may change the last one. */
  lemma PendingKeepsSettled(lib: Libraries, disk: Disk<StateFile>, trace: seq<Effect<StateFile, Put>>)
    requires STATE_FILE in disk && disk[STATE_FILE].Parsed? && disk[STATE_FILE].state.pending.Some?
    ensures Settled(lib, disk, trace)
  {
  }

  lemma ConfirmedPutSettles(lib: Libraries, disk: Disk<StateFile>, trace: seq<Effect<StateFile, Put>>,
                            put: Put, done: ReconcileState)
    requires trace != [] && trace[|trace| - 1] == Send(put) && put.acknowledged
    requires done.identity == Some(put.identity) && ValidRequest(lib, put.request)
    requires done.appliedDigest == Some(Digest(lib, put.request.endpoints))
    ensures Settled(lib, disk[STATE_FILE := Parsed(done)], trace + [Replace(STATE_FILE, Parsed(done))])
  {
    hide ValidRequest, Digest;
    LastPutOneMore(trace, Replace(STATE_FILE, Parsed(done)), put.identity);
  }

  /** What the last effect of a call, complete or cut short, can be. */
  ghost predicate KeepsPromise(lib: Libraries, disk: Disk<StateFile>, init: seq<Effect<StateFile, Put>>,
                               last: Effect<StateFile, Put>)
  {
    match last
    case Remove(_) => false
    case Send(_) =>
      var now := ApplyAll(disk, init);
      STATE_FILE in now && now[STATE_FILE].Parsed? && now[STATE_FILE].state.pending.Some?
    case Replace(name, content) =>
      name == STATE_FILE && content.Parsed? &&
      (content.state.pending.None? ==>
         && init != [] && init[|init| - 1].Send?
         && var put := init[|init| - 1].message;
            && put.acknowledged && content.state.identity == Some(put.identity) && ValidRequest(lib, put.request)
            && content.state.appliedDigest == Some(Digest(lib, put.request.endpoints)))
  }

  lemma StepsEndWell(lib: Libraries, disk: Disk<StateFile>, call: Call)
    requires Steps(lib, disk, call) != []
    ensures var es := Steps(lib, disk, call); KeepsPromise(lib, disk, es[..|es| - 1], es[|es| - 1])
  {
    hide ValidRequest, Digest, CanonicalHex;
    var es := Steps(lib, disk, call);
    var plan := Reconciled(lib, disk, call.identity, call.desired, call.acknowledged).effects;
    if |es| == 1 {
      assert es[..0] == [];
    } else {
      assert es[..1] == [plan[0]];
      ApplyOne(disk, plan[0]);
    }
  }

  /** Every effect of a call keeps the file's promise, wherever power fails. */
  lemma StepsKeepSettled(lib: Libraries, disk: Disk<StateFile>, trace: seq<Effect<StateFile, Put>>, call: Call)
    requires Settled(lib, disk, trace)
    ensures var es := Steps(lib, disk, call);
            Settled(lib, ApplyAll(disk, es), trace + es)
  {
    hide ValidRequest, Digest, Settled, LastPut, Steps;
    var es := Steps(lib, disk, call);
    if es == [] {
      assert trace + es == trace;
    } else {
      var init, last := es[..|es| - 1], es[|es| - 1];
      StepsEndWell(lib, disk, call);
      InitAndLast(es);
      ApplyOneMore(disk, init, last);
      Assoc(trace, init, [last]);
      if last.Replace? && last.content.state.pending.None? {
        var before := trace + init;
        assert before[|before| - 1] == init[|init| - 1];
        ConfirmedPutSettles(lib, ApplyAll(disk, init), before, init[|init| - 1].message, last.content.state);
      } else {
        PendingKeepsSettled(lib, ApplyAll(disk, es), trace + es);
      }
    }
  }

  lemma {:induction false} RunKeepsSettled(lib: Libraries, boot: Disk<StateFile>, calls: seq<Call>)
    requires Unbound(boot)
    ensures var t := Run(lib, boot, calls); Settled(lib, ApplyAll(boot, t), t)
  {
    if calls != [] {
      var before := Run(lib, boot, calls[..|calls| - 1]);
      RunKeepsSettled(lib, boot, calls[..|calls| - 1]);
      var call := calls[|calls| - 1];
      StepsKeepSettled(lib, ApplyAll(boot, before), before, call);
      ApplyInTurn(boot, before, Steps(lib, ApplyAll(boot, before), call));
    }
  }

  lemma SameDigestSameRequest(lib: Libraries, a: Request, b: Request)
    requires TellsApart(lib, a.endpoints, b.endpoints)
    requires ValidRequest(lib, a) && ValidRequest(lib, b) && Digest(lib, a.endpoints) == Digest(lib, b.endpoints)
    ensures a == b
  {
    DigestInjective(lib, a.endpoints, b.endpoints);
  }

  /** No registration sent is mistaken for the desired one. */
  ghost predicate TellsFromSent(lib: Libraries, trace: seq<Effect<StateFile, Put>>, desired: Request) {
    forall i :: 0 <= i < |trace| && trace[i].Send? ==>
      TellsApart(lib, trace[i].message.request.endpoints, desired.endpoints)
  }

  /** Outbox safety: after any run of calls with lost replies, crashes, changed wishes and changed
      identities, `Unchanged` means that the last registration that can have taken effect for this
      identity is the desired one, and that the Cloud confirmed it. */
  lemma UnchangedMeansPublished(lib: Libraries, boot: Disk<StateFile>, calls: seq<Call>,
                                identity: IdentityBinding, desired: Request, acknowledged: bool)
    requires Unbound(boot) && TellsFromSent(lib, Run(lib, boot, calls), desired)
    requires var disk := ApplyAll(boot, Run(lib, boot, calls));
             Reconciled(lib, disk, identity, Some(desired), acknowledged).result == Ok(Unchanged)
    ensures LastPut(Run(lib, boot, calls), identity) == Some(Put(identity, desired, true))
  {
    hide ValidRequest, Digest, CanonicalHex, TellsApart, Run;
    var t := Run(lib, boot, calls);
    RunKeepsSettled(lib, boot, calls);
    LastPutWasSent(t, identity);
    SameDigestSameRequest(lib, LastPut(t, identity).value.request, desired);
  }

  lemma {:induction false} LastPutWasSent(trace: seq<Effect<StateFile, Put>>, identity: IdentityBinding)
    ensures LastPut(trace, identity).Some? ==>
              LastPut(trace, identity).value.identity == identity
              && exists i :: 0 <= i < |trace| && trace[i] == Send(LastPut(trace, identity).value)
  {
    if trace != [] {
      var init := trace[..|trace| - 1];
      LastPutWasSent(init, identity);
      assert forall i :: 0 <= i < |init| ==> init[i] == trace[i];
    }
  }

  /** Every put carries exactly the registration its call asked for, so a retry after a lost reply
      repeats the request; and that request was durable, under this identity, before it left. */
  lemma PutIsDesiredAndDurable(lib: Libraries, disk: Disk<StateFile>, call: Call, i: nat)
    requires Bound(disk, call.identity).pending.Some? && call.desired.Some? ==>
               TellsApart(lib, Bound(disk, call.identity).pending.value.request.endpoints, call.desired.value.endpoints)
    requires i < |Steps(lib, disk, call)| && Steps(lib, disk, call)[i].Send?
    ensures var es := Steps(lib, disk, call); var at := ApplyAll(disk, es[..i]);
            && call.desired.Some?
            && es[i].message == Put(call.identity, call.desired.value, call.acknowledged)
            && STATE_FILE in at && at[STATE_FILE].Parsed?
            && at[STATE_FILE].state.identity == Some(call.identity)
            && at[STATE_FILE].state.pending
               == Some(PendingRegistration(Digest(lib, call.desired.value.endpoints), call.desired.value))
  {
    hide ValidRequest, Digest, CanonicalHex, TellsApart;
    var es := Steps(lib, disk, call);
    var state := Bound(disk, call.identity);
    if i == 0 {
      assert es[..0] == [];
      SameDigestSameRequest(lib, state.pending.value.request, call.desired.value);
    } else {
      assert es[..1] == [es[0]];
      ApplyOne(disk, es[0]);
    }
  }

  /** An acknowledged call settles: asking again for the same registration sends nothing. */
  lemma AppliedThenUnchanged(lib: Libraries, disk: Disk<StateFile>, identity: IdentityBinding, desired: Request,
                             again: bool)
    requires Reconciled(lib, disk, identity, Some(desired), true).result == Ok(Applied)
    ensures var after := ApplyAll(disk, Reconciled(lib, disk, identity, Some(desired), true).effects);
            Reconciled(lib, after, identity, Some(desired), again) == Plan([], Ok(Unchanged))
  {
    hide ValidRequest, Digest, CanonicalHex;
    var es := Reconciled(lib, disk, identity, Some(desired), true).effects;
    var init, last := es[..|es| - 1], es[|es| - 1];
    InitAndLast(es);
    ApplyOneMore(disk, init, last);
    DigestIsCanonical(lib, desired.endpoints);
  }

  lemma DigestIsCanonical(lib: Libraries, endpoints: seq<RegisteredEndpoint>)
    ensures CanonicalHex(Digest(lib, endpoints), 32)
  {
    HexIsCanonical(lib.sha(DigestBytes(lib, endpoints)));
  }
}
