/** Renewal of access Grants: one file per signed authorization, a pending transaction that survives
    restarts, and a revocation nothing undoes. */
module Grant {
  import opened Bytes
  import opened Host
  import opened Text
  import opened Wrappers

  const GRANT_STATE_SCHEMA_VERSION: nat := 2
  const MAX_GRANT_ENVELOPE_BYTES: nat := 8 * 1024
  const U64_MAX: nat := 0xFFFF_FFFF_FFFF_FFFF

  datatype Subject = Subject(
    nodePoolId: Bytes16, tenantId: Bytes16, deviceId: Bytes16, deviceKeyId: Bytes16, projectionId: Bytes16,
    projectionGeneration: u64, projectionContentHash: string)

  datatype Response = Response(grantId: Bytes16, expiresAt: u64, refreshAfter: u64, replayed: bool, accessGrant: string)

  datatype Report = Report(
    schemaVersion: nat, ok: bool, grantId: Bytes16, tenantId: Bytes16, deviceId: Bytes16, deviceKeyId: Bytes16,
    nodePoolId: Bytes16, servicePermission: string, routePolicyId: Bytes16, routePolicyGeneration: u64,
    routePolicyContentHash: string, notBefore: u64, refreshAfter: u64, expiresAt: u64)

  datatype CachedGrant = CachedGrant(
    sequence: u64, requestId: string, grantId: Bytes16, fetchedAt: u64, expiresAt: u64, accessGrant: string,
    verification: Report)

  datatype PendingIssuance = PendingIssuance(sequence: u64, requestId: string, createdAt: u64)

  /** The binding fields of the state are kept as the subject they were copied from. */
  datatype GrantState = GrantState(
    schemaVersion: nat, subject: Subject, completedSequence: u64,
    pending: Option<PendingIssuance>, active: Option<CachedGrant>, revokedAt: Option<u64>)

  datatype GrantFile = State(state: GrantState) | Staged(envelope: seq<byte>) | Malformed

  datatype Message =
    | Fetch(subject: Subject, sequence: u64, requestId: string)
    | Verify(path: string)

  /** The hash and the base64url decoder. */
  datatype Libraries = Libraries(sha: seq<byte> -> Bytes32, base64: string -> Option<seq<byte>>)

  const NIL: Bytes16 := [0, 0, 0, 0, 0, 0, 0, 0, 0, 0, 0, 0, 0, 0, 0, 0]

  // ---- names derived from the subject ----

  predicate ValidSubject(s: Subject) {
    && s.nodePoolId != NIL && s.tenantId != NIL && s.deviceId != NIL && s.deviceKeyId != NIL && s.projectionId != NIL
    && s.projectionGeneration != 0 && CanonicalHex(s.projectionContentHash, 32)
  }

  function SubjectBytes(s: Subject): seq<byte> {
    s.nodePoolId + (s.tenantId + (s.deviceId + (s.deviceKeyId + (s.projectionId
    + (BigEndian(s.projectionGeneration, 8) + Ascii(s.projectionContentHash))))))
  }

  const STATE_DOMAIN: string := "candy/sdwan-grant-state-v2\0"
  const REQUEST_DOMAIN: string := "candy/sdwan-grant-request-v2\0"

  function StorageBytes(s: Subject): seq<byte> {
    Ascii(STATE_DOMAIN) + SubjectBytes(s)
  }

  function RequestBytes(s: Subject, sequence: u64): seq<byte> {
    Ascii(REQUEST_DOMAIN) + (SubjectBytes(s) + BigEndian(sequence, 8))
  }

  function StorageId(lib: Libraries, s: Subject): string {
    Hex(lib.sha(StorageBytes(s)))
  }

  function RequestId(lib: Libraries, s: Subject, sequence: u64): string {
    "sdwan-v2-" + Hex(lib.sha(RequestBytes(s, sequence)))
  }

  function StatePath(lib: Libraries, s: Subject): string {
    "grants/" + StorageId(lib, s) + ".json"
  }

  function StagingPath(uuid: string): string {
    "grants/.candidate-grant." + uuid + ".tmp"
  }

  // ---- what is checked ----

  predicate ValidRequestId(id: string) {
    && 0 < |id| <= 120
    && forall i :: 0 <= i < |id| ==>
         '0' <= id[i] <= '9' || 'a' <= id[i] <= 'z' || 'A' <= id[i] <= 'Z' || id[i] in ['-', '_', '.']
  }

  predicate ValidAccessGrant(lib: Libraries, g: string) {
    && 0 < |g| <= 10_924
    && lib.base64(g).Some? && 0 < |lib.base64(g).value| <= MAX_GRANT_ENVELOPE_BYTES
  }

  predicate ValidResponse(lib: Libraries, r: Response) {
    r.grantId != NIL && ValidAccessGrant(lib, r.accessGrant)
  }

  /** The facts Core vouches for, against the signed authorization. */
  predicate BoundReport(s: Subject, r: Report) {
    && r.schemaVersion == 1 && r.ok && r.grantId != NIL
    && r.tenantId == s.tenantId && r.deviceId == s.deviceId && r.deviceKeyId == s.deviceKeyId
    && r.nodePoolId == s.nodePoolId && r.servicePermission == "private.tun.connect"
    && r.routePolicyId == s.projectionId && r.routePolicyGeneration == s.projectionGeneration
    && r.routePolicyContentHash == s.projectionContentHash
    && 0 != r.notBefore <= r.refreshAfter < r.expiresAt
  }

  /** The report against the Cloud's response and the clock. */
  predicate VerifiedAt(s: Subject, response: Response, r: Report, now: u64) {
    && BoundReport(s, r)
    && r.grantId == response.grantId && r.expiresAt == response.expiresAt && r.refreshAfter == response.refreshAfter
    && r.notBefore <= now < r.expiresAt
  }

  predicate GrantValidFor(lib: Libraries, g: CachedGrant, s: Subject) {
    && g.sequence != 0 && g.requestId == RequestId(lib, s, g.sequence) && g.grantId != NIL
    && 0 != g.fetchedAt < g.expiresAt && ValidAccessGrant(lib, g.accessGrant)
    && BoundReport(s, g.verification)
    && g.verification.grantId == g.grantId && g.verification.expiresAt == g.expiresAt
  }

  predicate ValidFor(lib: Libraries, state: GrantState, s: Subject) {
    && ValidSubject(s) && state.schemaVersion == GRANT_STATE_SCHEMA_VERSION && state.subject == s
    && (state.active.Some? ==>
          GrantValidFor(lib, state.active.value, s) && state.active.value.sequence == state.completedSequence)
    && (state.active.None? ==> state.completedSequence == 0)
    && (state.pending.Some? ==>
          && ValidRequestId(state.pending.value.requestId)
          && state.pending.value.sequence as int == state.completedSequence + 1
          && state.pending.value.requestId == RequestId(lib, s, state.pending.value.sequence)
          && state.pending.value.createdAt != 0)
    && !(state.revokedAt.Some? && state.active.Some?)
  }

  predicate UsableAt(lib: Libraries, g: CachedGrant, now: u64) {
    g.verification.notBefore <= now < g.expiresAt && ValidAccessGrant(lib, g.accessGrant)
  }

  predicate StateUsable(lib: Libraries, state: GrantState, now: u64) {
    state.revokedAt.None? && state.active.Some? && UsableAt(lib, state.active.value, now)
  }

  predicate RefreshDue(lib: Libraries, g: CachedGrant, now: u64) {
    UsableAt(lib, g, now) && now >= g.verification.refreshAfter
  }

  // ---- one renewal ----

  datatype FetchOutcome = Issued(response: Response) | Transient | Denied | PolicyResyncRequired

  /** Everything outside the module's control during one call. */
  datatype Attempt = Attempt(
    now: u64, fetched: FetchOutcome, uuid: string, verified: Option<Report>, cleaned: bool, clock: Option<u64>)

  datatype Outcome =
    | Current(grant: CachedGrant)
    | Refreshed(grant: CachedGrant)
    | RetainedAfterTransientFailure(grant: CachedGrant)

  datatype Failure =
    | SubjectInvalid | StateLoadFailed | Revoked | SequenceOverflow | StateRejected | FetchFailed | PolicyResync
    | AuthorizationDenied | ResponseInvalid | VerificationFailed | CleanupFailed | ClockFailed | ResponseRejected

  function NewState(s: Subject): GrantState {
    GrantState(GRANT_STATE_SCHEMA_VERSION, s, 0, None, None, None)
  }

  predicate Loadable(lib: Libraries, disk: Disk<GrantFile>, s: Subject) {
    StatePath(lib, s) in disk ==>
      disk[StatePath(lib, s)].State? && ValidFor(lib, disk[StatePath(lib, s)].state, s)
  }

  function Stored(lib: Libraries, disk: Disk<GrantFile>, s: Subject): GrantState {
    if StatePath(lib, s) in disk && disk[StatePath(lib, s)].State? then disk[StatePath(lib, s)].state else NewState(s)
  }

  function AtLeastOne(now: u64): (t: u64)
    ensures t != 0
  {
    if now == 0 then 1 else now
  }

  /** The state with a renewal under way: the stored one if there is one. */
  function Waiting(lib: Libraries, state: GrantState, s: Subject, now: u64): (w: GrantState)
    requires state.pending.None? ==> state.completedSequence < U64_MAX
    ensures w.pending.Some?
  {
    if state.pending.Some? then state else
      var sequence := state.completedSequence + 1;
      state.(pending := Some(PendingIssuance(sequence, RequestId(lib, s, sequence), AtLeastOne(now))))
  }

  function RevokedState(state: GrantState, now: u64): GrantState {
    state.(active := None, completedSequence := 0, pending := None, revokedAt := Some(AtLeastOne(now)))
  }

  function NewGrant(p: PendingIssuance, response: Response, report: Report, now: u64): CachedGrant {
    CachedGrant(p.sequence, p.requestId, response.grantId, now, report.expiresAt, response.accessGrant, report)
  }

  function CompletedState(state: GrantState, g: CachedGrant): GrantState {
    state.(completedSequence := g.sequence, pending := None, revokedAt := None, active := Some(g))
  }

  /** `CachedGrant::from_response` accepts. */
  predicate Accepts(lib: Libraries, s: Subject, p: PendingIssuance, response: Response, report: Report, now: u64) {
    && ValidRequestId(p.requestId) && p.sequence != 0 && p.requestId == RequestId(lib, s, p.sequence)
    && ValidResponse(lib, response) && VerifiedAt(s, response, report, now)
  }

  /** What a call does: maybe write the pending state, then messages and staging, then maybe write the
      final state. */
  datatype Plan = Plan(
    opening: Option<GrantState>, middle: seq<Effect<GrantFile, Message>>, closing: Option<GrantState>,
    result: Result<Outcome, Failure>)
  {
    function Effects(path: string): seq<Effect<GrantFile, Message>> {
      Writing(path, opening) + middle + Writing(path, closing)
    }
  }

  function Writing(path: string, state: Option<GrantState>): seq<Effect<GrantFile, Message>> {
    if state.Some? then [Replace(path, State(state.value))] else []
  }

  function Nothing(failure: Failure): Plan {
    Plan(None, [], None, Err(failure))
  }

  /** What follows a response. */
  function PlanIssued(lib: Libraries, s: Subject, waiting: GrantState, response: Response, a: Attempt): Plan
    requires waiting.pending.Some?
  {
    if !ValidResponse(lib, response) then Nothing(ResponseInvalid) else
      var staging := StagingPath(a.uuid);
      var staged := [Replace(staging, Staged(lib.base64(response.accessGrant).value)), Send(Verify(staging))];
      var after := if a.cleaned then staged + [Remove(staging)] else staged;
      if a.verified.None? then Plan(None, after, None, Err(VerificationFailed))
      else if !a.cleaned then Plan(None, after, None, Err(CleanupFailed))
      else if a.clock.None? then Plan(None, after, None, Err(ClockFailed))
      else if !Accepts(lib, s, waiting.pending.value, response, a.verified.value, a.clock.value)
      then Plan(None, after, None, Err(ResponseRejected))
      else
        var grant := NewGrant(waiting.pending.value, response, a.verified.value, a.clock.value);
        var done := CompletedState(waiting, grant);
        if !ValidFor(lib, done, s) then Plan(None, after, None, Err(StateRejected))
        else Plan(None, after, Some(done), Ok(Refreshed(grant)))
  }

  function PlanFetch(lib: Libraries, s: Subject, waiting: GrantState, opening: Option<GrantState>, a: Attempt): Plan
    requires waiting.pending.Some?
  {
    var sent := [Send(Fetch(s, waiting.pending.value.sequence, waiting.pending.value.requestId))];
    match a.fetched
    case Transient =>
      Plan(opening, sent, None,
           if StateUsable(lib, waiting, a.now) then Ok(RetainedAfterTransientFailure(waiting.active.value))
           else Err(FetchFailed))
    case PolicyResyncRequired => Plan(opening, sent, None, Err(PolicyResync))
    case Denied =>
      if !ValidFor(lib, RevokedState(waiting, a.now), s) then Plan(opening, sent, None, Err(StateRejected))
      else Plan(opening, sent, Some(RevokedState(waiting, a.now)), Err(AuthorizationDenied))
    case Issued(response) =>
      var p := PlanIssued(lib, s, waiting, response, a);
      Plan(opening, sent + p.middle, p.closing, p.result)
  }

  function Renewal(lib: Libraries, disk: Disk<GrantFile>, s: Subject, a: Attempt): Plan {
    if !ValidSubject(s) then Nothing(SubjectInvalid)
    else if !Loadable(lib, disk, s) then Nothing(StateLoadFailed)
    else
      var state := Stored(lib, disk, s);
      if state.revokedAt.Some? then Nothing(Revoked)
      else if StateUsable(lib, state, a.now) && !RefreshDue(lib, state.active.value, a.now)
      then Plan(None, [], None, Ok(Current(state.active.value)))
      else if state.pending.None? && state.completedSequence == U64_MAX then Nothing(SequenceOverflow)
      else
        var waiting := Waiting(lib, state, s, a.now);
        if state.pending.Some? then PlanFetch(lib, s, waiting, None, a)
        else if !ValidFor(lib, waiting, s) then Nothing(StateRejected)
        else PlanFetch(lib, s, waiting, Some(waiting), a)
  }

  method StoreState(lib: Libraries, machine: Machine<GrantFile, Message>, s: Subject, state: GrantState)
    returns (ok: bool)
    requires machine.Valid()
    modifies machine
    ensures machine.Valid() && ok == ValidFor(lib, state, s)
    ensures machine.trace == old(machine.trace) + (if ok then [Replace(StatePath(lib, s), State(state))] else [])
  {
    ok := ValidFor(lib, state, s);
    if ok {
      machine.Write(StatePath(lib, s), State(state));
    }
  }

  method VerifyStaged(lib: Libraries, machine: Machine<GrantFile, Message>, response: Response, a: Attempt)
    returns (report: Result<Report, Failure>)
    requires machine.Valid() && ValidResponse(lib, response)
    modifies machine
    ensures machine.Valid()
    ensures report == if a.verified.None? then Err(VerificationFailed)
                      else if !a.cleaned then Err(CleanupFailed) else Ok(a.verified.value)
    ensures var staging := StagingPath(a.uuid);
            var staged := [Replace(staging, Staged(lib.base64(response.accessGrant).value)), Send(Verify(staging))];
            machine.trace == old(machine.trace) + if a.cleaned then staged + [Remove(staging)] else staged
  {
    var staging := StagingPath(a.uuid);
    machine.Write(staging, Staged(lib.base64(response.accessGrant).value));
    machine.Emit(Verify(staging));
    if a.cleaned {
      machine.Delete(staging);
    }
    if a.verified.None? {
      return Err(VerificationFailed);
    }
    report := if a.cleaned then Ok(a.verified.value) else Err(CleanupFailed);
  }

  method FinishIssued(lib: Libraries, machine: Machine<GrantFile, Message>, s: Subject, waiting: GrantState,
                      response: Response, a: Attempt) returns (result: Result<Outcome, Failure>)
    requires machine.Valid() && waiting.pending.Some?
    modifies machine
    ensures machine.Valid()
    ensures var plan := PlanIssued(lib, s, waiting, response, a);
            && result == plan.result
            && machine.trace == old(machine.trace) + (plan.middle + Writing(StatePath(lib, s), plan.closing))
  {
    hide ValidFor, StatePath, StagingPath, ValidResponse, ValidAccessGrant, Accepts;
    if !ValidResponse(lib, response) {
      return Err(ResponseInvalid);
    }
    Decodes(lib, response);
    var report := VerifyStaged(lib, machine, response, a);
    if report.Err? {
      return Err(report.error);
    }
    if a.clock.None? {
      return Err(ClockFailed);
    }
    var pending := waiting.pending.value;
    if !Accepts(lib, s, pending, response, report.value, a.clock.value) {
      return Err(ResponseRejected);
    }
    var grant := NewGrant(pending, response, report.value, a.clock.value);
    var state := waiting.(completedSequence := pending.sequence);
    state := state.(pending := None);
    state := state.(revokedAt := None);
    state := state.(active := Some(grant));
    var stored := StoreState(lib, machine, s, state);
    result := if stored then Ok(Refreshed(grant)) else Err(StateRejected);
  }

  lemma Decodes(lib: Libraries, response: Response)
    requires ValidResponse(lib, response)
    ensures lib.base64(response.accessGrant).Some?
  {
  }

  method RefreshWithClock(lib: Libraries, machine: Machine<GrantFile, Message>, s: Subject, a: Attempt)
    returns (result: Result<Outcome, Failure>)
    requires machine.Valid()
    modifies machine
    ensures machine.Valid()
    ensures var plan := Renewal(lib, old(machine.disk), s, a);
            result == plan.result && machine.trace == old(machine.trace) + plan.Effects(StatePath(lib, s))
  {
    hide ValidFor, ValidSubject, StatePath, UsableAt, RequestId, PlanFetch;
    if !ValidSubject(s) {
      return Err(SubjectInvalid);
    }
    if !Loadable(lib, machine.disk, s) {
      return Err(StateLoadFailed);
    }
    var state := Stored(lib, machine.disk, s);
    if state.revokedAt.Some? {
      return Err(Revoked);
    }
    if StateUsable(lib, state, a.now) && !RefreshDue(lib, state.active.value, a.now) {
      return Ok(Current(state.active.value));
    }
    ghost var opening := None;
    if state.pending.None? {
      if state.completedSequence == U64_MAX {
        return Err(SequenceOverflow);
      }
      var sequence := state.completedSequence + 1;
      state := state.(pending := Some(PendingIssuance(sequence, RequestId(lib, s, sequence), AtLeastOne(a.now))));
      var stored := StoreState(lib, machine, s, state);
      if !stored {
        return Err(StateRejected);
      }
      opening := Some(state);
    }
    ghost var path := StatePath(lib, s);
    assert machine.trace == old(machine.trace) + Writing(path, opening);
    result := FetchGrant(lib, machine, s, state, a);
    ghost var plan := PlanFetch(lib, s, state, None, a);
    PlanFetchOpening(lib, s, state, opening, a);
    Assoc(old(machine.trace), Writing(path, opening), plan.middle + Writing(path, plan.closing));
    Assoc(Writing(path, opening), plan.middle, Writing(path, plan.closing));
  }

  lemma PlanFetchOpening(lib: Libraries, s: Subject, waiting: GrantState, opening: Option<GrantState>, a: Attempt)
    requires waiting.pending.Some?
    ensures PlanFetch(lib, s, waiting, opening, a) == PlanFetch(lib, s, waiting, None, a).(opening := opening)
  {
    hide ValidFor, PlanIssued;
  }

  /** The exchange with the Cloud, once the pending state is durable. */
  method FetchGrant(lib: Libraries, machine: Machine<GrantFile, Message>, s: Subject, waiting: GrantState, a: Attempt)
    returns (result: Result<Outcome, Failure>)
    requires machine.Valid() && waiting.pending.Some?
    modifies machine
    ensures machine.Valid()
    ensures var plan := PlanFetch(lib, s, waiting, None, a);
            && result == plan.result
            && machine.trace == old(machine.trace) + (plan.middle + Writing(StatePath(lib, s), plan.closing))
  {
    hide ValidFor, StatePath, UsableAt, PlanIssued;
    var pending := waiting.pending.value;
    machine.Emit(Fetch(s, pending.sequence, pending.requestId));
    match a.fetched {
      case Transient =>
        result := if StateUsable(lib, waiting, a.now) then Ok(RetainedAfterTransientFailure(waiting.active.value))
                  else Err(FetchFailed);
      case PolicyResyncRequired =>
        result := Err(PolicyResync);
      case Denied =>
        var state := waiting.(active := None);
        state := state.(completedSequence := 0);
        state := state.(pending := None);
        state := state.(revokedAt := Some(AtLeastOne(a.now)));
        var stored := StoreState(lib, machine, s, state);
        result := Err(if stored then AuthorizationDenied else StateRejected);
      case Issued(response) =>
        result := FinishIssued(lib, machine, s, waiting, response, a);
    }
  }
}
