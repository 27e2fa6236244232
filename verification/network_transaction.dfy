/** The network transaction of candy-netd around a live session: recording failed prefixes, replacing routes
    and firewall under a live tunnel, and recovering an interrupted session from the journal. */
module NetworkTransactions {
  import opened Bytes
  import opened DeclarationCheck
  import opened Host
  import Journal
  import opened JournalFormat
  import opened Netd
  import opened NetdProto
  import opened Sorting
  import opened Wrappers

  const JOURNAL_FILE := "transaction"

  // ---- steps ----

  const STEP_LINK: u16 := 1
  const STEP_ROUTES: u16 := 2
  const STEP_FIREWALL: u16 := 4
  const STEP_SYSCTLS: u16 := 8
  const STEP_LINK_ACTIVE: u16 := 16
  const STEP_POLICY_RULE: u16 := 32

  predicate Has(steps: u16, step: u16)
    requires step > 0
  {
    steps / step % 2 == 1
  }

  function Without(steps: u16, step: u16): u16
    requires step > 0
  {
    if Has(steps, step) then steps - step else steps
  }

  // ---- what the backend is asked ----

  datatype Call =
    | ReconcileRoutes(declaration: PrepareDeclaration, failed: seq<Ipv4Prefix>)
    | ReplaceFirewall(previous: PrepareDeclaration, replacement: PrepareDeclaration)
    | InstallPolicyRule(declaration: PrepareDeclaration)
    | RemovePolicyRule(declaration: PrepareDeclaration)
    | DeactivateLink(declaration: PrepareDeclaration)
    | RestoreSysctls(declaration: PrepareDeclaration, changes: seq<SysctlChange>)
    | RemoveFirewall(declaration: PrepareDeclaration)
    | RemoveRoutes(declaration: PrepareDeclaration)
    | RemoveLink(declaration: PrepareDeclaration)

  datatype Message = Asked(call: Call, done: bool)

  type Files = Disk<seq<byte>>
  type Trace = seq<Effect<seq<byte>, Message>>

  datatype Failure = Conflict | InvalidTransition | Backend | JournalFailed | DrainPending

  /** How the backend calls, the journal writes and the final removal of the journal turn out. */
  datatype World = World(calls: nat -> bool, stores: nat -> Journal.WriteOutcome, removal: Journal.WriteOutcome)

  /** Where an operation stands: the record in memory, the effects so far, how many calls and writes there
      were, and whether the last step worked. */
  datatype Progress = Progress(record: TransactionRecord, effects: Trace, calls: nat, stores: nat, ok: bool)

  datatype Outcome<T> = Outcome(record: Option<TransactionRecord>, effects: Trace, result: Result<T, Failure>)

  datatype Setup = Setup(codec: Codec, sha: Sha256)
  {
    function File(r: TransactionRecord): Result<seq<byte>, NetworkError> {
      Encoded(codec, sha, r)
    }
  }

  function Begin(r: TransactionRecord): Progress {
    Progress(r, [], 0, 0, true)
  }

  function Ask(w: World, p: Progress, call: Call): Progress {
    var done := w.calls(p.calls);
    p.(effects := p.effects + [Send(Asked(call, done))], calls := p.calls + 1, ok := done)
  }

  /** Writes `r` to the journal; the record in memory stays. */
  function Persist(setup: Setup, w: World, p: Progress, r: TransactionRecord): Progress {
    var outcome := w.stores(p.stores);
    p.(effects := p.effects + if setup.File(r).Ok? && !outcome.NotWritten?
                              then [Replace(JOURNAL_FILE, setup.File(r).value)] else [],
       stores := p.stores + 1, ok := setup.File(r).Ok? && outcome.Written?)
  }

  /** Changes the record in memory and writes it. */
  function Save(setup: Setup, w: World, p: Progress, r: TransactionRecord): Progress {
    Persist(setup, w, p.(record := r), r)
  }

  /** Calls in turn, up to the first that fails. */
  function AskAll(w: World, p: Progress, calls: seq<Call>): Progress {
    if calls == [] then p.(ok := true) else
      var q := AskAll(w, p, calls[..|calls| - 1]);
      if q.ok then Ask(w, q, calls[|calls| - 1]) else q
  }

  /** Every call, whatever becomes of the others. */
  function AskEach(w: World, p: Progress, calls: seq<Call>): Progress {
    if calls == [] then p.(ok := true) else
      var q := AskEach(w, p, calls[..|calls| - 1]);
      var asked := Ask(w, q, calls[|calls| - 1]);
      asked.(ok := q.ok && asked.ok)
  }

  function Ends<T>(p: Progress, result: Result<T, Failure>): Outcome<T> {
    Outcome(Some(p.record), p.effects, result)
  }

  // ---- owners and declarations ----

  predicate SameGeneration(retained: LeaseOwner, request: LeaseOwner) {
    retained.instanceId == request.instanceId && retained.pid == request.pid && retained.generation == request.generation
  }

  predicate SameTunnel(a: PrepareDeclaration, b: PrepareDeclaration) {
    a.tableId == b.tableId && a.overlayRouterIpv4 == b.overlayRouterIpv4 && a.effectiveMtu == b.effectiveMtu
    && a.exclusions == b.exclusions
  }

  predicate RemoteIn(d: PrepareDeclaration, p: Ipv4Prefix) {
    exists i :: 0 <= i < |d.routes| && d.routes[i].prefix == p && !d.routes[i].kind.Local?
  }

  /** The failed prefixes that are still remote routes. */
  function Retained(failed: seq<Ipv4Prefix>, d: PrepareDeclaration): seq<Ipv4Prefix> {
    if failed == [] then [] else
      Retained(failed[..|failed| - 1], d) + if RemoteIn(d, failed[|failed| - 1]) then [failed[|failed| - 1]] else []
  }

  function LocalPrefixes(rs: seq<RouteDeclaration>): seq<Ipv4Prefix> {
    if rs == [] then [] else
      LocalPrefixes(rs[..|rs| - 1]) + if rs[|rs| - 1].kind.Local? then [rs[|rs| - 1].prefix] else []
  }

  predicate HasEgress(d: PrepareDeclaration) {
    exists i :: 0 <= i < |d.routes| && (d.routes[i].kind.RemoteEgress? || d.routes[i].kind.RemoteEgressGateway?)
  }

  /** What the firewall is made from. */
  datatype Firewall = Firewall(policy: FirewallPolicy, local: seq<Ipv4Prefix>, egress: bool)

  function FirewallOf(d: PrepareDeclaration): Firewall {
    Firewall(d.firewall, StableSorted(LocalPrefixes(d.routes), PrefixRank), HasEgress(d))
  }

  // ---- failed prefixes ----

  /** Repetitions next to each other are dropped. */
  function Deduplicated(ps: seq<Ipv4Prefix>): seq<Ipv4Prefix> {
    if |ps| <= 1 then ps
    else if ps[|ps| - 1] == ps[|ps| - 2] then Deduplicated(ps[..|ps| - 1])
    else Deduplicated(ps[..|ps| - 1]) + [ps[|ps| - 1]]
  }

  function Desired(prefixes: seq<Ipv4Prefix>): seq<Ipv4Prefix> {
    Deduplicated(StableSorted(prefixes, PrefixRank))
  }

  function WithdrawalCalls(r: TransactionRecord, failed: seq<Ipv4Prefix>): seq<Call> {
    [ReconcileRoutes(r.declaration, failed)] + if r.phase.Active? then [InstallPolicyRule(r.declaration)] else []
  }

  /** Recording which prefixes are withdrawn from a live session. */
  function SettingFailed(setup: Setup, w: World, record: Option<TransactionRecord>, owner: LeaseOwner,
                         prefixes: seq<Ipv4Prefix>): Outcome<()>
  {
    if record.None? then Outcome(None, [], Err(InvalidTransition)) else
      var r := record.value;
      var desired := Desired(prefixes);
      if !SameGeneration(r.owner, owner) then Outcome(record, [], Err(Conflict))
      else if !(r.phase.Active? || r.phase.Suspended?) then Outcome(record, [], Err(InvalidTransition))
      else if exists i :: 0 <= i < |desired| && !RemoteIn(r.declaration, desired[i]) then Outcome(record, [], Err(Conflict))
      else
        var asked := AskAll(w, Begin(r), WithdrawalCalls(r, desired));
        if !asked.ok then Ends(asked, Err(Backend))
        else
          var saved := Save(setup, w, asked, r.(failedPrefixes := desired));
          Ends(saved, if saved.ok then Ok(()) else Err(JournalFailed))
  }

  // ---- policy updates ----

  /** The record written before a policy update touches anything. */
  function Intent(r: TransactionRecord, owner: LeaseOwner, d: PrepareDeclaration): TransactionRecord {
    r.(phase := RollingBack, recoveryCandidate := Some(d), recoveryCandidateOwner := Some(owner))
  }

  function Updated(r: TransactionRecord, d: PrepareDeclaration): TransactionRecord {
    r.(declaration := d, failedPrefixes := Retained(r.failedPrefixes, d), recoveryCandidate := None,
       recoveryCandidateOwner := None)
  }

  function ChangeCalls(from: PrepareDeclaration, to: PrepareDeclaration, failed: seq<Ipv4Prefix>): seq<Call> {
    (if from.routes != to.routes then [ReconcileRoutes(to, failed)] else [])
    + if FirewallOf(from) != FirewallOf(to) then [ReplaceFirewall(from, to)] else []
  }

  /** `r` is a live session that a policy update by `owner` to `d` may change. */
  predicate Updatable(r: TransactionRecord, owner: LeaseOwner, d: PrepareDeclaration) {
    && SameGeneration(r.owner, owner) && (r.phase.Active? || r.phase.Suspended?) && r.recoveryCandidate.None?
    && SameTunnel(r.declaration, d)
  }

  /** Back to `previous` after a failed update: every step is tried, and the journal is only written when
      all of them worked. */
  function Restoring(setup: Setup, w: World, p: Progress, previous: TransactionRecord, d: PrepareDeclaration, error: Failure)
    : Outcome<()>
  {
    var restored := AskEach(w, p, ChangeCalls(d, previous.declaration, previous.failedPrefixes));
    var ruled := if Has(previous.completedSteps, STEP_POLICY_RULE)
                 then Ask(w, restored, InstallPolicyRule(previous.declaration)) else restored;
    if !ruled.ok || !restored.ok then Ends(ruled, Err(Backend))
    else
      var kept := Persist(setup, w, ruled, previous);
      if !kept.ok then Ends(kept, Err(JournalFailed)) else Ends(kept.(record := previous), Err(error))
  }

  function PolicyCalls(r: TransactionRecord, d: PrepareDeclaration): seq<Call> {
    ChangeCalls(r.declaration, d, Retained(r.failedPrefixes, d)) + if r.phase.Active? then [InstallPolicyRule(d)] else []
  }

  /** The new record is written once everything is in place; otherwise the old session comes back. */
  function Concluding(setup: Setup, w: World, applied: Progress, r: TransactionRecord, d: PrepareDeclaration): Outcome<()> {
    if !applied.ok then Restoring(setup, w, applied, r, d, Backend)
    else
      var updated := Persist(setup, w, applied, Updated(r, d));
      if !updated.ok then Restoring(setup, w, updated, r, d, JournalFailed)
      else Ends(updated.(record := Updated(r, d)), Ok(()))
  }

  /** Replacing routes and firewall of a live session. */
  function Updating(setup: Setup, w: World, record: Option<TransactionRecord>, owner: LeaseOwner, d: PrepareDeclaration)
    : Outcome<()>
  {
    if !DeclarationValid(d) then Outcome(record, [], Err(Backend))
    else if record.None? then Outcome(None, [], Err(InvalidTransition))
    else
      var r := record.value;
      if !SameGeneration(r.owner, owner) then Outcome(record, [], Err(Conflict))
      else if !Updatable(r, owner, d) then Outcome(record, [], Err(InvalidTransition))
      else if r.declaration == d then
        if !r.phase.Active? then Outcome(record, [], Ok(()))
        else
          var ruled := Ask(w, Begin(r), InstallPolicyRule(d));
          Ends(ruled, if ruled.ok then Ok(()) else Err(Backend))
      else
        var intent := Save(setup, w, Begin(r), Intent(r, owner, d));
        if !intent.ok then Ends(intent, Err(JournalFailed))
        else
          Concluding(setup, w, AskAll(w, intent, PolicyCalls(r, d)), r, d)
  }

  // ---- recovery ----

  /** An interrupted policy update whose tunnel can stay. */
  predicate InPlace(r: TransactionRecord) {
    && r.phase.RollingBack? && r.recoveryCandidateOwner == Some(r.owner)
    && Has(r.completedSteps, STEP_LINK) && Has(r.completedSteps, STEP_ROUTES) && Has(r.completedSteps, STEP_FIREWALL)
    && r.recoveryCandidate.Some? && SameTunnel(r.declaration, r.recoveryCandidate.value)
  }

  function RecoveringPolicy(setup: Setup, w: World, r: TransactionRecord): Outcome<bool>
    requires r.recoveryCandidate.Some?
  {
    var ruled := Has(r.completedSteps, STEP_POLICY_RULE);
    var calls := ChangeCalls(r.recoveryCandidate.value, r.declaration, r.failedPrefixes)
                 + if ruled then [InstallPolicyRule(r.declaration)] else [];
    var asked := AskAll(w, Begin(r), calls);
    if !asked.ok then Ends(asked, Err(Backend))
    else
      var restored := r.(recoveryCandidate := None, recoveryCandidateOwner := None,
                         phase := if ruled then Active else Suspended);
      var kept := Persist(setup, w, asked, restored);
      if !kept.ok then Ends(kept, Err(JournalFailed)) else Ends(kept.(record := restored), Ok(true))
  }

  /** Withdrawn routes are cleaned up as the throw routes they have become. */
  function RoutesForCleanup(r: TransactionRecord): PrepareDeclaration {
    var rs := r.declaration.routes;
    r.declaration.(routes := seq(|rs|, i requires 0 <= i < |rs| =>
                                   if rs[i].prefix in r.failedPrefixes then rs[i].(kind := Local) else rs[i]))
  }

  /** One step of a cleanup: undone if it was done, and then struck from the journal. `failed` keeps the first
      error. */
  datatype Cleanup = Cleanup(progress: Progress, failed: Option<Failure>)

  function First(failed: Option<Failure>, next: Failure): Option<Failure> {
    if failed.Some? then failed else Some(next)
  }

  function CleanStep(setup: Setup, w: World, c: Cleanup, needed: bool, call: Call, step: u16): Cleanup
    requires step > 0
  {
    if !needed then c
    else
      var asked := Ask(w, c.progress, call);
      if !asked.ok then Cleanup(asked, First(c.failed, Backend))
      else
        var r := asked.record.(completedSteps := Without(asked.record.completedSteps, step));
        var saved := Save(setup, w, asked, r);
        Cleanup(saved, if saved.ok then c.failed else First(c.failed, JournalFailed))
  }

  function CleanCandidate(setup: Setup, w: World, p: Progress): Cleanup {
    if p.record.recoveryCandidate.None? then Cleanup(p, None)
    else
      var candidate := p.record.recoveryCandidate.value;
      var asked := AskEach(w, p, [RemoveFirewall(candidate), RemoveRoutes(candidate)]);
      if !asked.ok then Cleanup(asked, Some(Backend))
      else
        var saved := Save(setup, w, asked, asked.record.(recoveryCandidate := None, recoveryCandidateOwner := None));
        Cleanup(saved, if saved.ok then None else Some(JournalFailed))
  }

  /** The six steps of `r`, last one first. */
  function CleanSteps(setup: Setup, w: World, c: Cleanup, r: TransactionRecord): Cleanup {
    var d, steps := r.declaration, r.completedSteps;
    var c1 := CleanStep(setup, w, c, Has(steps, STEP_POLICY_RULE), RemovePolicyRule(d), STEP_POLICY_RULE);
    var c2 := CleanStep(setup, w, c1, Has(steps, STEP_LINK) || Has(steps, STEP_LINK_ACTIVE), DeactivateLink(d),
                        STEP_LINK_ACTIVE);
    var c3 := CleanStep(setup, w, c2, Has(steps, STEP_SYSCTLS), RestoreSysctls(d, r.sysctls), STEP_SYSCTLS);
    var c4 := CleanStep(setup, w, c3, Has(steps, STEP_FIREWALL), RemoveFirewall(d), STEP_FIREWALL);
    var c5 := CleanStep(setup, w, c4, Has(steps, STEP_ROUTES), RemoveRoutes(RoutesForCleanup(r)), STEP_ROUTES);
    CleanStep(setup, w, c5, Has(steps, STEP_LINK), RemoveLink(d), STEP_LINK)
  }

  function CleaningUp(setup: Setup, w: World, r: TransactionRecord): Outcome<bool> {
    var begun := Save(setup, w, Begin(r), r.(phase := RollingBack));
    if !begun.ok then Ends(begun, Err(JournalFailed))
    else
      var c := CleanSteps(setup, w, CleanCandidate(setup, w, begun), begun.record);
      var left := c.progress.record;
      if left.completedSteps == 0 && left.recoveryCandidate.None? then
        var removed := if w.removal.NotWritten? then [] else [Remove(JOURNAL_FILE)];
        if w.removal.Written?
        then Outcome(None, c.progress.effects + removed, if c.failed.Some? then Err(c.failed.value) else Ok(true))
        else Outcome(Some(left), c.progress.effects + removed, Err(First(c.failed, JournalFailed).value))
      else Ends(c.progress, if c.failed.Some? then Err(c.failed.value) else Ok(true))
  }

  // ---- replacements that were being drained or prepared ----

  /** A replacement that never became active is dropped, and the old session stays. */
  function Discarding(setup: Setup, w: World, r: TransactionRecord): Outcome<bool>
    requires r.recoveryCandidate.Some?
  {
    var candidate := r.recoveryCandidate.value;
    var asked := AskAll(w, Begin(r), [RemoveFirewall(candidate), RemoveRoutes(candidate)]);
    if !asked.ok then Ends(asked, Err(Backend))
    else
      var saved := Save(setup, w, asked, r.(recoveryCandidate := None, recoveryCandidateOwner := None, phase := Active,
                                            drainDeadlineMonoMs := 0));
      Ends(saved, if saved.ok then Ok(true) else Err(JournalFailed))
  }

  /** The old declaration of a draining session is removed and its candidate takes its place. */
  function DrainingOld(setup: Setup, w: World, r: TransactionRecord, now: u64): Outcome<bool>
    requires r.phase.Draining?
  {
    if r.drainDeadlineMonoMs != 0 && now < r.drainDeadlineMonoMs then Outcome(Some(r), [], Err(DrainPending))
    else if r.recoveryCandidate.None? then Outcome(Some(r), [], Err(InvalidTransition))
    else
      var d := r.declaration;
      var asked := AskAll(w, Begin(r), [RemovePolicyRule(d), RemoveFirewall(d), RemoveRoutes(d)]);
      if !asked.ok then Ends(asked, Err(Backend))
      else
        var saved := Save(setup, w, asked, r.(
          owner := CandidateOwner(r), declaration := r.recoveryCandidate.value, recoveryCandidate := None,
          recoveryCandidateOwner := None, phase := Active, drainDeadlineMonoMs := 0));
        Ends(saved, if saved.ok then Ok(true) else Err(JournalFailed))
  }

  // ---- the choice ----

  /** What netd makes of the record it holds, in memory or just loaded from the journal: nothing while a live
      owner may still use it, otherwise the recovery that fits. */
  function Recovering(setup: Setup, w: World, record: Option<TransactionRecord>, ownerAlive: bool, now: u64): Outcome<bool> {
    if record.None? then Outcome(None, [], Ok(false)) else
      var r := record.value;
      var leased := ownerAlive && r.owner.leaseDeadlineMonoMs > now;
      if InPlace(r) then RecoveringPolicy(setup, w, r)
      else if r.recoveryCandidate.Some? && (r.phase.Preparing? || r.phase.Prepared?) then
        if leased then Outcome(record, [], Ok(false)) else Discarding(setup, w, r)
      else if r.phase.Draining? then
        if ownerAlive && (r.drainDeadlineMonoMs == 0 || now < r.drainDeadlineMonoMs) then Outcome(record, [], Ok(false))
        else if !MayDrain(r) then Outcome(record, [], Err(Conflict))
        else DrainingOld(setup, w, r, now)
      else if !r.phase.RollingBack? && leased then Outcome(record, [], Ok(false))
      else CleaningUp(setup, w, r)
  }

  predicate SameProcess(retained: LeaseOwner, request: LeaseOwner) {
    retained.instanceId == request.instanceId && retained.pid == request.pid
  }

  predicate MayDrain(r: TransactionRecord) {
    if r.recoveryCandidate.Some? then SameProcess(r.owner, CandidateOwner(r)) else SameGeneration(r.owner, CandidateOwner(r))
  }

  // ---- the program ----

  lemma AskMore(w: World, p: Progress, calls: seq<Call>, call: Call)
    ensures AskAll(w, p, calls + [call]) == var q := AskAll(w, p, calls); if q.ok then Ask(w, q, call) else q
    ensures AskEach(w, p, calls + [call])
         == var q := AskEach(w, p, calls); var asked := Ask(w, q, call); asked.(ok := q.ok && asked.ok)
  {
    assert (calls + [call])[..|calls|] == calls;
  }

  /** Nothing is asked behind a failure. */
  lemma {:induction false} StopsThere(w: World, p: Progress, calls: seq<Call>, k: nat)
    requires k <= |calls| && !AskAll(w, p, calls[..k]).ok
    ensures AskAll(w, p, calls) == AskAll(w, p, calls[..k])
    decreases |calls|
  {
    if k == |calls| {
      assert calls[..k] == calls;
    } else {
      var init := calls[..|calls| - 1];
      assert init[..k] == calls[..k];
      StopsThere(w, p, init, k);
    }
  }

  method CollectLocal(rs: seq<RouteDeclaration>) returns (local: seq<Ipv4Prefix>)
    ensures local == LocalPrefixes(rs)
  {
    local := [];
    for i := 0 to |rs|
      invariant local == LocalPrefixes(rs[..i])
    {
      assert rs[..i + 1][..i] == rs[..i];
      if rs[i].kind.Local? {
        local := local + [rs[i].prefix];
      }
    }
    assert rs[..|rs|] == rs;
  }

  /** Whether two declarations need different firewalls. */
  method FirewallPolicyChanged(current: PrepareDeclaration, candidate: PrepareDeclaration) returns (changed: bool)
    ensures changed <==> FirewallOf(current) != FirewallOf(candidate)
  {
    if current.firewall != candidate.firewall {
      return true;
    }
    var currentLocal := CollectLocal(current.routes);
    var candidateLocal := CollectLocal(candidate.routes);
    currentLocal := StableSort(currentLocal, PrefixRank);
    candidateLocal := StableSort(candidateLocal, PrefixRank);
    changed := currentLocal != candidateLocal || HasEgress(current) != HasEgress(candidate);
  }

  class NetworkTransaction {
    const setup: Setup
    const machine: Machine<seq<byte>, Message>
    var record: Option<TransactionRecord>
    /** What the current operation meets, and how much of it. */
    var world: World
    var calls: nat
    var stores: nat

    constructor (setup: Setup, machine: Machine<seq<byte>, Message>, record: Option<TransactionRecord>, world: World)
      ensures this.setup == setup && this.machine == machine && this.record == record && this.world == world
    {
      this.setup, this.machine, this.record, this.world := setup, machine, record, world;
      calls, stores := 0, 0;
    }

    /** The operation that began behind `before` stands at `p`. */
    ghost predicate At(p: Progress, before: Trace)
      reads this, machine
    {
      && machine.Valid() && record == Some(p.record) && calls == p.calls && stores == p.stores
      && machine.trace == before + p.effects
    }

    method Start(world: World)
      requires machine.Valid() && record.Some?
      modifies this
      ensures record == old(record) && this.world == world && At(Begin(record.value), old(machine.trace))
    {
      this.world, calls, stores := world, 0, 0;
    }

    method Call(call: Call, ghost p: Progress, ghost before: Trace) returns (done: bool)
      requires At(p, before)
      modifies this`calls, machine
      ensures At(Ask(world, p, call), before) && done == Ask(world, p, call).ok
    {
      done := world.calls(calls);
      machine.Emit(Asked(call, done));
      calls := calls + 1;
    }

    /** Writes a record to the journal. */
    method Store(r: TransactionRecord, ghost p: Progress, ghost before: Trace) returns (stored: bool)
      requires At(p, before)
      modifies this`stores, machine
      ensures At(Persist(setup, world, p, r), before) && stored == Persist(setup, world, p, r).ok
    {
      hide Encoded;
      var outcome := world.stores(stores);
      stores := stores + 1;
      var bytes := Journal.EncodeRecord(setup.codec, setup.sha, r);
      if bytes.Err? {
        return false;
      }
      if !outcome.NotWritten? {
        machine.Write(JOURNAL_FILE, bytes.value);
      }
      stored := outcome.Written?;
    }

    method Change(r: TransactionRecord, ghost p: Progress, ghost before: Trace) returns (stored: bool)
      requires At(p, before)
      modifies this`stores, this`record, machine
      ensures At(Save(setup, world, p, r), before) && stored == Save(setup, world, p, r).ok
    {
      record := Some(r);
      stored := Store(r, p.(record := r), before);
    }

    /** Routes and firewall from one declaration to another, up to the first failure. */
    method ChangePolicy(from: PrepareDeclaration, to: PrepareDeclaration, failed: seq<Ipv4Prefix>, ghost p: Progress,
                        ghost before: Trace) returns (done: bool)
      requires At(p, before)
      modifies this`calls, machine
      ensures At(AskAll(world, p, ChangeCalls(from, to, failed)), before)
      ensures done == AskAll(world, p, ChangeCalls(from, to, failed)).ok
    {
      hide FirewallOf;
      ghost var calls := [];
      AskMore(world, p, [], ReconcileRoutes(to, failed));
      if from.routes != to.routes {
        done := Call(ReconcileRoutes(to, failed), AskAll(world, p, []), before);
        calls := [] + [ReconcileRoutes(to, failed)];
        if !done {
          AskMore(world, p, calls, ReplaceFirewall(from, to));
          assert calls == ChangeCalls(from, to, failed)[..1];
          return;
        }
      }
      var changed := FirewallPolicyChanged(from, to);
      AskMore(world, p, calls, ReplaceFirewall(from, to));
      if changed {
        done := Call(ReplaceFirewall(from, to), AskAll(world, p, calls), before);
        return;
      }
      assert ChangeCalls(from, to, failed) == calls;
      done := true;
    }

    /** The same, with every step tried. */
    method RestorePolicy(from: PrepareDeclaration, to: PrepareDeclaration, failed: seq<Ipv4Prefix>, ghost p: Progress,
                         ghost before: Trace) returns (done: bool)
      requires At(p, before)
      modifies this`calls, machine
      ensures At(AskEach(world, p, ChangeCalls(from, to, failed)), before)
      ensures done == AskEach(world, p, ChangeCalls(from, to, failed)).ok
    {
      hide FirewallOf;
      ghost var calls := [];
      done := true;
      AskMore(world, p, [], ReconcileRoutes(to, failed));
      if from.routes != to.routes {
        done := Call(ReconcileRoutes(to, failed), AskEach(world, p, []), before);
        calls := [] + [ReconcileRoutes(to, failed)];
      }
      var changed := FirewallPolicyChanged(from, to);
      AskMore(world, p, calls, ReplaceFirewall(from, to));
      if changed {
        var replaced := Call(ReplaceFirewall(from, to), AskEach(world, p, calls), before);
        done := done && replaced;
      } else {
        assert ChangeCalls(from, to, failed) == calls;
      }
    }

    /** Makes the kernel's routes those of the declaration without the failed ones. */
    method Withdraw(d: PrepareDeclaration, failed: seq<Ipv4Prefix>, active: bool, ghost p: Progress, ghost before: Trace)
      returns (done: bool)
      requires At(p, before)
      modifies this`calls, machine
      ensures var calls := [ReconcileRoutes(d, failed)] + if active then [InstallPolicyRule(d)] else [];
              At(AskAll(world, p, calls), before) && done == AskAll(world, p, calls).ok
    {
      var reconcile, install := ReconcileRoutes(d, failed), InstallPolicyRule(d);
      AskMore(world, p, [], reconcile);
      AskMore(world, p, [reconcile], install);
      assert [] + [reconcile] == [reconcile] && [reconcile] + [] == [reconcile];
      done := Call(reconcile, AskAll(world, p, []), before);
      if done && active {
        done := Call(install, AskAll(world, p, [reconcile]), before);
      }
    }

    method SetFailedPrefixes(owner: LeaseOwner, prefixes: seq<Ipv4Prefix>, world: World) returns (result: Result<(), Failure>)
      requires machine.Valid()
      modifies this, machine
      ensures machine.Valid()
      ensures var o := SettingFailed(setup, world, old(record), owner, prefixes);
              result == o.result && record == o.record && machine.trace == old(machine.trace) + o.effects
    {
      hide Desired, RemoteIn;
      if record.None? {
        return Err(InvalidTransition);
      }
      var r := record.value;
      if !SameGeneration(r.owner, owner) {
        return Err(Conflict);
      }
      if !(r.phase.Active? || r.phase.Suspended?) {
        return Err(InvalidTransition);
      }
      var desired := Desired(prefixes);
      if exists i :: 0 <= i < |desired| && !RemoteIn(r.declaration, desired[i]) {
        return Err(Conflict);
      }
      ghost var before := machine.trace;
      Start(world);
      ghost var p := Begin(r);
      var done := Withdraw(r.declaration, desired, r.phase.Active?, p, before);
      if !done {
        return Err(Backend);
      }
      var stored := Change(r.(failedPrefixes := desired), AskAll(world, p, WithdrawalCalls(r, desired)), before);
      result := if stored then Ok(()) else Err(JournalFailed);
    }

    /** After a failed update: the old policy, and the old record once all of it is back. */
    method RestorePolicyAfterUpdate(previous: TransactionRecord, candidate: PrepareDeclaration, error: Failure,
                                    ghost p: Progress, ghost before: Trace) returns (result: Result<(), Failure>)
      requires At(p, before)
      modifies this, machine
      ensures machine.Valid()
      ensures var o := Restoring(setup, old(world), p, previous, candidate, error);
              result == o.result && record == o.record && machine.trace == before + o.effects
    {
      ghost var restored := AskEach(world, p, ChangeCalls(candidate, previous.declaration, previous.failedPrefixes));
      var back := RestorePolicy(candidate, previous.declaration, previous.failedPrefixes, p, before);
      if Has(previous.completedSteps, STEP_POLICY_RULE) {
        var ruled := Call(InstallPolicyRule(previous.declaration), restored, before);
        restored := Ask(world, restored, InstallPolicyRule(previous.declaration));
        if !ruled {
          return Err(Backend);
        }
      }
      if !back {
        return Err(Backend);
      }
      var stored := Store(previous, restored, before);
      if !stored {
        return Err(JournalFailed);
      }
      record := Some(previous);
      result := Err(error);
    }

    method ApplyPolicy(r: TransactionRecord, declaration: PrepareDeclaration, retained: seq<Ipv4Prefix>, ghost p: Progress,
                       ghost before: Trace) returns (done: bool)
      requires At(p, before) && retained == Retained(r.failedPrefixes, declaration)
      modifies this`calls, machine
      ensures At(AskAll(world, p, PolicyCalls(r, declaration)), before)
      ensures done == AskAll(world, p, PolicyCalls(r, declaration)).ok
    {
      hide ChangeCalls, Retained;
      ghost var calls := ChangeCalls(r.declaration, declaration, retained);
      AskMore(world, p, calls, InstallPolicyRule(declaration));
      assert calls + [] == calls;
      done := ChangePolicy(r.declaration, declaration, retained, p, before);
      if done && r.phase.Active? {
        done := Call(InstallPolicyRule(declaration), AskAll(world, p, calls), before);
      }
    }

    /** The new record, or the way back. */
    method ConcludeUpdate(done: bool, r: TransactionRecord, declaration: PrepareDeclaration, ghost p: Progress,
                          ghost before: Trace) returns (result: Result<(), Failure>)
      requires At(p, before) && done == p.ok
      modifies this, machine
      ensures machine.Valid()
      ensures var o := Concluding(setup, old(world), p, r, declaration);
              result == o.result && record == o.record && machine.trace == before + o.effects
    {
      hide Restoring, Updated;
      if !done {
        result := RestorePolicyAfterUpdate(r, declaration, Backend, p, before);
        return;
      }
      var stored := Store(Updated(r, declaration), p, before);
      if !stored {
        result := RestorePolicyAfterUpdate(r, declaration, JournalFailed, Persist(setup, world, p, Updated(r, declaration)),
                                           before);
        return;
      }
      record := Some(Updated(r, declaration));
      result := Ok(());
    }

    method UpdatePolicy(owner: LeaseOwner, declaration: PrepareDeclaration, world: World) returns (result: Result<(), Failure>)
      requires machine.Valid()
      modifies this, machine
      ensures machine.Valid()
      ensures var o := Updating(setup, world, old(record), owner, declaration);
              result == o.result && record == o.record && machine.trace == old(machine.trace) + o.effects
    {
      hide Retained, PolicyCalls, Concluding;
      var valid := ValidateDeclaration(declaration);
      if !valid {
        return Err(Backend);
      }
      if record.None? {
        return Err(InvalidTransition);
      }
      var r := record.value;
      if !SameGeneration(r.owner, owner) {
        return Err(Conflict);
      }
      if !(r.phase.Active? || r.phase.Suspended?) || r.recoveryCandidate.Some? || !SameTunnel(r.declaration, declaration) {
        return Err(InvalidTransition);
      }
      ghost var before := machine.trace;
      if r.declaration == declaration {
        if r.phase.Active? {
          Start(world);
          var installed := Call(InstallPolicyRule(declaration), Begin(r), before);
          return if installed then Ok(()) else Err(Backend);
        }
        return Ok(());
      }
      var retained := Retained(r.failedPrefixes, declaration);
      Start(world);
      var stored := Change(Intent(r, owner, declaration), Begin(r), before);
      ghost var p := Save(setup, world, Begin(r), Intent(r, owner, declaration));
      if !stored {
        return Err(JournalFailed);
      }
      var applied := ApplyPolicy(r, declaration, retained, p, before);
      result := ConcludeUpdate(applied, r, declaration, AskAll(world, p, PolicyCalls(r, declaration)), before);
    }

    method RecoverPolicyUpdate(world: World) returns (result: Result<bool, Failure>)
      requires machine.Valid() && record.Some? && record.value.recoveryCandidate.Some?
      modifies this, machine
      ensures machine.Valid()
      ensures var o := RecoveringPolicy(setup, world, old(record).value);
              result == o.result && record == o.record && machine.trace == old(machine.trace) + o.effects
    {
      hide ChangeCalls;
      var r := record.value;
      var candidate := r.recoveryCandidate.value;
      ghost var before := machine.trace;
      Start(world);
      var done := ChangePolicy(candidate, r.declaration, r.failedPrefixes, Begin(r), before);
      ghost var calls := ChangeCalls(candidate, r.declaration, r.failedPrefixes);
      AskMore(world, Begin(r), calls, InstallPolicyRule(r.declaration));
      assert calls + [] == calls;
      var ruled := Has(r.completedSteps, STEP_POLICY_RULE);
      if done && ruled {
        done := Call(InstallPolicyRule(r.declaration), AskAll(world, Begin(r), calls), before);
      }
      if ruled {
        calls := calls + [InstallPolicyRule(r.declaration)];
      }
      if !done {
        return Err(Backend);
      }
      var restored := r.(recoveryCandidate := None, recoveryCandidateOwner := None,
                         phase := if ruled then Active else Suspended);
      var stored := Store(restored, AskAll(world, Begin(r), calls), before);
      if !stored {
        return Err(JournalFailed);
      }
      record := Some(restored);
      result := Ok(true);
    }

    /** Calls made one after the other, each only if the one before worked. */
    method CallInTurn(calls: seq<Call>, ghost p: Progress, ghost before: Trace) returns (done: bool)
      requires At(p, before)
      modifies this`calls, machine
      ensures At(AskAll(world, p, calls), before) && done == AskAll(world, p, calls).ok
    {
      done := true;
      for i := 0 to |calls|
        invariant At(AskAll(world, p, calls[..i]), before) && AskAll(world, p, calls[..i]).ok
      {
        AskMore(world, p, calls[..i], calls[i]);
        assert calls[..i + 1] == calls[..i] + [calls[i]];
        done := Call(calls[i], AskAll(world, p, calls[..i]), before);
        if !done {
          StopsThere(world, p, calls, i + 1);
          return;
        }
      }
      assert calls[..|calls|] == calls;
    }

    method DiscardCandidate(world: World) returns (result: Result<bool, Failure>)
      requires machine.Valid() && record.Some? && record.value.recoveryCandidate.Some?
      modifies this, machine
      ensures machine.Valid()
      ensures var o := Discarding(setup, world, old(record).value);
              result == o.result && record == o.record && machine.trace == old(machine.trace) + o.effects
    {
      var r := record.value;
      var candidate := r.recoveryCandidate.value;
      ghost var before := machine.trace;
      Start(world);
      var calls := [RemoveFirewall(candidate), RemoveRoutes(candidate)];
      var done := CallInTurn(calls, Begin(r), before);
      if !done {
        return Err(Backend);
      }
      var stored := Change(r.(recoveryCandidate := None, recoveryCandidateOwner := None, phase := Active,
                              drainDeadlineMonoMs := 0), AskAll(world, Begin(r), calls), before);
      result := if stored then Ok(true) else Err(JournalFailed);
    }

    method DrainOld(now: u64, world: World) returns (result: Result<bool, Failure>)
      requires machine.Valid() && record.Some? && record.value.phase.Draining?
      modifies this, machine
      ensures machine.Valid()
      ensures var o := DrainingOld(setup, world, old(record).value, now);
              result == o.result && record == o.record && machine.trace == old(machine.trace) + o.effects
    {
      var r := record.value;
      if r.drainDeadlineMonoMs != 0 && now < r.drainDeadlineMonoMs {
        return Err(DrainPending);
      }
      if r.recoveryCandidate.None? {
        return Err(InvalidTransition);
      }
      var d := r.declaration;
      ghost var before := machine.trace;
      Start(world);
      var calls := [RemovePolicyRule(d), RemoveFirewall(d), RemoveRoutes(d)];
      var done := CallInTurn(calls, Begin(r), before);
      if !done {
        return Err(Backend);
      }
      var stored := Change(r.(owner := CandidateOwner(r), declaration := r.recoveryCandidate.value,
                              recoveryCandidate := None, recoveryCandidateOwner := None, phase := Active,
                              drainDeadlineMonoMs := 0), AskAll(world, Begin(r), calls), before);
      result := if stored then Ok(true) else Err(JournalFailed);
    }

    /** One step undone and struck from the journal. */
    method Undo(needed: bool, call: Call, step: u16, failed: Option<Failure>, ghost c: Cleanup, ghost before: Trace)
      returns (first: Option<Failure>)
      requires At(c.progress, before) && failed == c.failed && step > 0
      modifies this`calls, this`stores, this`record, machine
      ensures At(CleanStep(setup, world, c, needed, call, step).progress, before)
      ensures first == CleanStep(setup, world, c, needed, call, step).failed
    {
      first := failed;
      if needed {
        var done := Call(call, c.progress, before);
        if !done {
          return First(failed, Backend);
        }
        var r := record.value;
        var stored := Change(r.(completedSteps := Without(r.completedSteps, step)), Ask(world, c.progress, call), before);
        if !stored {
          return First(failed, JournalFailed);
        }
      }
    }

    method RemoveCandidate(ghost p: Progress, ghost before: Trace) returns (failed: Option<Failure>)
      requires At(p, before)
      modifies this`calls, this`stores, this`record, machine
      ensures At(CleanCandidate(setup, world, p).progress, before) && failed == CleanCandidate(setup, world, p).failed
    {
      if record.value.recoveryCandidate.None? {
        return None;
      }
      var candidate := record.value.recoveryCandidate.value;
      var firewall, routes := RemoveFirewall(candidate), RemoveRoutes(candidate);
      AskMore(world, p, [], firewall);
      AskMore(world, p, [] + [firewall], routes);
      assert [] + [firewall] + [routes] == [firewall, routes];
      var unwalled := Call(firewall, AskEach(world, p, []), before);
      var unrouted := Call(routes, AskEach(world, p, [] + [firewall]), before);
      if !unwalled || !unrouted {
        return Some(Backend);
      }
      var r := record.value;
      var stored := Change(r.(recoveryCandidate := None, recoveryCandidateOwner := None),
                           AskEach(world, p, [firewall, routes]), before);
      failed := if stored then None else Some(JournalFailed);
    }

    /** The six steps, last one first; every one is tried. */
    method UndoSteps(r: TransactionRecord, before: Option<Failure>, ghost c: Cleanup, ghost start: Trace)
      returns (failed: Option<Failure>)
      requires At(c.progress, start) && before == c.failed
      modifies this`calls, this`stores, this`record, machine
      ensures At(CleanSteps(setup, world, c, r).progress, start) && failed == CleanSteps(setup, world, c, r).failed
    {
      hide CleanStep, Has, RoutesForCleanup;
      var d, steps := r.declaration, r.completedSteps;
      var ruled, linked := Has(steps, STEP_POLICY_RULE), Has(steps, STEP_LINK) || Has(steps, STEP_LINK_ACTIVE);
      var tuned, walled := Has(steps, STEP_SYSCTLS), Has(steps, STEP_FIREWALL);
      failed := Undo(ruled, RemovePolicyRule(d), STEP_POLICY_RULE, before, c, start);
      ghost var c1 := CleanStep(setup, world, c, ruled, RemovePolicyRule(d), STEP_POLICY_RULE);
      failed := Undo(linked, DeactivateLink(d), STEP_LINK_ACTIVE, failed, c1, start);
      ghost var c2 := CleanStep(setup, world, c1, linked, DeactivateLink(d), STEP_LINK_ACTIVE);
      failed := Undo(tuned, RestoreSysctls(d, r.sysctls), STEP_SYSCTLS, failed, c2, start);
      ghost var c3 := CleanStep(setup, world, c2, tuned, RestoreSysctls(d, r.sysctls), STEP_SYSCTLS);
      failed := Undo(walled, RemoveFirewall(d), STEP_FIREWALL, failed, c3, start);
      ghost var c4 := CleanStep(setup, world, c3, walled, RemoveFirewall(d), STEP_FIREWALL);
      failed := Undo(Has(steps, STEP_ROUTES), RemoveRoutes(RoutesForCleanup(r)), STEP_ROUTES, failed, c4, start);
      ghost var c5 := CleanStep(setup, world, c4, Has(steps, STEP_ROUTES), RemoveRoutes(RoutesForCleanup(r)), STEP_ROUTES);
      failed := Undo(Has(steps, STEP_LINK), RemoveLink(d), STEP_LINK, failed, c5, start);
    }

    method CleanupRecord(world: World) returns (result: Result<bool, Failure>)
      requires machine.Valid() && record.Some?
      modifies this, machine
      ensures machine.Valid()
      ensures var o := CleaningUp(setup, world, old(record).value);
              result == o.result && record == o.record && machine.trace == old(machine.trace) + o.effects
    {
      hide CleanSteps, CleanCandidate, Save;
      var r := record.value;
      ghost var start := machine.trace;
      Start(world);
      var begun := Change(r.(phase := RollingBack), Begin(r), start);
      ghost var p := Save(setup, world, Begin(r), r.(phase := RollingBack));
      if !begun {
        return Err(JournalFailed);
      }
      r := record.value;
      ghost var c := CleanCandidate(setup, world, p);
      var failed := RemoveCandidate(p, start);
      failed := UndoSteps(r, failed, c, start);
      if record.value.completedSteps == 0 && record.value.recoveryCandidate.None? {
        if !world.removal.NotWritten? {
          machine.Delete(JOURNAL_FILE);
        }
        if world.removal.Written? {
          record := None;
        } else {
          failed := First(failed, JournalFailed);
        }
      }
      result := if failed.Some? then Err(failed.value) else Ok(true);
    }

    /** Recovery of whatever the transaction holds, in memory or just loaded. */
    method RecoverOrphan(ownerAlive: bool, now: u64, world: World) returns (result: Result<bool, Failure>)
      requires machine.Valid()
      modifies this, machine
      ensures machine.Valid()
      ensures var o := Recovering(setup, world, old(record), ownerAlive, now);
              result == o.result && record == o.record && machine.trace == old(machine.trace) + o.effects
    {
      hide RecoveringPolicy, Discarding, DrainingOld, CleaningUp, Has;
      if record.None? {
        return Ok(false);
      }
      var r := record.value;
      if InPlace(r) {
        result := RecoverPolicyUpdate(world);
        return;
      }
      var leased := ownerAlive && r.owner.leaseDeadlineMonoMs > now;
      if r.recoveryCandidate.Some? && (r.phase.Preparing? || r.phase.Prepared?) {
        if leased {
          return Ok(false);
        }
        result := DiscardCandidate(world);
        return;
      }
      if r.phase.Draining? {
        if ownerAlive && (r.drainDeadlineMonoMs == 0 || now < r.drainDeadlineMonoMs) {
          return Ok(false);
        }
        if !MayDrain(r) {
          return Err(Conflict);
        }
        result := DrainOld(now, world);
        return;
      }
      if !r.phase.RollingBack? && leased {
        return Ok(false);
      }
      result := CleanupRecord(world);
    }
  }
}
