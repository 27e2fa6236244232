/** What recovery makes of every record it may find, in memory or loaded: when it leaves a session alone, what
    it asks of the backend otherwise, and what remains. */
module RecoveryOutcomes {
  import opened Bytes
  import opened Host
  import Journal
  import opened JournalFormat
  import opened Netd
  import opened NetworkTransactions
  import opened PolicyUpdates
  import opened Wrappers

  /** What the backend was asked, in order. */
  function Calls(es: Trace): seq<Call> {
    if es == [] then [] else Calls(es[..|es| - 1]) + if es[|es| - 1].Send? then [es[|es| - 1].message.call] else []
  }

  lemma {:induction false} CallsAdd(a: Trace, b: Trace)
    ensures Calls(a + b) == Calls(a) + Calls(b)
  {
    if b == [] {
      assert a + b == a;
    } else {
      assert (a + b)[..|a + b| - 1] == a + b[..|b| - 1];
      CallsAdd(a, b[..|b| - 1]);
    }
  }

  lemma CallsOne(e: Effect<seq<byte>, Message>)
    ensures Calls([e]) == if e.Send? then [e.message.call] else []
    ensures Calls([]) == []
  {
    assert [e][..0] == [];
  }

  // ---- the lease ----

  /** A session that nobody is changing is left alone if and only if its owner lives and its lease has time
      left; then recovery has no effect at all. */
  lemma LeaseDecides(setup: Setup, w: World, r: TransactionRecord, ownerAlive: bool, now: u64)
    requires r.phase in [Preparing, Prepared, Active, Suspended] && r.recoveryCandidate.None?
    ensures var o := Recovering(setup, w, Some(r), ownerAlive, now);
            && (o.record == Some(r) <==> ownerAlive && now < r.owner.leaseDeadlineMonoMs)
            && (ownerAlive && now < r.owner.leaseDeadlineMonoMs ==> o.effects == [] && o.result == Ok(false))
  {
    hide Has, CleanSteps, Encoded;
    CleanedIsRollingBack(setup, w, r);
  }

  lemma CleanedIsRollingBack(setup: Setup, w: World, r: TransactionRecord)
    ensures var o := CleaningUp(setup, w, r); o.record.None? || o.record.value.phase.RollingBack?
  {
    hide Has, Encoded, Without, RoutesForCleanup, CleanStep, Ask;
    var begun := Save(setup, w, Begin(r), r.(phase := RollingBack));
    var x := begun.record;
    var c := CleanCandidate(setup, w, begun);
    CandidatePhaseStays(setup, w, begun);
    StepsPhaseStays(setup, w, c, x);
  }

  lemma CandidatePhaseStays(setup: Setup, w: World, p: Progress)
    ensures CleanCandidate(setup, w, p).progress.record.phase == p.record.phase
  {
    hide Encoded;
    if p.record.recoveryCandidate.Some? {
      var candidate := p.record.recoveryCandidate.value;
      EachKeepsRecord(w, p, [RemoveFirewall(candidate), RemoveRoutes(candidate)]);
    }
  }

  lemma {:induction false} EachKeepsRecord(w: World, p: Progress, calls: seq<Call>)
    ensures AskEach(w, p, calls).record == p.record && AskAll(w, p, calls).record == p.record
  {
    if calls != [] {
      EachKeepsRecord(w, p, calls[..|calls| - 1]);
    }
  }

  lemma StepPhaseStays(setup: Setup, w: World, c: Cleanup, needed: bool, call: Call, step: u16)
    requires step > 0
    ensures CleanStep(setup, w, c, needed, call, step).progress.record.phase == c.progress.record.phase
  {
    hide Encoded, Without;
  }

  lemma StepsPhaseStays(setup: Setup, w: World, c: Cleanup, r: TransactionRecord)
    ensures CleanSteps(setup, w, c, r).progress.record.phase == c.progress.record.phase
  {
    hide Has, RoutesForCleanup, CleanStep;
    var d, steps := r.declaration, r.completedSteps;
    var c1 := CleanStep(setup, w, c, Has(steps, STEP_POLICY_RULE), RemovePolicyRule(d), STEP_POLICY_RULE);
    var linked := Has(steps, STEP_LINK) || Has(steps, STEP_LINK_ACTIVE);
    var c2 := CleanStep(setup, w, c1, linked, DeactivateLink(d), STEP_LINK_ACTIVE);
    var c3 := CleanStep(setup, w, c2, Has(steps, STEP_SYSCTLS), RestoreSysctls(d, r.sysctls), STEP_SYSCTLS);
    var c4 := CleanStep(setup, w, c3, Has(steps, STEP_FIREWALL), RemoveFirewall(d), STEP_FIREWALL);
    var c5 := CleanStep(setup, w, c4, Has(steps, STEP_ROUTES), RemoveRoutes(RoutesForCleanup(r)), STEP_ROUTES);
    StepPhaseStays(setup, w, c, Has(steps, STEP_POLICY_RULE), RemovePolicyRule(d), STEP_POLICY_RULE);
    StepPhaseStays(setup, w, c1, linked, DeactivateLink(d), STEP_LINK_ACTIVE);
    StepPhaseStays(setup, w, c2, Has(steps, STEP_SYSCTLS), RestoreSysctls(d, r.sysctls), STEP_SYSCTLS);
    StepPhaseStays(setup, w, c3, Has(steps, STEP_FIREWALL), RemoveFirewall(d), STEP_FIREWALL);
    StepPhaseStays(setup, w, c4, Has(steps, STEP_ROUTES), RemoveRoutes(RoutesForCleanup(r)), STEP_ROUTES);
    StepPhaseStays(setup, w, c5, Has(steps, STEP_LINK), RemoveLink(d), STEP_LINK);
  }

  /** Without a record there is nothing to recover. */
  lemma NothingToRecover(setup: Setup, w: World, ownerAlive: bool, now: u64)
    ensures Recovering(setup, w, None, ownerAlive, now) == Outcome(None, [], Ok(false))
  {
  }

  // ---- removing a session ----

  /** Withdrawn prefixes are throw routes by now, which the cleanup calls local. */
  function Thrown(r: TransactionRecord): PrepareDeclaration {
    var rs := r.declaration.routes;
    r.declaration.(routes := seq(|rs|, i requires 0 <= i < |rs| =>
                                   RouteDeclaration(rs[i].prefix, if rs[i].prefix in r.failedPrefixes then Local else rs[i].kind)))
  }

  /** The calls that remove what these steps installed, last one first. */
  function Removal(r: TransactionRecord): seq<Call> {
    var d, steps := r.declaration, r.completedSteps;
    (if steps / 32 % 2 == 1 then [RemovePolicyRule(d)] else [])
    + (if steps % 2 == 1 || steps / 16 % 2 == 1 then [DeactivateLink(d)] else [])
    + (if steps / 8 % 2 == 1 then [RestoreSysctls(d, r.sysctls)] else [])
    + (if steps / 4 % 2 == 1 then [RemoveFirewall(d)] else [])
    + (if steps / 2 % 2 == 1 then [RemoveRoutes(Thrown(r))] else [])
    + (if steps % 2 == 1 then [RemoveLink(d)] else [])
  }

  /** One step of a removal in which nothing fails. */
  lemma StepRemoves(setup: Setup, w: World, c: Cleanup, needed: bool, call: Call, step: u16)
    requires Works(w) && step > 0 && setup.File(c.progress.record).Ok?
    requires c.progress.record.recoveryCandidate.None? && c.progress.record.recoveryCandidateOwner.None?
    ensures var next := CleanStep(setup, w, c, needed, call, step);
            && next.failed == c.failed
            && Calls(next.progress.effects) == Calls(c.progress.effects) + (if needed then [call] else [])
            && next.progress.record
               == (if needed then c.progress.record.(completedSteps := Without(c.progress.record.completedSteps, step)) else c.progress.record)
            && setup.File(next.progress.record).Ok?
  {
    hide Encoded, Without, Calls;
    if needed {
      var q := c.progress.record.(completedSteps := Without(c.progress.record.completedSteps, step));
      FileStays(setup, c.progress.record, q);
      CleanStepWorks(setup, w, c, call, step);
      var sent: Effect<seq<byte>, Message> := Send(Asked(call, true));
      var kept: Effect<seq<byte>, Message> := Replace(JOURNAL_FILE, setup.File(q).value);
      assert [sent, kept] == [sent] + [kept];
      CallsAdd(c.progress.effects, [sent, kept]);
      CallsAdd([sent], [kept]);
      CallsOne(sent);
      CallsOne(kept);
    }
  }

  lemma Bits(steps: u16)
    requires steps < 64
    ensures Has(steps, STEP_LINK) <==> steps % 2 == 1
    ensures Has(steps, STEP_ROUTES) <==> steps / 2 % 2 == 1
    ensures Has(steps, STEP_FIREWALL) <==> steps / 4 % 2 == 1
    ensures Has(steps, STEP_SYSCTLS) <==> steps / 8 % 2 == 1
    ensures Has(steps, STEP_LINK_ACTIVE) <==> steps / 16 % 2 == 1
    ensures Has(steps, STEP_POLICY_RULE) <==> steps / 32 % 2 == 1
  {
  }

  /** Striking the highest of some bits leaves the lower ones. */
  lemma Struck(steps: u16, k: u16)
    requires steps < 64 && k in [1, 2, 4, 8, 16, 32]
    ensures Has(steps % (2 * k), k) <==> Has(steps, k)
    ensures Without(steps % (2 * k), k) == steps % k
  {
    hide Has, Without;
    if k == 1 {
      Struck1(steps);
    } else if k == 2 {
      Struck2(steps);
    } else if k == 4 {
      Struck4(steps);
    } else if k == 8 {
      Struck8(steps);
    } else if k == 16 {
      Struck16(steps);
    } else {
      Struck32(steps);
    }
  }

  lemma Struck1(steps: u16)
    requires steps < 64
    ensures Has(steps % 2, 1) <==> Has(steps, 1)
    ensures Without(steps % 2, 1) == steps % 1
  {
    var q, m := steps / 2, steps % 2;
    assert steps == 2 * q + m;
    assert m / 1 == if m < 1 then 0 else 1;
    assert steps / 1 == 2 * q + m / 1;
  }

  lemma Struck2(steps: u16)
    requires steps < 64
    ensures Has(steps % 4, 2) <==> Has(steps, 2)
    ensures Without(steps % 4, 2) == steps % 2
  {
    var q, m := steps / 4, steps % 4;
    assert steps == 4 * q + m;
    assert m / 2 == if m < 2 then 0 else 1;
    assert steps / 2 == 2 * q + m / 2;
  }

  lemma Struck4(steps: u16)
    requires steps < 64
    ensures Has(steps % 8, 4) <==> Has(steps, 4)
    ensures Without(steps % 8, 4) == steps % 4
  {
    var q, m := steps / 8, steps % 8;
    assert steps == 8 * q + m;
    assert m / 4 == if m < 4 then 0 else 1;
    assert steps / 4 == 2 * q + m / 4;
  }

  lemma Struck8(steps: u16)
    requires steps < 64
    ensures Has(steps % 16, 8) <==> Has(steps, 8)
    ensures Without(steps % 16, 8) == steps % 8
  {
    var q, m := steps / 16, steps % 16;
    assert steps == 16 * q + m;
    assert m / 8 == if m < 8 then 0 else 1;
    assert steps / 8 == 2 * q + m / 8;
  }

  lemma Struck16(steps: u16)
    requires steps < 64
    ensures Has(steps % 32, 16) <==> Has(steps, 16)
    ensures Without(steps % 32, 16) == steps % 16
  {
    var q, m := steps / 32, steps % 32;
    assert steps == 32 * q + m;
    assert m / 16 == if m < 16 then 0 else 1;
    assert steps / 16 == 2 * q + m / 16;
  }

  lemma Struck32(steps: u16)
    requires steps < 64
    ensures Has(steps % 64, 32) <==> Has(steps, 32)
    ensures Without(steps % 64, 32) == steps % 32
  {
    var q, m := steps / 64, steps % 64;
    assert steps == 64 * q + m;
    assert m / 32 == if m < 32 then 0 else 1;
    assert steps / 32 == 2 * q + m / 32;
  }

  /** The steps that are left after each of the six calls. */
  lemma LeftAfter(steps: u16)
    requires steps < 64
    ensures (if Has(steps, STEP_POLICY_RULE) then Without(steps, STEP_POLICY_RULE) else steps) == steps % 32
    ensures (if Has(steps, STEP_LINK) || Has(steps, STEP_LINK_ACTIVE) then Without(steps % 32, STEP_LINK_ACTIVE) else steps % 32)
            == steps % 16
    ensures (if Has(steps, STEP_SYSCTLS) then Without(steps % 16, STEP_SYSCTLS) else steps % 16) == steps % 8
    ensures (if Has(steps, STEP_FIREWALL) then Without(steps % 8, STEP_FIREWALL) else steps % 8) == steps % 4
    ensures (if Has(steps, STEP_ROUTES) then Without(steps % 4, STEP_ROUTES) else steps % 4) == steps % 2
    ensures (if Has(steps, STEP_LINK) then Without(steps % 2, STEP_LINK) else steps % 2) == 0
  {
    hide Has, Without;
    Struck(steps, 32);
    Struck(steps, 16);
    Struck(steps, 8);
    Struck(steps, 4);
    Struck(steps, 2);
    Struck(steps, 1);
    assert steps % 64 == steps;
    WithoutNone(steps, 32);
    WithoutNone(steps % 32, 16);
    WithoutNone(steps % 16, 8);
    WithoutNone(steps % 8, 4);
    WithoutNone(steps % 4, 2);
    WithoutNone(steps % 2, 1);
  }

  lemma WithoutNone(steps: u16, k: u16)
    requires k > 0
    ensures !Has(steps, k) ==> Without(steps, k) == steps
  {
    hide Has;
  }

  lemma StepsRemoved(setup: Setup, w: World, c: Cleanup, r: TransactionRecord)
    requires Works(w) && setup.File(c.progress.record).Ok? && r.completedSteps < 64
    requires c.progress.record.recoveryCandidate.None? && c.progress.record.recoveryCandidateOwner.None?
    requires c.progress.record.completedSteps == r.completedSteps
    ensures var done := CleanSteps(setup, w, c, r);
            && done.failed == c.failed && done.progress.record == c.progress.record.(completedSteps := 0)
            && Calls(done.progress.effects) == Calls(c.progress.effects) + Removal(r)
  {
    hide Has, RoutesForCleanup, CleanStep, Calls, Without, Encoded, Removal;
    var d, steps, x := r.declaration, r.completedSteps, c.progress.record;
    LeftAfter(steps);
    var linked := Has(steps, STEP_LINK) || Has(steps, STEP_LINK_ACTIVE);
    StepRemoves(setup, w, c, Has(steps, STEP_POLICY_RULE), RemovePolicyRule(d), STEP_POLICY_RULE);
    var c1 := CleanStep(setup, w, c, Has(steps, STEP_POLICY_RULE), RemovePolicyRule(d), STEP_POLICY_RULE);
    assert c1.progress.record == x.(completedSteps := steps % 32);
    StepRemoves(setup, w, c1, linked, DeactivateLink(d), STEP_LINK_ACTIVE);
    var c2 := CleanStep(setup, w, c1, linked, DeactivateLink(d), STEP_LINK_ACTIVE);
    assert c2.progress.record == x.(completedSteps := steps % 16);
    StepRemoves(setup, w, c2, Has(steps, STEP_SYSCTLS), RestoreSysctls(d, r.sysctls), STEP_SYSCTLS);
    var c3 := CleanStep(setup, w, c2, Has(steps, STEP_SYSCTLS), RestoreSysctls(d, r.sysctls), STEP_SYSCTLS);
    assert c3.progress.record == x.(completedSteps := steps % 8);
    StepRemoves(setup, w, c3, Has(steps, STEP_FIREWALL), RemoveFirewall(d), STEP_FIREWALL);
    var c4 := CleanStep(setup, w, c3, Has(steps, STEP_FIREWALL), RemoveFirewall(d), STEP_FIREWALL);
    assert c4.progress.record == x.(completedSteps := steps % 4);
    StepRemoves(setup, w, c4, Has(steps, STEP_ROUTES), RemoveRoutes(RoutesForCleanup(r)), STEP_ROUTES);
    var c5 := CleanStep(setup, w, c4, Has(steps, STEP_ROUTES), RemoveRoutes(RoutesForCleanup(r)), STEP_ROUTES);
    assert c5.progress.record == x.(completedSteps := steps % 2);
    StepRemoves(setup, w, c5, Has(steps, STEP_LINK), RemoveLink(d), STEP_LINK);
    RemovalInTurn(r, Calls(c.progress.effects));
  }

  lemma RemovalInTurn(r: TransactionRecord, before: seq<Call>)
    requires r.completedSteps < 64
    ensures var d, steps := r.declaration, r.completedSteps;
            before + (if Has(steps, STEP_POLICY_RULE) then [RemovePolicyRule(d)] else [])
            + (if Has(steps, STEP_LINK) || Has(steps, STEP_LINK_ACTIVE) then [DeactivateLink(d)] else [])
            + (if Has(steps, STEP_SYSCTLS) then [RestoreSysctls(d, r.sysctls)] else [])
            + (if Has(steps, STEP_FIREWALL) then [RemoveFirewall(d)] else [])
            + (if Has(steps, STEP_ROUTES) then [RemoveRoutes(RoutesForCleanup(r))] else [])
            + (if Has(steps, STEP_LINK) then [RemoveLink(d)] else [])
            == before + Removal(r)
  {
    hide Has, RoutesForCleanup, Thrown;
    var d, steps := r.declaration, r.completedSteps;
    Bits(steps);
    ThrownIsForCleanup(r);
    var ruled: seq<Call> := if Has(steps, STEP_POLICY_RULE) then [RemovePolicyRule(d)] else [];
    var linked: seq<Call> := if Has(steps, STEP_LINK) || Has(steps, STEP_LINK_ACTIVE) then [DeactivateLink(d)] else [];
    var tuned: seq<Call> := if Has(steps, STEP_SYSCTLS) then [RestoreSysctls(d, r.sysctls)] else [];
    var walled: seq<Call> := if Has(steps, STEP_FIREWALL) then [RemoveFirewall(d)] else [];
    var routed: seq<Call> := if Has(steps, STEP_ROUTES) then [RemoveRoutes(RoutesForCleanup(r))] else [];
    var link: seq<Call> := if Has(steps, STEP_LINK) then [RemoveLink(d)] else [];
    assert Removal(r) == ruled + linked + tuned + walled + routed + link;
    Sixfold(before, ruled, linked, tuned, walled, routed, link);
  }

  lemma Sixfold(x: seq<Call>, a: seq<Call>, b: seq<Call>, c: seq<Call>, d: seq<Call>, e: seq<Call>, f: seq<Call>)
    ensures x + a + b + c + d + e + f == x + (a + b + c + d + e + f)
  {
    Assoc(x, a, b);
    Assoc(x, a + b, c);
    Assoc(x, a + b + c, d);
    Assoc(x, a + b + c + d, e);
    Assoc(x, a + b + c + d + e, f);
  }

  lemma ThrownIsForCleanup(r: TransactionRecord)
    ensures Thrown(r) == RoutesForCleanup(r)
  {
    assert Thrown(r).routes == RoutesForCleanup(r).routes;
  }

  /** With nothing failing, a session that is not left alone ends without a record and without a journal, and
      everything that was installed for it is removed: a candidate first, then its own steps, last one
      first. */
  lemma SessionIsRemoved(setup: Setup, w: World, disk: Files, r: TransactionRecord)
    requires Works(w) && setup.File(r).Ok? && r.completedSteps < 64
    ensures var o := CleaningUp(setup, w, r);
            && o.result == Ok(true) && o.record.None? && JOURNAL_FILE !in ApplyAll(disk, o.effects)
            && Calls(o.effects)
               == (if r.recoveryCandidate.Some? then [RemoveFirewall(r.recoveryCandidate.value), RemoveRoutes(r.recoveryCandidate.value)]
                   else [])
                  + Removal(r)
  {
    hide Has, CleanSteps, CleanCandidate, Encoded, Calls, Removal;
    var x := r.(phase := RollingBack);
    PhaseKeepsFile(setup, r);
    var begun := Save(setup, w, Begin(r), x);
    var kept: Effect<seq<byte>, Message> := Replace(JOURNAL_FILE, setup.File(x).value);
    assert begun.effects == [kept];
    CallsOne(kept);
    CandidateRemoved(setup, w, begun);
    var c := CleanCandidate(setup, w, begun);
    StepsRemoved(setup, w, c, x);
    RemovalIgnoresPhase(r);
    var done := CleanSteps(setup, w, c, x).progress.effects;
    CallsAdd(done, [Remove(JOURNAL_FILE)]);
    CallsOne(Remove(JOURNAL_FILE));
    ApplyOneMore(disk, done, Remove(JOURNAL_FILE));
  }

  /** A session whose change was interrupted is recovered at once, lease or not: in place, without touching the tunnel,
      if the change was its own, kept the tunnel and found it installed, and otherwise by removing it. */
  lemma RollbackDecides(setup: Setup, w: World, r: TransactionRecord, ownerAlive: bool, now: u64)
    requires r.phase.RollingBack?
    ensures var o := Recovering(setup, w, Some(r), ownerAlive, now);
            if && r.recoveryCandidateOwner == Some(r.owner) && r.completedSteps % 8 == 7 && r.recoveryCandidate.Some?
               && r.recoveryCandidate.value.tableId == r.declaration.tableId
               && r.recoveryCandidate.value.overlayRouterIpv4 == r.declaration.overlayRouterIpv4
               && r.recoveryCandidate.value.effectiveMtu == r.declaration.effectiveMtu
               && r.recoveryCandidate.value.exclusions == r.declaration.exclusions
            then Spares(o.effects)
            else o == CleaningUp(setup, w, r)
  {
    hide Encoded, CleaningUp, RecoveringPolicy, Spares;
    InstalledSteps(r.completedSteps);
    if InPlace(r) {
      PolicySpares(setup, w, r);
    }
  }

  lemma InstalledSteps(steps: u16)
    ensures Has(steps, STEP_LINK) && Has(steps, STEP_ROUTES) && Has(steps, STEP_FIREWALL) <==> steps % 8 == 7
  {
    assert steps == 8 * (steps / 8) + steps % 8;
    assert steps / 2 == 4 * (steps / 8) + steps % 8 / 2 && steps / 4 == 2 * (steps / 8) + steps % 8 / 4;
  }

  lemma PolicySpares(setup: Setup, w: World, r: TransactionRecord)
    requires r.recoveryCandidate.Some?
    ensures Spares(RecoveringPolicy(setup, w, r).effects)
  {
    hide Encoded, Has, FirewallOf;
    var calls := ChangeCalls(r.recoveryCandidate.value, r.declaration, r.failedPrefixes)
                 + if Has(r.completedSteps, STEP_POLICY_RULE) then [InstallPolicyRule(r.declaration)] else [];
    AskAllSpares(w, Begin(r), calls);
  }

  /** A draining session whose time has come, but whose replacement belongs to another process, is refused. */
  lemma DrainedByItsOwner(setup: Setup, w: World, r: TransactionRecord, ownerAlive: bool, now: u64)
    requires r.phase.Draining? && r.recoveryCandidate.Some? && r.recoveryCandidateOwner.Some?
    requires r.recoveryCandidateOwner.value.instanceId != r.owner.instanceId || r.recoveryCandidateOwner.value.pid != r.owner.pid
    requires !ownerAlive || (r.drainDeadlineMonoMs != 0 && now >= r.drainDeadlineMonoMs)
    ensures Recovering(setup, w, Some(r), ownerAlive, now) == Outcome(Some(r), [], Err(Conflict))
  {
    hide Has, Encoded;
    NotRollingBack(r);
  }

  lemma RemovalIgnoresPhase(r: TransactionRecord)
    ensures Removal(r.(phase := RollingBack)) == Removal(r)
  {
    assert Thrown(r.(phase := RollingBack)) == Thrown(r);
  }

  lemma PhaseKeepsFile(setup: Setup, r: TransactionRecord)
    requires setup.File(r).Ok?
    ensures setup.File(r.(phase := RollingBack)).Ok?
  {
    hide GoodPrefixes, GoodChanges;
    var x := r.(phase := RollingBack);
    assert ActiveRequest(x) == ActiveRequest(r);
    assert r.recoveryCandidate.Some? ==> CandidateRequest(x) == CandidateRequest(r);
  }

  lemma CandidateRemoved(setup: Setup, w: World, p: Progress)
    requires Works(w) && setup.File(p.record).Ok?
    ensures var c := CleanCandidate(setup, w, p);
            && c.failed.None? && setup.File(c.progress.record).Ok?
            && c.progress.record == p.record.(recoveryCandidate := None, recoveryCandidateOwner := None)
            && Calls(c.progress.effects)
               == Calls(p.effects)
                  + if p.record.recoveryCandidate.Some?
                    then [RemoveFirewall(p.record.recoveryCandidate.value), RemoveRoutes(p.record.recoveryCandidate.value)] else []
  {
    hide Encoded, Calls;
    if p.record.recoveryCandidate.None? {
      NoCandidateNoOwner(setup, p.record);
      assert Calls(p.effects) + [] == Calls(p.effects);
    } else {
      var q := p.record.(recoveryCandidate := None, recoveryCandidateOwner := None);
      FileStays(setup, p.record, q);
      CandidateCleaned(setup, w, p);
      var candidate := p.record.recoveryCandidate.value;
      var firewall, routes := RemoveFirewall(candidate), RemoveRoutes(candidate);
      EachAsked(w, p, firewall, routes);
      var asked := AskEach(w, p, [firewall, routes]);
      var kept: Effect<seq<byte>, Message> := Replace(JOURNAL_FILE, setup.File(q).value);
      CallsAdd(asked.effects, [kept]);
      CallsOne(kept);
    }
  }

  lemma NoCandidateNoOwner(setup: Setup, r: TransactionRecord)
    requires setup.File(r).Ok? && r.recoveryCandidate.None?
    ensures r.recoveryCandidateOwner.None?
  {
  }

  lemma EachAsked(w: World, p: Progress, a: Call, b: Call)
    requires Works(w)
    ensures var q := AskEach(w, p, [a, b]);
            q.ok && q.record == p.record && q.stores == p.stores && Calls(q.effects) == Calls(p.effects) + [a, b]
  {
    hide Calls;
    AskMore(w, p, [], a);
    AskMore(w, p, [a], b);
    assert [] + [a] == [a] && [a] + [b] == [a, b];
    var first: Effect<seq<byte>, Message> := Send(Asked(a, true));
    var second: Effect<seq<byte>, Message> := Send(Asked(b, true));
    CallsAdd(p.effects, [first]);
    CallsAdd(p.effects + [first], [second]);
    CallsOne(first);
    CallsOne(second);
  }

  /** So an orphan that nobody is changing is removed: rule, link, sysctls, firewall and routes of a complete
      session, and the link itself. */
  lemma OrphanIsRemoved(setup: Setup, w: World, disk: Files, r: TransactionRecord, ownerAlive: bool, now: u64)
    requires Works(w) && setup.File(r).Ok? && r.completedSteps < 64
    requires r.phase in [Preparing, Prepared, Active, Suspended] && r.recoveryCandidate.None?
    requires !(ownerAlive && now < r.owner.leaseDeadlineMonoMs)
    ensures var o := Recovering(setup, w, Some(r), ownerAlive, now);
            && o.result == Ok(true) && o.record.None? && JOURNAL_FILE !in ApplyAll(disk, o.effects)
            && Calls(o.effects) == Removal(r)
            && (r.completedSteps == 63 ==>
                  Calls(o.effects) == [RemovePolicyRule(r.declaration), DeactivateLink(r.declaration),
                                       RestoreSysctls(r.declaration, r.sysctls), RemoveFirewall(r.declaration),
                                       RemoveRoutes(Thrown(r)), RemoveLink(r.declaration)])
  {
    hide Has, CleaningUp, Encoded, Calls;
    SessionIsRemoved(setup, w, disk, r);
    assert [] + Removal(r) == Removal(r);
  }

  // ---- replacements ----

  /** A replacement that never became active is dropped once its owner's lease is over: the backend is asked
      about the candidate alone, and the session is as it was. */
  lemma ReplacementIsDropped(setup: Setup, w: World, disk: Files, r: TransactionRecord, ownerAlive: bool, now: u64)
    requires setup.File(r).Ok? && r.phase in [Preparing, Prepared] && r.recoveryCandidate.Some?
    ensures var o := Recovering(setup, w, Some(r), ownerAlive, now); var c := r.recoveryCandidate.value;
            var left := r.(recoveryCandidate := None, recoveryCandidateOwner := None, phase := Active, drainDeadlineMonoMs := 0);
            && (o.effects == [] && o.record == Some(r) && o.result == Ok(false) <==> ownerAlive && now < r.owner.leaseDeadlineMonoMs)
            && (Works(w) && !(ownerAlive && now < r.owner.leaseDeadlineMonoMs) ==>
                  && o.result == Ok(true) && o.record == Some(left) && Kept(setup, ApplyAll(disk, o.effects), left)
                  && Calls(o.effects) == [RemoveFirewall(c), RemoveRoutes(c)])
  {
    hide Has, Encoded, Calls;
    var c := r.recoveryCandidate.value;
    var left := r.(recoveryCandidate := None, recoveryCandidateOwner := None, phase := Active, drainDeadlineMonoMs := 0);
    LeftHasFile(setup, r, left);
    NotRollingBack(r);
    var calls := [RemoveFirewall(c), RemoveRoutes(c)];
    AllAsked(w, Begin(r), calls);
    CallsOne(Remove(JOURNAL_FILE));
    assert [] + calls == calls;
    if Works(w) {
      WrittenLast(setup, w, disk, AskAll(w, Begin(r), calls), left);
    }
    var o := Recovering(setup, w, Some(r), ownerAlive, now);
    if !(ownerAlive && now < r.owner.leaseDeadlineMonoMs) {
      assert o == Discarding(setup, w, r);
    }
  }

  lemma NotRollingBack(r: TransactionRecord)
    requires !r.phase.RollingBack?
    ensures !InPlace(r)
  {
    hide Has;
  }

  lemma LeftHasFile(setup: Setup, r: TransactionRecord, q: TransactionRecord)
    requires setup.File(r).Ok? && q.recoveryCandidate.None? && q.recoveryCandidateOwner.None?
    requires q == r.(phase := q.phase, recoveryCandidate := None, recoveryCandidateOwner := None, drainDeadlineMonoMs := 0)
    ensures setup.File(q).Ok?
  {
    hide GoodPrefixes, GoodChanges;
    assert ActiveRequest(q) == ActiveRequest(r);
  }

  lemma {:induction false} AllAsked(w: World, p: Progress, calls: seq<Call>)
    ensures var q := AskAll(w, p, calls);
            && q.record == p.record && q.stores == p.stores && p.effects <= q.effects
            && (calls != [] ==> q.effects != p.effects)
            && (Works(w) ==> q.ok && Calls(q.effects) == Calls(p.effects) + calls)
  {
    hide Calls;
    if calls == [] {
      assert Calls(p.effects) + [] == Calls(p.effects);
    } else {
      var init, last := calls[..|calls| - 1], calls[|calls| - 1];
      AllAsked(w, p, init);
      var q := AskAll(w, p, init);
      if q.ok {
        var e: Effect<seq<byte>, Message> := Send(Asked(last, w.calls(q.calls)));
        CallsAdd(q.effects, [e]);
        CallsOne(e);
      }
      assert calls == init + [last];
    }
  }

  lemma WrittenLast(setup: Setup, w: World, disk: Files, p: Progress, q: TransactionRecord)
    requires Works(w) && setup.File(q).Ok?
    ensures var saved := Save(setup, w, p, q);
            saved.ok && saved.record == q && Kept(setup, ApplyAll(disk, saved.effects), q) && Calls(saved.effects) == Calls(p.effects)
  {
    hide Encoded, Calls;
    var e: Effect<seq<byte>, Message> := Replace(JOURNAL_FILE, setup.File(q).value);
    ApplyOneMore(disk, p.effects, e);
    CallsAdd(p.effects, [e]);
    CallsOne(e);
    assert Calls(p.effects) + [] == Calls(p.effects);
  }

  /** A draining session waits for its deadline, and without one for its owner's end; then the old declaration
      is removed and the candidate and its owner take its place. */
  lemma DrainingIsCompleted(setup: Setup, w: World, disk: Files, r: TransactionRecord, ownerAlive: bool, now: u64)
    requires setup.codec.Faithful() && setup.File(r).Ok? && r.phase.Draining? && r.recoveryCandidate.Some?
    ensures var o := Recovering(setup, w, Some(r), ownerAlive, now); var d := r.declaration;
            var waits := now < r.drainDeadlineMonoMs || (r.drainDeadlineMonoMs == 0 && ownerAlive);
            var left := r.(owner := if r.recoveryCandidateOwner.Some? then r.recoveryCandidateOwner.value else r.owner,
                           declaration := r.recoveryCandidate.value, recoveryCandidate := None, recoveryCandidateOwner := None,
                           phase := Active, drainDeadlineMonoMs := 0);
            && (waits <==> o.effects == [])
            && (waits ==> o.record == Some(r) && o.result == if ownerAlive then Ok(false) else Err(DrainPending))
            && (Works(w) && !waits ==>
                  && o.result == Ok(true) && o.record == Some(left) && Kept(setup, ApplyAll(disk, o.effects), left)
                  && Calls(o.effects) == [RemovePolicyRule(d), RemoveFirewall(d), RemoveRoutes(d)])
  {
    hide Has, Encoded, Calls;
    var d := r.declaration;
    var left := r.(owner := CandidateOwner(r), declaration := r.recoveryCandidate.value, recoveryCandidate := None,
                   recoveryCandidateOwner := None, phase := Active, drainDeadlineMonoMs := 0);
    PromotedHasFile(setup, r, left);
    NotRollingBack(r);
    SucceedsMayDrain(setup, r);
    var calls := [RemovePolicyRule(d), RemoveFirewall(d), RemoveRoutes(d)];
    AllAsked(w, Begin(r), calls);
    CallsOne(Remove(JOURNAL_FILE));
    assert [] + calls == calls;
    if Works(w) {
      WrittenLast(setup, w, disk, AskAll(w, Begin(r), calls), left);
    }
    SaveOnlyAdds(setup, w, AskAll(w, Begin(r), calls), left);
  }

  lemma SaveOnlyAdds(setup: Setup, w: World, p: Progress, q: TransactionRecord)
    ensures p.effects <= Save(setup, w, p, q).effects
  {
    hide Encoded;
  }

  lemma SucceedsMayDrain(setup: Setup, r: TransactionRecord)
    requires setup.File(r).Ok? && r.recoveryCandidate.Some?
    ensures MayDrain(r)
  {
    hide GoodPrefixes, GoodChanges;
  }

  lemma PromotedHasFile(setup: Setup, r: TransactionRecord, q: TransactionRecord)
    requires setup.File(r).Ok? && r.recoveryCandidate.Some?
    requires q == r.(owner := CandidateOwner(r), declaration := r.recoveryCandidate.value, recoveryCandidate := None,
                     recoveryCandidateOwner := None, phase := Active, drainDeadlineMonoMs := 0)
    ensures setup.File(q).Ok?
  {
    hide GoodPrefixes, GoodChanges;
    assert ActiveRequest(q) == CandidateRequest(r);
  }

  /** A draining record without a candidate, which no operation leaves, is an error once its time has come. */
  lemma NothingToPromote(setup: Setup, w: World, r: TransactionRecord, ownerAlive: bool, now: u64)
    requires r.phase.Draining? && r.recoveryCandidate.None? && r.recoveryCandidateOwner.None?
    requires !(now < r.drainDeadlineMonoMs || (r.drainDeadlineMonoMs == 0 && ownerAlive))
    ensures Recovering(setup, w, Some(r), ownerAlive, now) == Outcome(Some(r), [], Err(InvalidTransition))
  {
    hide Has;
    NotRollingBack(r);
  }

  // ---- removals that fail ----

  /** The steps of a cleanup, in its order. */
  const ORDER: seq<u16> := [32, 16, 8, 4, 2, 1]

  function Bit(steps: u16, k: u16): (b: u16)
    requires k > 0
    ensures b <= k
  {
    if Has(steps, k) then k else 0
  }

  /** `kept` is a multiple of `2 * k` that stands for steps that could not be undone; the rest is as it was. */
  predicate Halfway(now: u16, kept: u16, steps: u16, k: u16)
    requires k > 0
  {
    kept % k == 0 && kept + steps % k < 64 && now == kept + steps % k
  }

  lemma KeepsBit(now: u16, kept: u16, steps: u16, k: u16)
    requires k in ORDER && steps < 64 && kept < 64 && Halfway(now, kept, steps, 2 * k)
    ensures Has(now, k) <==> Has(steps, k)
    ensures Halfway(Without(now, k), kept, steps, k)
    ensures Halfway(now, kept + Bit(steps, k), steps, k)
  {
    hide Has, Without, Bit, Halfway;
    if k == 32 {
      KeepsBit32(now, kept, steps);
    } else if k == 16 {
      KeepsBit16(now, kept, steps);
    } else if k == 8 {
      KeepsBit8(now, kept, steps);
    } else if k == 4 {
      KeepsBit4(now, kept, steps);
    } else if k == 2 {
      KeepsBit2(now, kept, steps);
    } else {
      KeepsBit1(now, kept, steps);
    }
  }

  lemma KeepsBit32(now: u16, kept: u16, steps: u16)
    requires steps < 64 && kept < 64 && Halfway(now, kept, steps, 64)
    ensures Has(now, 32) <==> Has(steps, 32)
    ensures Halfway(Without(now, 32), kept, steps, 32)
    ensures Halfway(now, kept + Bit(steps, 32), steps, 32)
  {
    hide Has;
    LowBit32(steps);
    HighBits32(kept, steps % 64);
  }

  lemma LowBit32(steps: u16)
    ensures steps % 64 == (if Has(steps, 32) then 32 else 0) + steps % 32
  {
  }

  lemma HighBits32(kept: u16, low: u16)
    requires kept < 64 && low < 64 && kept % 64 == 0
    ensures Has(kept + low, 32) <==> low >= 32
    ensures kept % 32 == 0 && (kept + 32) % 32 == 0
  {
    var j := kept / 64;
    assert kept == 64 * j;
  }

  lemma KeepsBit16(now: u16, kept: u16, steps: u16)
    requires steps < 64 && kept < 64 && Halfway(now, kept, steps, 32)
    ensures Has(now, 16) <==> Has(steps, 16)
    ensures Halfway(Without(now, 16), kept, steps, 16)
    ensures Halfway(now, kept + Bit(steps, 16), steps, 16)
  {
    hide Has;
    LowBit16(steps);
    HighBits16(kept, steps % 32);
  }

  lemma LowBit16(steps: u16)
    ensures steps % 32 == (if Has(steps, 16) then 16 else 0) + steps % 16
  {
  }

  lemma HighBits16(kept: u16, low: u16)
    requires kept < 64 && low < 32 && kept % 32 == 0
    ensures Has(kept + low, 16) <==> low >= 16
    ensures kept % 16 == 0 && (kept + 16) % 16 == 0
  {
    var j := kept / 32;
    assert kept == 32 * j;
  }

  lemma KeepsBit8(now: u16, kept: u16, steps: u16)
    requires steps < 64 && kept < 64 && Halfway(now, kept, steps, 16)
    ensures Has(now, 8) <==> Has(steps, 8)
    ensures Halfway(Without(now, 8), kept, steps, 8)
    ensures Halfway(now, kept + Bit(steps, 8), steps, 8)
  {
    hide Has;
    LowBit8(steps);
    HighBits8(kept, steps % 16);
  }

  lemma LowBit8(steps: u16)
    ensures steps % 16 == (if Has(steps, 8) then 8 else 0) + steps % 8
  {
  }

  lemma HighBits8(kept: u16, low: u16)
    requires kept < 64 && low < 16 && kept % 16 == 0
    ensures Has(kept + low, 8) <==> low >= 8
    ensures kept % 8 == 0 && (kept + 8) % 8 == 0
  {
    var j := kept / 16;
    assert kept == 16 * j;
  }

  lemma KeepsBit4(now: u16, kept: u16, steps: u16)
    requires steps < 64 && kept < 64 && Halfway(now, kept, steps, 8)
    ensures Has(now, 4) <==> Has(steps, 4)
    ensures Halfway(Without(now, 4), kept, steps, 4)
    ensures Halfway(now, kept + Bit(steps, 4), steps, 4)
  {
    hide Has;
    LowBit4(steps);
    HighBits4(kept, steps % 8);
  }

  lemma LowBit4(steps: u16)
    ensures steps % 8 == (if Has(steps, 4) then 4 else 0) + steps % 4
  {
  }

  lemma HighBits4(kept: u16, low: u16)
    requires kept < 64 && low < 8 && kept % 8 == 0
    ensures Has(kept + low, 4) <==> low >= 4
    ensures kept % 4 == 0 && (kept + 4) % 4 == 0
  {
    var j := kept / 8;
    assert kept == 8 * j;
  }

  lemma KeepsBit2(now: u16, kept: u16, steps: u16)
    requires steps < 64 && kept < 64 && Halfway(now, kept, steps, 4)
    ensures Has(now, 2) <==> Has(steps, 2)
    ensures Halfway(Without(now, 2), kept, steps, 2)
    ensures Halfway(now, kept + Bit(steps, 2), steps, 2)
  {
    hide Has;
    LowBit2(steps);
    HighBits2(kept, steps % 4);
  }

  lemma LowBit2(steps: u16)
    ensures steps % 4 == (if Has(steps, 2) then 2 else 0) + steps % 2
  {
  }

  lemma HighBits2(kept: u16, low: u16)
    requires kept < 64 && low < 4 && kept % 4 == 0
    ensures Has(kept + low, 2) <==> low >= 2
    ensures kept % 2 == 0 && (kept + 2) % 2 == 0
  {
    var j := kept / 4;
    assert kept == 4 * j;
  }

  lemma KeepsBit1(now: u16, kept: u16, steps: u16)
    requires steps < 64 && kept < 64 && Halfway(now, kept, steps, 2)
    ensures Has(now, 1) <==> Has(steps, 1)
    ensures Halfway(Without(now, 1), kept, steps, 1)
    ensures Halfway(now, kept + Bit(steps, 1), steps, 1)
  {
    hide Has;
    LowBit1(steps);
    HighBits1(kept, steps % 2);
  }

  lemma LowBit1(steps: u16)
    ensures steps % 2 == (if Has(steps, 1) then 1 else 0) + steps % 1
  {
  }

  lemma HighBits1(kept: u16, low: u16)
    requires kept < 64 && low < 2 && kept % 2 == 0
    ensures Has(kept + low, 1) <==> low >= 1
    ensures kept % 1 == 0 && (kept + 1) % 1 == 0
  {
    var j := kept / 2;
    assert kept == 2 * j;
  }


  /** The calls that failed. */
  function Undone(es: Trace): seq<Call> {
    if es == [] then []
    else Undone(es[..|es| - 1]) + if es[|es| - 1].Send? && !es[|es| - 1].message.done then [es[|es| - 1].message.call] else []
  }

  lemma UndoneOneMore(es: Trace, e: Effect<seq<byte>, Message>)
    ensures Undone(es + [e]) == Undone(es) + if e.Send? && !e.message.done then [e.message.call] else []
  {
    assert (es + [e])[..|es|] == es;
  }

  lemma AskedUndone(w: World, p: Progress, call: Call)
    ensures var q := Ask(w, p, call);
            && q.ok == w.calls(p.calls) && q.record == p.record
            && Undone(q.effects) == Undone(p.effects) + if q.ok then [] else [call]
  {
    UndoneOneMore(p.effects, Send(Asked(call, w.calls(p.calls))));
  }

  lemma SavedUndone(setup: Setup, w: World, p: Progress, q: TransactionRecord)
    ensures Undone(Save(setup, w, p, q).effects) == Undone(p.effects) && Save(setup, w, p, q).record == q
  {
    hide Encoded;
    var saved := Save(setup, w, p, q);
    if saved.effects == p.effects + [] {
      assert p.effects + [] == p.effects;
    } else {
      UndoneOneMore(p.effects, Replace(JOURNAL_FILE, setup.File(q).value));
    }
  }

  /** One step: undone, it is struck; otherwise it stays, and the cleanup has failed. */
  lemma StepKeeps(setup: Setup, w: World, c: Cleanup, needed: bool, call: Call, k: u16, kept: u16, steps: u16)
    requires k in ORDER && steps < 64 && kept < 64 && Halfway(c.progress.record.completedSteps, kept, steps, 2 * k)
    requires Has(steps, k) ==> needed
    ensures var next := CleanStep(setup, w, c, needed, call, k); var failed := needed && !w.calls(c.progress.calls);
            && Undone(next.progress.effects) == Undone(c.progress.effects) + (if failed then [call] else [])
            && (failed ==> next.failed.Some?) && (c.failed.Some? ==> next.failed.Some?)
            && next.progress.record.recoveryCandidate == c.progress.record.recoveryCandidate
            && kept + (if failed then Bit(steps, k) else 0) < 64
            && Halfway(next.progress.record.completedSteps, kept + (if failed then Bit(steps, k) else 0), steps, k)
  {
    hide Has, Without, Undone, Halfway, Encoded, Bit;
    KeepsBit(c.progress.record.completedSteps, kept, steps, k);
    NoBit(steps, k);
    HalfwayFits(c.progress.record.completedSteps, kept + Bit(steps, k), steps, k);
    if needed {
      AskedUndone(w, c.progress, call);
      var asked := Ask(w, c.progress, call);
      if asked.ok {
        SavedUndone(setup, w, asked, asked.record.(completedSteps := Without(asked.record.completedSteps, k)));
      }
    }
  }

  lemma NoBit(steps: u16, k: u16)
    requires k > 0
    ensures !Has(steps, k) ==> Bit(steps, k) == 0
  {
  }

  lemma HalfwayFits(now: u16, kept: u16, steps: u16, k: u16)
    requires k > 0 && Halfway(now, kept, steps, k)
    ensures kept < 64
  {
  }

  /** The calls of the six steps, in their order. */
  function StepCall(r: TransactionRecord, k: u16): Call
    requires k in ORDER
  {
    if k == 32 then RemovePolicyRule(r.declaration)
    else if k == 16 then DeactivateLink(r.declaration)
    else if k == 8 then RestoreSysctls(r.declaration, r.sysctls)
    else if k == 4 then RemoveFirewall(r.declaration)
    else if k == 2 then RemoveRoutes(Thrown(r))
    else RemoveLink(r.declaration)
  }

  /** The recorded steps whose calls are among the failed ones. */
  function StillThere(r: TransactionRecord, failed: seq<Call>, k: u16): (b: u16)
    requires k in ORDER
    ensures b <= k
  {
    if StepCall(r, k) in failed then Bit(r.completedSteps, k) else 0
  }

  /** What stays recorded of the steps. */
  function Rest(r: TransactionRecord, failed: seq<Call>): int {
    StillThere(r, failed, 32) + StillThere(r, failed, 16) + StillThere(r, failed, 8) + StillThere(r, failed, 4)
    + StillThere(r, failed, 2) + StillThere(r, failed, 1)
  }

  function If(failed: bool, call: Call): seq<Call> {
    if failed then [call] else []
  }

  function BitIf(failed: bool, steps: u16, k: u16): u16
    requires k > 0
  {
    if failed then Bit(steps, k) else 0
  }

  /** Three steps in a row, and which of their calls fail. */
  lemma ThreeFail(setup: Setup, w: World, c: Cleanup, a: Call, n1: bool, b: Call, n2: bool, d: Call, n3: bool, k: u16,
                  kept: u16, steps: u16) returns (f1: bool, f2: bool, f3: bool)
    requires k == 32 || k == 4
    requires steps < 64 && kept < 64 && Halfway(c.progress.record.completedSteps, kept, steps, 2 * k)
    requires (Has(steps, k) ==> n1) && (Has(steps, k / 2) ==> n2) && (Has(steps, k / 4) ==> n3)
    ensures var c1 := CleanStep(setup, w, c, n1, a, k); var c2 := CleanStep(setup, w, c1, n2, b, k / 2);
            var done := CleanStep(setup, w, c2, n3, d, k / 4);
            var left := kept + BitIf(f1, steps, k) + BitIf(f2, steps, k / 2) + BitIf(f3, steps, k / 4);
            && (f1 || f2 || f3 || c.failed.Some? ==> done.failed.Some?)
            && done.progress.record.recoveryCandidate == c.progress.record.recoveryCandidate
            && Undone(done.progress.effects) == Undone(c.progress.effects) + If(f1, a) + If(f2, b) + If(f3, d)
            && left < 64 && Halfway(done.progress.record.completedSteps, left, steps, k / 4)
  {
    hide Has, Without, Undone, CleanStep, Halfway, Bit;
    var c1 := CleanStep(setup, w, c, n1, a, k);
    StepKeeps(setup, w, c, n1, a, k, kept, steps);
    f1 := n1 && !w.calls(c.progress.calls);
    var kept1 := kept + BitIf(f1, steps, k);
    var c2 := CleanStep(setup, w, c1, n2, b, k / 2);
    StepKeeps(setup, w, c1, n2, b, k / 2, kept1, steps);
    f2 := n2 && !w.calls(c1.progress.calls);
    var kept2 := kept1 + BitIf(f2, steps, k / 2);
    StepKeeps(setup, w, c2, n3, d, k / 4, kept2, steps);
    f3 := n3 && !w.calls(c2.progress.calls);
  }

  /** Which of the six calls fail. */
  lemma StepsFail(setup: Setup, w: World, c: Cleanup, r: TransactionRecord)
    returns (f1: bool, f2: bool, f3: bool, f4: bool, f5: bool, f6: bool)
    requires r.completedSteps < 64 && c.progress.record.completedSteps == r.completedSteps && Undone(c.progress.effects) == []
    ensures var done := CleanSteps(setup, w, c, r); var s := r.completedSteps;
            && (f1 || f2 || f3 || f4 || f5 || f6 || c.failed.Some? ==> done.failed.Some?)
            && done.progress.record.recoveryCandidate == c.progress.record.recoveryCandidate
            && Undone(done.progress.effects)
               == [] + If(f1, StepCall(r, 32)) + If(f2, StepCall(r, 16)) + If(f3, StepCall(r, 8)) + If(f4, StepCall(r, 4))
                  + If(f5, StepCall(r, 2)) + If(f6, StepCall(r, 1))
            && done.progress.record.completedSteps
               == BitIf(f1, s, 32) + BitIf(f2, s, 16) + BitIf(f3, s, 8) + BitIf(f4, s, 4) + BitIf(f5, s, 2) + BitIf(f6, s, 1)
  {
    hide Has, Without, Undone, CleanStep, RoutesForCleanup, Halfway, BitIf, If, Thrown;
    var d, s := r.declaration, r.completedSteps;
    ThrownIsForCleanup(r);
    StartsHalfway(s);
    var linked := Has(s, STEP_LINK) || Has(s, STEP_LINK_ACTIVE);
    f1, f2, f3 := ThreeFail(setup, w, c, RemovePolicyRule(d), Has(s, 32), DeactivateLink(d), linked,
                            RestoreSysctls(d, r.sysctls), Has(s, 8), 32, 0, s);
    var c1 := CleanStep(setup, w, c, Has(s, 32), RemovePolicyRule(d), 32);
    var c2 := CleanStep(setup, w, c1, linked, DeactivateLink(d), 16);
    var c3 := CleanStep(setup, w, c2, Has(s, 8), RestoreSysctls(d, r.sysctls), 8);
    var kept := 0 + BitIf(f1, s, 32) + BitIf(f2, s, 16) + BitIf(f3, s, 8);
    f4, f5, f6 := ThreeFail(setup, w, c3, RemoveFirewall(d), Has(s, 4), RemoveRoutes(RoutesForCleanup(r)), Has(s, 2),
                            RemoveLink(d), Has(s, 1), 4, kept, s);
    EndsHalfway(CleanSteps(setup, w, c, r).progress.record.completedSteps,
                kept + BitIf(f4, s, 4) + BitIf(f5, s, 2) + BitIf(f6, s, 1), s);
  }

  lemma StepsKept(setup: Setup, w: World, c: Cleanup, r: TransactionRecord)
    requires r.completedSteps < 64 && c.progress.record.completedSteps == r.completedSteps && Undone(c.progress.effects) == []
    ensures var done := CleanSteps(setup, w, c, r); var failed := Undone(done.progress.effects);
            && (failed != [] || c.failed.Some? ==> done.failed.Some?)
            && done.progress.record.recoveryCandidate == c.progress.record.recoveryCandidate
            && done.progress.record.completedSteps == Rest(r, failed)
  {
    hide Undone, CleanSteps, Bit, StepCall;
    var f1, f2, f3, f4, f5, f6 := StepsFail(setup, w, c, r);
    FailedCalls(r, Undone(CleanSteps(setup, w, c, r).progress.effects), f1, f2, f3, f4, f5, f6);
  }

  lemma StartsHalfway(s: u16)
    requires s < 64
    ensures Halfway(s, 0, s, 64)
  {
  }

  lemma EndsHalfway(now: u16, kept: u16, steps: u16)
    requires Halfway(now, kept, steps, 1)
    ensures now == kept
  {
  }

  /** Membership in the list of failed calls tells the steps apart. */
  lemma FailedCalls(r: TransactionRecord, failed: seq<Call>, f1: bool, f2: bool, f3: bool, f4: bool, f5: bool, f6: bool)
    requires failed == [] + If(f1, StepCall(r, 32)) + If(f2, StepCall(r, 16)) + If(f3, StepCall(r, 8)) + If(f4, StepCall(r, 4))
                       + If(f5, StepCall(r, 2)) + If(f6, StepCall(r, 1))
    ensures StepCall(r, 32) in failed <==> f1
    ensures StepCall(r, 16) in failed <==> f2
    ensures StepCall(r, 8) in failed <==> f3
    ensures StepCall(r, 4) in failed <==> f4
    ensures StepCall(r, 2) in failed <==> f5
    ensures StepCall(r, 1) in failed <==> f6
    ensures failed != [] <==> f1 || f2 || f3 || f4 || f5 || f6
  {
    hide If, StepCall;
    CallsDiffer(r);
    OnlyIf(f1, StepCall(r, 32));
    OnlyIf(f2, StepCall(r, 16));
    OnlyIf(f3, StepCall(r, 8));
    OnlyIf(f4, StepCall(r, 4));
    OnlyIf(f5, StepCall(r, 2));
    OnlyIf(f6, StepCall(r, 1));
  }

  lemma OnlyIf(f: bool, call: Call)
    ensures forall x :: x in If(f, call) <==> f && x == call
    ensures If(f, call) == [] <==> !f
  {
  }

  lemma CallsDiffer(r: TransactionRecord)
    ensures forall i, j :: 0 <= i < j < 6 ==> StepCall(r, ORDER[i]) != StepCall(r, ORDER[j])
    ensures StepCall(r, 32) == StepCall(r, ORDER[0]) && StepCall(r, 16) == StepCall(r, ORDER[1])
            && StepCall(r, 8) == StepCall(r, ORDER[2]) && StepCall(r, 4) == StepCall(r, ORDER[3])
            && StepCall(r, 2) == StepCall(r, ORDER[4]) && StepCall(r, 1) == StepCall(r, ORDER[5])
  {
    hide Thrown;
  }

  /** Whatever fails while a session without a candidate is removed: exactly the steps that could not be undone stay
      recorded, the answer is an error if there is any such call, and the record goes only when no step is
      left. */
  lemma CleanupKeepsTheRest(setup: Setup, w: World, r: TransactionRecord)
    requires r.completedSteps < 64 && r.recoveryCandidate.None? && setup.File(r).Ok? && w.stores(0).Written?
    ensures var o := CleaningUp(setup, w, r); var failed := Undone(o.effects);
            var rest := Rest(r, failed);
            && (failed != [] ==> o.result.Err?)
            && (o.result.Ok? ==> o.result == Ok(true) && o.record.None?)
            && (o.record.Some? ==> o.record.value.completedSteps == rest)
            && (o.record.None? <==> rest == 0 && w.removal.Written?)
            && (Remove(JOURNAL_FILE) in o.effects ==> rest == 0)
  {
    hide Has, Encoded, Undone, CleanSteps, Rest, CleanStep;
    var x := r.(phase := RollingBack);
    PhaseKeepsFile(setup, r);
    var begun := Save(setup, w, Begin(r), x);
    SavedUndone(setup, w, Begin(r), x);
    NothingUndone();
    var c := CleanCandidate(setup, w, begun);
    StepsKept(setup, w, c, x);
    var done := CleanSteps(setup, w, c, x);
    var es := done.progress.effects;
    UndoneOneMore(es, Remove(JOURNAL_FILE));
    assert es + [] == es;
    PhaseKeepsRest(r, Undone(es));
    NothingStill(r);
    var o := CleaningUp(setup, w, r);
    assert done.progress.record.recoveryCandidate.None?;
    assert o.effects == es || o.effects == es + [Remove(JOURNAL_FILE)];
    assert Undone(o.effects) == Undone(es);
    StepsNeverRemove(setup, w, c, x);
  }

  lemma NothingUndone()
    ensures Undone([]) == []
  {
  }

  lemma PhaseKeepsRest(r: TransactionRecord, failed: seq<Call>)
    ensures Rest(r.(phase := RollingBack), failed) == Rest(r, failed)
  {
    hide Bit;
    var x := r.(phase := RollingBack);
    assert Thrown(x) == Thrown(r);
  }

  lemma NothingStill(r: TransactionRecord)
    ensures Rest(r, []) == 0
  {
    hide Bit, StepCall;
  }

  predicate NeverRemoves(es: Trace) {
    forall i :: 0 <= i < |es| ==> !es[i].Remove?
  }

  lemma StepNeverRemoves(setup: Setup, w: World, c: Cleanup, needed: bool, call: Call, k: u16)
    requires k > 0 && NeverRemoves(c.progress.effects)
    ensures NeverRemoves(CleanStep(setup, w, c, needed, call, k).progress.effects)
  {
    hide Encoded, Without;
  }

  lemma StepsNeverRemove(setup: Setup, w: World, c: Cleanup, r: TransactionRecord)
    requires NeverRemoves(c.progress.effects)
    ensures NeverRemoves(CleanSteps(setup, w, c, r).progress.effects)
  {
    hide Has, CleanStep, RoutesForCleanup;
    var d, s := r.declaration, r.completedSteps;
    var linked := Has(s, STEP_LINK) || Has(s, STEP_LINK_ACTIVE);
    StepNeverRemoves(setup, w, c, Has(s, 32), RemovePolicyRule(d), 32);
    var c1 := CleanStep(setup, w, c, Has(s, 32), RemovePolicyRule(d), 32);
    StepNeverRemoves(setup, w, c1, linked, DeactivateLink(d), 16);
    var c2 := CleanStep(setup, w, c1, linked, DeactivateLink(d), 16);
    StepNeverRemoves(setup, w, c2, Has(s, 8), RestoreSysctls(d, r.sysctls), 8);
    var c3 := CleanStep(setup, w, c2, Has(s, 8), RestoreSysctls(d, r.sysctls), 8);
    StepNeverRemoves(setup, w, c3, Has(s, 4), RemoveFirewall(d), 4);
    var c4 := CleanStep(setup, w, c3, Has(s, 4), RemoveFirewall(d), 4);
    StepNeverRemoves(setup, w, c4, Has(s, 2), RemoveRoutes(RoutesForCleanup(r)), 2);
    var c5 := CleanStep(setup, w, c4, Has(s, 2), RemoveRoutes(RoutesForCleanup(r)), 2);
    StepNeverRemoves(setup, w, c5, Has(s, 1), RemoveLink(d), 1);
  }

  /** A candidate that could not be removed stays recorded, the answer is an error, and the journal stays. */
  lemma CandidateStays(setup: Setup, w: World, r: TransactionRecord)
    requires r.recoveryCandidate.Some? && setup.File(r).Ok? && w.stores(0).Written? && !(w.calls(0) && w.calls(1))
    ensures var o := CleaningUp(setup, w, r);
            && o.result.Err? && o.record.Some? && o.record.value.recoveryCandidate == r.recoveryCandidate
            && Remove(JOURNAL_FILE) !in o.effects
  {
    hide Has, Encoded, CleanSteps, CleanStep;
    var x := r.(phase := RollingBack);
    PhaseKeepsFile(setup, r);
    var begun := Save(setup, w, Begin(r), x);
    var candidate := r.recoveryCandidate.value;
    var firewall, routes := RemoveFirewall(candidate), RemoveRoutes(candidate);
    AskMore(w, begun, [], firewall);
    AskMore(w, begun, [firewall], routes);
    assert [] + [firewall] == [firewall] && [firewall] + [routes] == [firewall, routes];
    var c := CleanCandidate(setup, w, begun);
    assert c.failed.Some? && c.progress.record == x;
    StepsKeepFailure(setup, w, c, x);
    StepsNeverRemove(setup, w, c, x);
  }

  lemma StepKeepsFailure(setup: Setup, w: World, c: Cleanup, needed: bool, call: Call, k: u16)
    requires k > 0 && c.failed.Some?
    ensures var next := CleanStep(setup, w, c, needed, call, k);
            next.failed.Some? && next.progress.record.recoveryCandidate == c.progress.record.recoveryCandidate
  {
    hide Encoded, Without;
  }

  lemma StepsKeepFailure(setup: Setup, w: World, c: Cleanup, r: TransactionRecord)
    requires c.failed.Some?
    ensures var done := CleanSteps(setup, w, c, r);
            done.failed.Some? && done.progress.record.recoveryCandidate == c.progress.record.recoveryCandidate
  {
    hide Has, CleanStep, RoutesForCleanup;
    var d, s := r.declaration, r.completedSteps;
    var linked := Has(s, STEP_LINK) || Has(s, STEP_LINK_ACTIVE);
    StepKeepsFailure(setup, w, c, Has(s, 32), RemovePolicyRule(d), 32);
    var c1 := CleanStep(setup, w, c, Has(s, 32), RemovePolicyRule(d), 32);
    StepKeepsFailure(setup, w, c1, linked, DeactivateLink(d), 16);
    var c2 := CleanStep(setup, w, c1, linked, DeactivateLink(d), 16);
    StepKeepsFailure(setup, w, c2, Has(s, 8), RestoreSysctls(d, r.sysctls), 8);
    var c3 := CleanStep(setup, w, c2, Has(s, 8), RestoreSysctls(d, r.sysctls), 8);
    StepKeepsFailure(setup, w, c3, Has(s, 4), RemoveFirewall(d), 4);
    var c4 := CleanStep(setup, w, c3, Has(s, 4), RemoveFirewall(d), 4);
    StepKeepsFailure(setup, w, c4, Has(s, 2), RemoveRoutes(RoutesForCleanup(r)), 2);
    var c5 := CleanStep(setup, w, c4, Has(s, 2), RemoveRoutes(RoutesForCleanup(r)), 2);
    StepKeepsFailure(setup, w, c5, Has(s, 1), RemoveLink(d), 1);
  }
}
