/** What a policy update of a live session leaves behind: in the kernel, in memory and in the journal, when it
    ends and at every point where netd may be killed. */
module PolicyUpdates {
  import opened Bytes
  import opened Host
  import Journal
  import opened JournalFormat
  import JournalNetd
  import JournalProofs
  import opened Netd
  import opened NetdProto
  import opened NetdSamples
  import opened NetworkTransactions
  import opened Sorting
  import opened Wrappers

  // ---- sessions ----

  predicate InScope(d: PrepareDeclaration, failed: seq<Ipv4Prefix>) {
    forall i :: 0 <= i < |failed| ==> RemoteIn(d, failed[i])
  }

  /** A live session, as it stands in memory and in the journal. */
  predicate Live(setup: Setup, r: TransactionRecord) {
    && (r.phase.Active? || r.phase.Suspended?)
    && r.recoveryCandidate.None? && r.recoveryCandidateOwner.None? && r.drainDeadlineMonoMs == 0
    && setup.File(r).Ok? && CanonicalDeclaration(r.declaration) && r.completedSteps < 64
    && InScope(r.declaration, r.failedPrefixes)
  }

  /** The policy rule is recorded exactly while the session is active. A netd killed between the two writes of
      a suspension or a resumption leaves a session where it is not. */
  predicate Ruled(r: TransactionRecord) {
    r.phase.Active? <==> Has(r.completedSteps, STEP_POLICY_RULE)
  }

  /** A policy update that changes the session: valid, canonical as every decoded request is, by the owner of
      the session under a lease. */
  predicate Changes(r: TransactionRecord, owner: LeaseOwner, d: PrepareDeclaration) {
    && DeclarationValid(d) && CanonicalDeclaration(d) && Updatable(r, owner, d) && r.declaration != d
    && owner.leaseDeadlineMonoMs != 0
  }

  predicate Kept(setup: Setup, disk: Files, r: TransactionRecord) {
    JOURNAL_FILE in disk && setup.File(r).Ok? && disk[JOURNAL_FILE] == setup.File(r).value
  }

  // ---- failed prefixes that stay in scope ----

  lemma {:induction false} RetainedAll(failed: seq<Ipv4Prefix>, d: PrepareDeclaration)
    requires InScope(d, failed)
    ensures Retained(failed, d) == failed
  {
    hide RemoteIn;
    if failed != [] {
      var init := failed[..|failed| - 1];
      assert forall i :: 0 <= i < |init| ==> init[i] == failed[i];
      RetainedAll(init, d);
      assert failed == init + [failed[|failed| - 1]];
    }
  }

  lemma {:induction false} RetainedFrom(failed: seq<Ipv4Prefix>, d: PrepareDeclaration)
    ensures InScope(d, Retained(failed, d)) && |Retained(failed, d)| <= |failed|
    ensures forall i :: 0 <= i < |Retained(failed, d)| ==> Retained(failed, d)[i] in failed
  {
    hide RemoteIn;
    if failed != [] {
      RetainedFrom(failed[..|failed| - 1], d);
    }
  }

  lemma SameRoutesScope(a: PrepareDeclaration, b: PrepareDeclaration, failed: seq<Ipv4Prefix>)
    requires a.routes == b.routes && InScope(a, failed)
    ensures InScope(b, failed)
  {
    forall i | 0 <= i < |failed| ensures RemoteIn(b, failed[i]) {
      assert RemoteIn(a, failed[i]);
    }
  }

  lemma {:induction false} RanksAscend(ps: seq<Ipv4Prefix>, i: nat, j: nat)
    requires GoodPrefixes(ps) && i < j < |ps|
    ensures PrefixRank(ps[i]) < PrefixRank(ps[j])
    decreases j
  {
    hide PrefixRank, CanonicalPrefix;
    if i < j - 1 {
      RanksAscend(ps, i, j - 1);
    }
  }

  lemma GoodInit(ps: seq<Ipv4Prefix>)
    requires GoodPrefixes(ps) && ps != []
    ensures GoodPrefixes(ps[..|ps| - 1])
    ensures forall p :: p in ps[..|ps| - 1] ==> PrefixRank(p) < PrefixRank(ps[|ps| - 1])
    ensures CanonicalPrefix(ps[|ps| - 1])
  {
    hide PrefixRank, CanonicalPrefix;
    var init := ps[..|ps| - 1];
    forall p | p in init ensures PrefixRank(p) < PrefixRank(ps[|ps| - 1]) {
      var i :| 0 <= i < |init| && init[i] == p;
      RanksAscend(ps, i, |ps| - 1);
    }
  }

  lemma {:induction false} RetainedGood(failed: seq<Ipv4Prefix>, d: PrepareDeclaration)
    requires GoodPrefixes(failed)
    ensures GoodPrefixes(Retained(failed, d))
  {
    hide PrefixRank, CanonicalPrefix, RemoteIn;
    if failed != [] {
      var init, last := failed[..|failed| - 1], failed[|failed| - 1];
      GoodInit(failed);
      RetainedGood(init, d);
      RetainedFrom(init, d);
      var kept := Retained(init, d);
      assert kept != [] ==> kept[|kept| - 1] in init;
    }
  }

  // ---- what is written can be encoded ----

  lemma FileNeeds(setup: Setup, r: TransactionRecord)
    ensures setup.File(r).Ok? <==> Encodable(setup.codec, r)
  {
  }

  lemma FrameAtMost(q: NetdRequest)
    requires Encode(q).Some?
    ensures |Encode(q).value| < 0x1_0000_0000
  {
    EncodedSize(q);
  }

  lemma OwnerOfEncodable(r: TransactionRecord)
    requires Encodable(ProtoCodec(), r)
    ensures OwnerValid(r.owner) && DeclarationValid(r.declaration)
  {
    hide DeclarationValid, OwnerValid;
    assert Encode(ActiveRequest(r)).Some?;
    ValidOperation(ActiveRequest(r));
  }

  lemma ValidOperation(q: NetdRequest)
    requires Encode(q).Some? && q.operation.Prepare?
    ensures OwnerValid(q.owner) && DeclarationValid(q.operation.declaration)
  {
    hide DeclarationValid, OwnerValid;
  }

  /** Before anything is touched the intent is written; it can always be encoded. */
  lemma IntentEncodes(setup: Setup, r: TransactionRecord, owner: LeaseOwner, d: PrepareDeclaration)
    requires setup.codec == ProtoCodec() && Live(setup, r) && Changes(r, owner, d)
    ensures setup.File(Intent(r, owner, d)).Ok?
  {
    hide DeclarationValid, CanonicalDeclaration, InScope, Has, SameTunnel, OwnerValid, Encode, Decode;
    var i := Intent(r, owner, d);
    FileNeeds(setup, r);
    FileNeeds(setup, i);
    OwnerOfEncodable(r);
    SameOwnerValid(r.owner, owner);
    PreparationFits(owner, d);
    assert ActiveRequest(i) == ActiveRequest(r);
    assert CandidateRequest(i) == NetdRequest(1, owner, Prepare(d));
    FrameAtMost(CandidateRequest(i));
  }

  lemma SameOwnerValid(a: LeaseOwner, b: LeaseOwner)
    requires OwnerValid(a) && SameGeneration(a, b) && b.leaseDeadlineMonoMs != 0
    ensures OwnerValid(b)
  {
  }

  /** An update leaves a live session that can be written. */
  lemma UpdatedIsLive(setup: Setup, r: TransactionRecord, owner: LeaseOwner, d: PrepareDeclaration)
    requires setup.codec == ProtoCodec() && Live(setup, r) && Changes(r, owner, d)
    ensures Live(setup, Updated(r, d)) && (Ruled(r) ==> Ruled(Updated(r, d)))
  {
    hide DeclarationValid, CanonicalDeclaration, Has, SameTunnel, OwnerValid, Encode, Decode, GoodPrefixes, InScope;
    var u := Updated(r, d);
    FileNeeds(setup, r);
    FileNeeds(setup, u);
    OwnerOfEncodable(r);
    PreparationFits(r.owner, d);
    assert ActiveRequest(u) == NetdRequest(1, r.owner, Prepare(d));
    FrameAtMost(ActiveRequest(u));
    RetainedGood(r.failedPrefixes, d);
    RetainedFrom(r.failedPrefixes, d);
  }

  // ---- the kernel ----

  datatype Rule = NoRule | RuleFor(declaration: PrepareDeclaration)

  /** What the kernel holds of routes, firewall and policy rule; `None` when a step on it failed. */
  datatype Kernel = Kernel(routes: Option<(seq<RouteDeclaration>, seq<Ipv4Prefix>)>, firewall: Option<Firewall>,
                           rule: Option<Rule>)

  function KernelOf(r: TransactionRecord): Kernel {
    Kernel(Some((r.declaration.routes, r.failedPrefixes)), Some(FirewallOf(r.declaration)),
           Some(if r.phase.Active? then RuleFor(r.declaration) else NoRule))
  }

  function Answer(k: Kernel, call: Call, done: bool): Kernel {
    match call
    case ReconcileRoutes(d, failed) => k.(routes := if done then Some((d.routes, failed)) else None)
    case ReplaceFirewall(_, d) => k.(firewall := if done then Some(FirewallOf(d)) else None)
    case InstallPolicyRule(d) => k.(rule := if done then Some(RuleFor(d)) else None)
    case RemovePolicyRule(_) => k.(rule := if done then Some(NoRule) else None)
    case RemoveFirewall(_) => k.(firewall := None)
    case RemoveRoutes(_) => k.(routes := None)
    case _ => Kernel(None, None, None)
  }

  function Meets(k: Kernel, e: Effect<seq<byte>, Message>): Kernel {
    if e.Send? then Answer(k, e.message.call, e.message.done) else k
  }

  function After(k: Kernel, es: Trace): Kernel {
    if es == [] then k else Meets(After(k, es[..|es| - 1]), es[|es| - 1])
  }

  lemma AfterOneMore(k: Kernel, es: Trace, e: Effect<seq<byte>, Message>)
    ensures After(k, es + [e]) == Meets(After(k, es), e)
  {
    assert (es + [e])[..|es|] == es;
  }

  /** Both sides of a machine after the effects of an operation. */
  datatype Sides = Sides(disk: Files, kernel: Kernel)

  function Seen(s: Sides, es: Trace): Sides {
    Sides(ApplyAll(s.disk, es), After(s.kernel, es))
  }

  lemma SeenAsk(s: Sides, w: World, p: Progress, call: Call)
    ensures Seen(s, Ask(w, p, call).effects)
         == Sides(Seen(s, p.effects).disk, Answer(Seen(s, p.effects).kernel, call, w.calls(p.calls)))
  {
    ApplyOneMore(s.disk, p.effects, Send(Asked(call, w.calls(p.calls))));
    AfterOneMore(s.kernel, p.effects, Send(Asked(call, w.calls(p.calls))));
  }

  lemma SeenPersist(setup: Setup, s: Sides, w: World, p: Progress, r: TransactionRecord)
    ensures var q := Persist(setup, w, p, r); var before, after := Seen(s, p.effects), Seen(s, q.effects);
            && q.record == p.record && after.kernel == before.kernel
            && (q.ok ==> Kept(setup, after.disk, r))
            && (after.disk == before.disk || Kept(setup, after.disk, r))
  {
    hide Encoded;
    var q := Persist(setup, w, p, r);
    if q.effects == p.effects + [] {
      assert p.effects + [] == p.effects;
    } else {
      var e: Effect<seq<byte>, Message> := Replace(JOURNAL_FILE, setup.File(r).value);
      ApplyOneMore(s.disk, p.effects, e);
      AfterOneMore(s.kernel, p.effects, e);
    }
  }

  /** What a kernel is after routes and firewall went from one declaration to another. */
  function Changed(k: Kernel, from: PrepareDeclaration, to: PrepareDeclaration, failed: seq<Ipv4Prefix>): Kernel {
    k.(routes := if from.routes != to.routes then Some((to.routes, failed)) else k.routes,
       firewall := if FirewallOf(from) != FirewallOf(to) then Some(FirewallOf(to)) else k.firewall)
  }

  lemma SeenChangeAll(s: Sides, w: World, p: Progress, from: PrepareDeclaration, to: PrepareDeclaration, failed: seq<Ipv4Prefix>)
    ensures var q := AskAll(w, p, ChangeCalls(from, to, failed));
            var before, after := Seen(s, p.effects), Seen(s, q.effects);
            && q.record == p.record && after.disk == before.disk && q.stores == p.stores
            && (q.ok ==> after.kernel == Changed(before.kernel, from, to, failed))
            && (from.routes == to.routes ==> after.kernel.routes == before.kernel.routes)
            && (FirewallOf(from) == FirewallOf(to) ==> after.kernel.firewall == before.kernel.firewall)
            && after.kernel.rule == before.kernel.rule
  {
    hide FirewallOf, Seen;
    var calls := ChangeCalls(from, to, failed);
    var none := AskAll(w, p, []);
    if from.routes != to.routes {
      var reconcile := ReconcileRoutes(to, failed);
      AskMore(w, p, [], reconcile);
      SeenAsk(s, w, none, reconcile);
      assert [] + [reconcile] == [reconcile];
      if FirewallOf(from) != FirewallOf(to) {
        var replace := ReplaceFirewall(from, to);
        AskMore(w, p, [reconcile], replace);
        SeenAsk(s, w, AskAll(w, p, [reconcile]), replace);
        assert calls == [reconcile] + [replace];
      } else {
        assert calls == [reconcile];
      }
    } else if FirewallOf(from) != FirewallOf(to) {
      var replace := ReplaceFirewall(from, to);
      AskMore(w, p, [], replace);
      SeenAsk(s, w, none, replace);
      assert calls == [] + [replace];
    } else {
      assert calls == [];
    }
  }

  lemma SeenChangeEach(s: Sides, w: World, p: Progress, from: PrepareDeclaration, to: PrepareDeclaration, failed: seq<Ipv4Prefix>)
    ensures var q := AskEach(w, p, ChangeCalls(from, to, failed));
            var before, after := Seen(s, p.effects), Seen(s, q.effects);
            && q.record == p.record && after.disk == before.disk && q.stores == p.stores
            && (q.ok ==> after.kernel == Changed(before.kernel, from, to, failed))
            && (from.routes == to.routes ==> after.kernel.routes == before.kernel.routes)
            && (FirewallOf(from) == FirewallOf(to) ==> after.kernel.firewall == before.kernel.firewall)
            && after.kernel.rule == before.kernel.rule
  {
    hide FirewallOf, Seen;
    var calls := ChangeCalls(from, to, failed);
    var none := AskEach(w, p, []);
    if from.routes != to.routes {
      var reconcile := ReconcileRoutes(to, failed);
      AskMore(w, p, [], reconcile);
      SeenAsk(s, w, none, reconcile);
      assert [] + [reconcile] == [reconcile];
      if FirewallOf(from) != FirewallOf(to) {
        var replace := ReplaceFirewall(from, to);
        AskMore(w, p, [reconcile], replace);
        SeenAsk(s, w, AskEach(w, p, [reconcile]), replace);
        assert calls == [reconcile] + [replace];
      } else {
        assert calls == [reconcile];
      }
    } else if FirewallOf(from) != FirewallOf(to) {
      var replace := ReplaceFirewall(from, to);
      AskMore(w, p, [], replace);
      SeenAsk(s, w, none, replace);
      assert calls == [] + [replace];
    } else {
      assert calls == [];
    }
  }

  // ---- an update that is not killed ----

  /** The parts of the kernel an update may have touched are unknown, the others as before. */
  predicate Between(k: Kernel, r: TransactionRecord, d: PrepareDeclaration) {
    && (r.declaration.routes == d.routes ==> k.routes == KernelOf(r).routes)
    && (FirewallOf(r.declaration) == FirewallOf(d) ==> k.firewall == KernelOf(r).firewall)
    && (!r.phase.Active? ==> k.rule == KernelOf(r).rule)
  }

  /** Undoing the changes, from anywhere between, gives the old kernel. */
  lemma ChangedBack(k: Kernel, r: TransactionRecord, d: PrepareDeclaration)
    requires Between(k, r, d)
    ensures var back := Changed(k, d, r.declaration, r.failedPrefixes);
            && back.routes == KernelOf(r).routes && back.firewall == KernelOf(r).firewall && back.rule == k.rule
  {
    hide FirewallOf;
  }

  lemma RestoringRestores(setup: Setup, s: Sides, w: World, p: Progress, r: TransactionRecord, d: PrepareDeclaration,
                          error: Failure)
    requires Live(setup, r) && Ruled(r) && Between(Seen(s, p.effects).kernel, r, d)
    ensures var o := Restoring(setup, w, p, r, d, error); var after := Seen(s, o.effects);
            && o.result.Err? && Between(after.kernel, r, d)
            && (o.record == Some(p.record) || (o.record == Some(r) && Kept(setup, after.disk, r) && after.kernel == KernelOf(r)))
  {
    hide FirewallOf, Seen, ChangeCalls, Has, InScope, Encodable, CanonicalDeclaration;
    var restored := AskEach(w, p, ChangeCalls(d, r.declaration, r.failedPrefixes));
    SeenChangeEach(s, w, p, d, r.declaration, r.failedPrefixes);
    ChangedBack(Seen(s, p.effects).kernel, r, d);
    var install := InstallPolicyRule(r.declaration);
    SeenAsk(s, w, restored, install);
    var ruled := if Has(r.completedSteps, STEP_POLICY_RULE) then Ask(w, restored, install) else restored;
    SeenPersist(setup, s, w, ruled, r);
  }

  lemma PolicyIsChanged(s: Sides, w: World, p: Progress, r: TransactionRecord, d: PrepareDeclaration)
    requires Seen(s, p.effects).kernel == KernelOf(r) && InScope(r.declaration, r.failedPrefixes)
    ensures var q := AskAll(w, p, PolicyCalls(r, d)); var after := Seen(s, q.effects);
            && q.record == p.record && Between(after.kernel, r, d)
            && (q.ok ==> after.kernel == KernelOf(Updated(r, d)))
  {
    hide FirewallOf, ChangeCalls, InScope, Seen, Retained;
    var retained := Retained(r.failedPrefixes, d);
    var calls, install := ChangeCalls(r.declaration, d, retained), InstallPolicyRule(d);
    SeenChangeAll(s, w, p, r.declaration, d, retained);
    SeenAsk(s, w, AskAll(w, p, calls), install);
    AskMore(w, p, calls, install);
    ChangedIsUpdated(r, d);
    if r.phase.Active? {
      assert PolicyCalls(r, d) == calls + [install];
    } else {
      assert PolicyCalls(r, d) == calls;
    }
  }

  /** Where an update ends once the changes were made or failed. */
  lemma ConcludingEnds(setup: Setup, s: Sides, w: World, applied: Progress, r: TransactionRecord, d: PrepareDeclaration)
    requires Live(setup, r) && Ruled(r) && Between(Seen(s, applied.effects).kernel, r, d)
    requires applied.ok ==> Seen(s, applied.effects).kernel == KernelOf(Updated(r, d))
    ensures var o := Concluding(setup, w, applied, r, d); var after := Seen(s, o.effects);
            && (o.result.Ok? ==> o.record == Some(Updated(r, d)) && Kept(setup, after.disk, Updated(r, d))
                                 && after.kernel == KernelOf(Updated(r, d)))
            && (o.result.Err? ==> Between(after.kernel, r, d)
                                  && (o.record == Some(applied.record)
                                      || (o.record == Some(r) && Kept(setup, after.disk, r) && after.kernel == KernelOf(r))))
  {
    hide FirewallOf, Has, InScope, Encodable, CanonicalDeclaration, Restoring, Seen, Retained, Persist, KernelOf, Live,
         Between;
    if !applied.ok {
      RestoringRestores(setup, s, w, applied, r, d, Backend);
    } else {
      SeenPersist(setup, s, w, applied, Updated(r, d));
      var updated := Persist(setup, w, applied, Updated(r, d));
      if !updated.ok {
        RestoringRestores(setup, s, w, updated, r, d, JournalFailed);
      }
    }
  }

  /** How an update may end: with all its changes made; or refused, with memory, journal and kernel as they
      were; or still open, holding on to its intent, with nothing touched that it does not change. */
  predicate EndsWell(setup: Setup, w: World, r: TransactionRecord, owner: LeaseOwner, d: PrepareDeclaration, disk: Files) {
    var o := Updating(setup, w, Some(r), owner, d);
    var after := Seen(Sides(disk, KernelOf(r)), o.effects);
    && (o.result.Ok? ==> o.record == Some(Updated(r, d)) && Kept(setup, after.disk, Updated(r, d))
                         && after.kernel == KernelOf(Updated(r, d)))
    && (o.result.Err? ==> Between(after.kernel, r, d)
                          && (o.record == Some(Intent(r, owner, d))
                              || (o.record == Some(r) && Kept(setup, after.disk, r) && after.kernel == KernelOf(r))))
  }

  lemma UpdateEndsWell(setup: Setup, w: World, r: TransactionRecord, owner: LeaseOwner, d: PrepareDeclaration, disk: Files)
    requires Live(setup, r) && Ruled(r) && Changes(r, owner, d)
    ensures EndsWell(setup, w, r, owner, d, disk)
  {
    hide FirewallOf, DeclarationValid, Concluding, PolicyCalls, Seen, Persist, Intent, CanonicalDeclaration, Encodable, Has;
    var s := Sides(disk, KernelOf(r));
    SeenNothing(s);
    var intent := Intent(r, owner, d);
    SeenPersist(setup, s, w, Begin(r).(record := intent), intent);
    var saved := Save(setup, w, Begin(r), intent);
    PolicyIsChanged(s, w, saved, r, d);
    ConcludingEnds(setup, s, w, AskAll(w, saved, PolicyCalls(r, d)), r, d);
  }

  /** Only the write of the new record fails. */
  function LastWriteFails(): World {
    World((k: nat) => true, (k: nat) => if k == 1 then Journal.NotWritten else Journal.Written, Journal.Written)
  }

  lemma {:induction false} AllAnswered(p: Progress, calls: seq<Call>)
    ensures var q := AskAll(LastWriteFails(), p, calls); q.ok && q.stores == p.stores && q.record == p.record
    ensures var q := AskEach(LastWriteFails(), p, calls); q.ok && q.stores == p.stores && q.record == p.record
  {
    if calls != [] {
      AllAnswered(p, calls[..|calls| - 1]);
    }
  }

  /** Without the rule recorded as it is, the way back does not lead back. */
  lemma UnruledIsNotRestored(setup: Setup, r: TransactionRecord, owner: LeaseOwner, d: PrepareDeclaration, disk: Files)
    requires setup.codec == ProtoCodec() && Live(setup, r) && !Ruled(r) && Changes(r, owner, d)
    ensures !EndsWell(setup, LastWriteFails(), r, owner, d, disk)
  {
    hide FirewallOf, DeclarationValid, PolicyCalls, Seen, CanonicalDeclaration, Encodable, Has, ChangeCalls, Persist,
         InScope, ProtoCodec;
    var w, s, intent := LastWriteFails(), Sides(disk, KernelOf(r)), Intent(r, owner, d);
    SeenNothing(s);
    IntentEncodes(setup, r, owner, d);
    var saved := Save(setup, w, Begin(r), intent);
    FailsOnce(setup, Begin(r).(record := intent), intent);
    SeenPersist(setup, s, w, Begin(r).(record := intent), intent);
    var applied := AskAll(w, saved, PolicyCalls(r, d));
    AllAnswered(saved, PolicyCalls(r, d));
    PolicyRules(s, saved, r, d);
    FailsOnce(setup, applied, Updated(r, d));
    SeenPersist(setup, s, w, applied, Updated(r, d));
    var unsaved := Persist(setup, w, applied, Updated(r, d));
    var back := ChangeCalls(d, r.declaration, r.failedPrefixes);
    AllAnswered(unsaved, back);
    SeenChangeEach(s, w, unsaved, d, r.declaration, r.failedPrefixes);
    var restored := AskEach(w, unsaved, back);
    var install := InstallPolicyRule(r.declaration);
    SeenAsk(s, w, restored, install);
    var ruled := if Has(r.completedSteps, STEP_POLICY_RULE) then Ask(w, restored, install) else restored;
    FailsOnce(setup, ruled, r);
    SeenPersist(setup, s, w, ruled, r);
  }

  lemma FailsOnce(setup: Setup, p: Progress, r: TransactionRecord)
    requires setup.File(r).Ok? || p.stores == 1
    ensures var q := Persist(setup, LastWriteFails(), p, r);
            q.ok == (p.stores != 1) && q.stores == p.stores + 1 && q.record == p.record
  {
    hide Encoded;
  }

  lemma PolicyRules(s: Sides, p: Progress, r: TransactionRecord, d: PrepareDeclaration)
    requires Seen(s, p.effects).kernel == KernelOf(r)
    ensures var q := AskAll(LastWriteFails(), p, PolicyCalls(r, d));
            Seen(s, q.effects).kernel.rule == if r.phase.Active? then Some(RuleFor(d)) else KernelOf(r).rule
  {
    hide FirewallOf, ChangeCalls, Seen, Retained;
    var w := LastWriteFails();
    var calls, install := ChangeCalls(r.declaration, d, Retained(r.failedPrefixes, d)), InstallPolicyRule(d);
    SeenChangeAll(s, w, p, r.declaration, d, Retained(r.failedPrefixes, d));
    AllAnswered(p, calls);
    SeenAsk(s, w, AskAll(w, p, calls), install);
    AskMore(w, p, calls, install);
    assert calls + [] == calls;
  }

  /** Whatever fails, every update that ends, ends well, if and only if the session's policy rule is recorded
      as it is. */
  lemma UpdateIsAllOrNothing(setup: Setup, r: TransactionRecord, owner: LeaseOwner, d: PrepareDeclaration, disk: Files)
    requires setup.codec == ProtoCodec() && Live(setup, r) && Changes(r, owner, d)
    ensures (forall w :: EndsWell(setup, w, r, owner, d, disk)) <==> Ruled(r)
  {
    hide EndsWell, Live, Changes, Ruled, ProtoCodec;
    if Ruled(r) {
      forall w ensures EndsWell(setup, w, r, owner, d, disk) {
        UpdateEndsWell(setup, w, r, owner, d, disk);
      }
    } else {
      UnruledIsNotRestored(setup, r, owner, d, disk);
    }
  }

  lemma SeenNothing(s: Sides)
    ensures Seen(s, []) == s
  {
  }

  /** The kernel of the old session, changed, is the kernel of the new one. */
  lemma ChangedIsUpdated(r: TransactionRecord, d: PrepareDeclaration)
    requires InScope(r.declaration, r.failedPrefixes)
    ensures var k := Changed(KernelOf(r), r.declaration, d, Retained(r.failedPrefixes, d)); var u := KernelOf(Updated(r, d));
            k.routes == u.routes && k.firewall == u.firewall
  {
    hide FirewallOf, Retained;
    if r.declaration.routes == d.routes {
      SameRoutesScope(r.declaration, d, r.failedPrefixes);
      RetainedAll(r.failedPrefixes, d);
    }
  }

  /** A replay of the declaration a session has repairs its policy rule while it is active, and does nothing
      while it is suspended. */
  lemma ReplayRepairs(setup: Setup, w: World, r: TransactionRecord, owner: LeaseOwner)
    requires DeclarationValid(r.declaration) && Updatable(r, owner, r.declaration)
    ensures Updating(setup, w, Some(r), owner, r.declaration)
         == if r.phase.Active?
            then Outcome(Some(r), [Send(Asked(InstallPolicyRule(r.declaration), w.calls(0)))],
                         if w.calls(0) then Ok(()) else Err(Backend))
            else Outcome(Some(r), [], Ok(()))
  {
    hide DeclarationValid, SameTunnel;
    var installed: Trace := [Send(Asked(InstallPolicyRule(r.declaration), w.calls(0)))];
    assert [] + installed == installed;
  }

  /** What is refused before anything happens: an invalid declaration first, then another generation's owner, then a
      session that is not live, has a candidate, or would get another tunnel. */
  lemma UpdateRefused(setup: Setup, w: World, record: Option<TransactionRecord>, owner: LeaseOwner, d: PrepareDeclaration)
    ensures !DeclarationValid(d) ==> Updating(setup, w, record, owner, d) == Outcome(record, [], Err(Backend))
    ensures DeclarationValid(d) && record.None? ==> Updating(setup, w, record, owner, d) == Outcome(None, [], Err(InvalidTransition))
    ensures DeclarationValid(d) && record.Some? ==>
              var r := record.value;
              var same := r.owner.instanceId == owner.instanceId && r.owner.pid == owner.pid && r.owner.generation == owner.generation;
              var live := (r.phase.Active? || r.phase.Suspended?) && r.recoveryCandidate.None?;
              var tunnel := r.declaration.tableId == d.tableId && r.declaration.overlayRouterIpv4 == d.overlayRouterIpv4
                            && r.declaration.effectiveMtu == d.effectiveMtu && r.declaration.exclusions == d.exclusions;
              && (!same ==> Updating(setup, w, record, owner, d) == Outcome(record, [], Err(Conflict)))
              && (same && !(live && tunnel) ==> Updating(setup, w, record, owner, d) == Outcome(record, [], Err(InvalidTransition)))
              && (same && live && tunnel <==> Updatable(r, owner, d))
  {
    hide DeclarationValid, Concluding, PolicyCalls, Encoded;
  }

  /** An intent that is not written: nothing was touched, but the session stays open. */
  lemma UnwrittenIntent(setup: Setup, w: World, r: TransactionRecord, owner: LeaseOwner, d: PrepareDeclaration)
    requires Changes(r, owner, d) && w.stores(0).NotWritten?
    ensures Updating(setup, w, Some(r), owner, d) == Outcome(Some(Intent(r, owner, d)), [], Err(JournalFailed))
  {
    hide DeclarationValid, CanonicalDeclaration, Concluding, PolicyCalls, Encoded;
  }

  /** Of the prefixes that had failed, an update keeps those that are still routed to another site. */
  lemma {:induction false} RetainedExactly(failed: seq<Ipv4Prefix>, d: PrepareDeclaration, p: Ipv4Prefix)
    ensures p in Retained(failed, d) <==>
            p in failed && exists i :: 0 <= i < |d.routes| && d.routes[i].prefix == p
                                       && d.routes[i].kind in [Remote, RemoteEgress, RemoteEgressGateway]
  {
    if failed != [] {
      var init, last := failed[..|failed| - 1], failed[|failed| - 1];
      RetainedExactly(init, d, p);
      assert failed == init + [last];
    }
  }

  /** What the firewall is made from: the flags, the local prefixes, and whether anything leaves by egress. */
  lemma FirewallExactly(d: PrepareDeclaration)
    ensures FirewallOf(d).policy == d.firewall
    ensures forall p :: p in FirewallOf(d).local <==> exists i :: 0 <= i < |d.routes| && d.routes[i] == RouteDeclaration(p, Local)
    ensures FirewallOf(d).egress <==>
            exists i :: 0 <= i < |d.routes| && d.routes[i].kind in [RemoteEgress, RemoteEgressGateway]
  {
    hide StableSorted;
    var local := LocalPrefixes(d.routes);
    forall p ensures p in FirewallOf(d).local <==> exists i :: 0 <= i < |d.routes| && d.routes[i] == RouteDeclaration(p, Local) {
      assert p in multiset(StableSorted(local, PrefixRank)) <==> p in multiset(local);
      LocalExactly(d.routes, p);
    }
  }

  lemma {:induction false} LocalExactly(rs: seq<RouteDeclaration>, p: Ipv4Prefix)
    ensures p in LocalPrefixes(rs) <==> exists i :: 0 <= i < |rs| && rs[i] == RouteDeclaration(p, Local)
  {
    if rs != [] {
      var init, last := rs[..|rs| - 1], rs[|rs| - 1];
      LocalExactly(init, p);
      if i :| 0 <= i < |init| && init[i] == RouteDeclaration(p, Local) {
        assert rs[i] == init[i];
      }
      if i :| 0 <= i < |rs| && rs[i] == RouteDeclaration(p, Local) {
        assert i < |init| ==> init[i] == rs[i];
      }
      if last == RouteDeclaration(p, Local) {
        assert rs[|rs| - 1] == last;
      }
    }
  }

  // ---- recovery without a restart ----

  /** A call that leaves the tunnel alone. */
  predicate SparesTunnel(call: Call) {
    call.ReconcileRoutes? || call.ReplaceFirewall? || call.InstallPolicyRule?
  }

  predicate Spares(es: Trace) {
    forall i :: 0 <= i < |es| && es[i].Send? ==> SparesTunnel(es[i].message.call)
  }

  lemma {:induction false} AskAllSpares(w: World, p: Progress, calls: seq<Call>)
    requires Spares(p.effects) && forall i :: 0 <= i < |calls| ==> SparesTunnel(calls[i])
    ensures Spares(AskAll(w, p, calls).effects)
  {
    if calls != [] {
      AskAllSpares(w, p, calls[..|calls| - 1]);
    }
  }

  lemma ChangeCallsSpare(from: PrepareDeclaration, to: PrepareDeclaration, failed: seq<Ipv4Prefix>)
    ensures forall i :: 0 <= i < |ChangeCalls(from, to, failed)| ==> SparesTunnel(ChangeCalls(from, to, failed)[i])
  {
    hide FirewallOf;
  }

  /** An interrupted update is undone in place exactly when it was asked for under the lease the session
      already had and the session's link, routes and firewall were installed. */
  lemma InPlaceExactly(setup: Setup, r: TransactionRecord, owner: LeaseOwner, d: PrepareDeclaration)
    requires Live(setup, r) && Changes(r, owner, d)
    ensures InPlace(Intent(r, owner, d)) <==>
            owner.leaseDeadlineMonoMs == r.owner.leaseDeadlineMonoMs && Has(r.completedSteps, STEP_LINK)
            && Has(r.completedSteps, STEP_ROUTES) && Has(r.completedSteps, STEP_FIREWALL)
  {
    hide Has, DeclarationValid, Encodable, InScope, CanonicalDeclaration;
  }

  /** Then, in the netd that was interrupted, recovery brings the old session back in memory, journal and
      kernel without touching the tunnel, or fails and can be tried again. */
  lemma RecoveredInPlace(setup: Setup, w: World, v: World, r: TransactionRecord, owner: LeaseOwner, d: PrepareDeclaration,
                         disk: Files, ownerAlive: bool, now: u64)
    requires Live(setup, r) && Ruled(r) && Changes(r, owner, d) && InPlace(Intent(r, owner, d))
    requires Updating(setup, w, Some(r), owner, d).record == Some(Intent(r, owner, d))
    ensures var broken := Seen(Sides(disk, KernelOf(r)), Updating(setup, w, Some(r), owner, d).effects);
            var o := Recovering(setup, v, Some(Intent(r, owner, d)), ownerAlive, now);
            var after := Seen(broken, o.effects);
            && Spares(o.effects)
            && (o.result.Ok? ==> o.result == Ok(true) && o.record == Some(r) && Kept(setup, after.disk, r)
                                 && after.kernel == KernelOf(r))
            && (o.result.Err? ==> o.record == Some(Intent(r, owner, d)) && Between(after.kernel, r, d))
  {
    hide FirewallOf, DeclarationValid, Updating, ChangeCalls, Seen, Persist, Has, CanonicalDeclaration, Encodable, InScope,
         SparesTunnel, Changed;
    UpdateEndsWell(setup, w, r, owner, d, disk);
    var s := Seen(Sides(disk, KernelOf(r)), Updating(setup, w, Some(r), owner, d).effects);
    var i := Intent(r, owner, d);
    IntentIsOpen(setup, w, r, owner, d);
    var calls := ChangeCalls(d, r.declaration, r.failedPrefixes);
    var install := InstallPolicyRule(r.declaration);
    SeenNothing(s);
    SeenChangeAll(s, v, Begin(i), d, r.declaration, r.failedPrefixes);
    ChangedBack(s.kernel, r, d);
    var changed := AskAll(v, Begin(i), calls);
    SeenAsk(s, v, changed, install);
    AskMore(v, Begin(i), calls, install);
    assert calls + [] == calls;
    var all := calls + if Has(r.completedSteps, STEP_POLICY_RULE) then [install] else [];
    var asked := AskAll(v, Begin(i), all);
    SeenPersist(setup, s, v, asked, r);
    RestoredIsFormer(setup, r, owner, d);
    InPlaceSpares(setup, v, r, i, calls, install);
  }

  lemma InPlaceSpares(setup: Setup, v: World, r: TransactionRecord, i: TransactionRecord, calls: seq<Call>, install: Call)
    requires i.recoveryCandidate.Some? && calls == ChangeCalls(i.recoveryCandidate.value, r.declaration, r.failedPrefixes)
    requires install == InstallPolicyRule(r.declaration)
    ensures var all := calls + if Has(r.completedSteps, STEP_POLICY_RULE) then [install] else [];
            && Spares(AskAll(v, Begin(i), all).effects)
            && Spares(Persist(setup, v, AskAll(v, Begin(i), all), r).effects)
  {
    hide ChangeCalls, Has, Encoded;
    ChangeCallsSpare(i.recoveryCandidate.value, r.declaration, r.failedPrefixes);
    AskAllSpares(v, Begin(i), calls + if Has(r.completedSteps, STEP_POLICY_RULE) then [install] else []);
  }

  lemma IntentIsOpen(setup: Setup, w: World, r: TransactionRecord, owner: LeaseOwner, d: PrepareDeclaration)
    requires Live(setup, r) && Ruled(r) && Changes(r, owner, d)
    requires Updating(setup, w, Some(r), owner, d).record == Some(Intent(r, owner, d))
    ensures Updating(setup, w, Some(r), owner, d).result.Err?
  {
    hide FirewallOf, DeclarationValid, Concluding, Persist, Has, CanonicalDeclaration, Encodable, InScope, PolicyCalls;
    UpdateEndsWell(setup, w, r, owner, d, map[]);
  }

  lemma RestoredIsFormer(setup: Setup, r: TransactionRecord, owner: LeaseOwner, d: PrepareDeclaration)
    requires Live(setup, r) && Ruled(r)
    ensures Intent(r, owner, d).(recoveryCandidate := None, recoveryCandidateOwner := None,
                                 phase := if Has(r.completedSteps, STEP_POLICY_RULE) then Active else Suspended) == r
  {
    hide Has, CanonicalDeclaration, Encodable, InScope;
  }

  // ---- recovery after a restart ----

  /** A record read back from the journal is never recovered in place: a candidate owner equal to the
      session's is read as none. */
  lemma ReloadedIsNeverInPlace(setup: Setup, file: seq<byte>)
    requires setup.codec.Faithful() && Decoded(setup.codec, setup.sha, file).Ok?
    ensures !InPlace(Decoded(setup.codec, setup.sha, file).value)
  {
    hide Decoded, Has;
    JournalProofs.AcceptedIsEncodable(setup.codec, setup.sha, file);
  }

  function Reloaded(setup: Setup, disk: Files): Result<Option<TransactionRecord>, NetworkError> {
    Journal.Loaded(setup.codec, setup.sha, if JOURNAL_FILE in disk then Some(disk[JOURNAL_FILE]) else None, true)
  }

  /** Where the journal stands when netd is killed during an update. */
  predicate Stands(setup: Setup, disk: Files, r: TransactionRecord, owner: LeaseOwner, d: PrepareDeclaration) {
    Kept(setup, disk, r) || Kept(setup, disk, Intent(r, owner, d)) || Kept(setup, disk, Updated(r, d))
  }

  predicate WritesOne(setup: Setup, e: Effect<seq<byte>, Message>, r: TransactionRecord, owner: LeaseOwner, d: PrepareDeclaration) {
    e.Send? || (e.Replace? && Stands(setup, map[e.name := e.content], r, owner, d))
  }

  predicate Writes(setup: Setup, es: Trace, r: TransactionRecord, owner: LeaseOwner, d: PrepareDeclaration) {
    forall i :: 0 <= i < |es| ==> WritesOne(setup, es[i], r, owner, d)
  }

  lemma {:induction false} AskAllWrites(setup: Setup, w: World, p: Progress, calls: seq<Call>, r: TransactionRecord,
                                        owner: LeaseOwner, d: PrepareDeclaration)
    requires Writes(setup, p.effects, r, owner, d)
    ensures Writes(setup, AskAll(w, p, calls).effects, r, owner, d)
    ensures Writes(setup, AskEach(w, p, calls).effects, r, owner, d)
    ensures p.effects <= AskAll(w, p, calls).effects && p.effects <= AskEach(w, p, calls).effects
  {
    hide Stands;
    if calls != [] {
      AskAllWrites(setup, w, p, calls[..|calls| - 1], r, owner, d);
    }
  }

  lemma PersistWrites(setup: Setup, w: World, p: Progress, x: TransactionRecord, r: TransactionRecord,
                      owner: LeaseOwner, d: PrepareDeclaration)
    requires Writes(setup, p.effects, r, owner, d) && x in [r, Intent(r, owner, d), Updated(r, d)]
    ensures Writes(setup, Persist(setup, w, p, x).effects, r, owner, d)
    ensures p.effects <= Persist(setup, w, p, x).effects
  {
    hide Encoded, Intent, Updated;
    var q := Persist(setup, w, p, x);
    if q.effects == p.effects + [] {
      assert p.effects + [] == p.effects;
    } else {
      assert Kept(setup, map[JOURNAL_FILE := setup.File(x).value], x);
      assert WritesOne(setup, q.effects[|p.effects|], r, owner, d);
    }
  }

  lemma RestoringWrites(setup: Setup, w: World, p: Progress, r: TransactionRecord, owner: LeaseOwner, d: PrepareDeclaration,
                        error: Failure)
    requires Writes(setup, p.effects, r, owner, d)
    ensures Writes(setup, Restoring(setup, w, p, r, d, error).effects, r, owner, d)
    ensures p.effects <= Restoring(setup, w, p, r, d, error).effects
  {
    hide ChangeCalls, Persist, Has, Stands, Intent;
    var calls := ChangeCalls(d, r.declaration, r.failedPrefixes);
    AskAllWrites(setup, w, p, calls, r, owner, d);
    var restored := AskEach(w, p, calls);
    var ruled := if Has(r.completedSteps, STEP_POLICY_RULE) then Ask(w, restored, InstallPolicyRule(r.declaration)) else restored;
    PersistWrites(setup, w, ruled, r, r, owner, d);
  }

  lemma UpdatingWrites(setup: Setup, w: World, r: TransactionRecord, owner: LeaseOwner, d: PrepareDeclaration)
    requires Live(setup, r) && Changes(r, owner, d)
    ensures var es := Updating(setup, w, Some(r), owner, d).effects;
            && Writes(setup, es, r, owner, d)
            && (setup.File(Intent(r, owner, d)).Ok? && !w.stores(0).NotWritten? ==>
                  es != [] && es[0] == Replace(JOURNAL_FILE, setup.File(Intent(r, owner, d)).value))
  {
    hide DeclarationValid, Restoring, PolicyCalls, Stands, Intent, Encoded, CanonicalDeclaration, Has, InScope;
    var intent := Intent(r, owner, d);
    var saved := Save(setup, w, Begin(r), intent);
    PersistWrites(setup, w, Begin(r).(record := intent), intent, r, owner, d);
    AskAllWrites(setup, w, saved, PolicyCalls(r, d), r, owner, d);
    var applied := AskAll(w, saved, PolicyCalls(r, d));
    RestoringWrites(setup, w, applied, r, owner, d, Backend);
    PersistWrites(setup, w, applied, Updated(r, d), r, owner, d);
    RestoringWrites(setup, w, Persist(setup, w, applied, Updated(r, d)), r, owner, d, JournalFailed);
  }

  lemma {:induction false} StandsThroughout(setup: Setup, disk: Files, es: Trace, r: TransactionRecord, owner: LeaseOwner,
                                            d: PrepareDeclaration)
    requires Writes(setup, es, r, owner, d) && Stands(setup, disk, r, owner, d)
    ensures Stands(setup, ApplyAll(disk, es), r, owner, d)
  {
    hide Intent, Updated, Encoded;
    if es != [] {
      var init, last := es[..|es| - 1], es[|es| - 1];
      assert forall i :: 0 <= i < |init| ==> init[i] == es[i];
      StandsThroughout(setup, disk, init, r, owner, d);
    }
  }

  lemma KeptReloads(setup: Setup, disk: Files, r: TransactionRecord)
    requires setup.codec == ProtoCodec() && Kept(setup, disk, r)
    ensures JournalProofs.Representable(r) ==> Reloaded(setup, disk) == Ok(Some(JournalProofs.Normalized(r)))
    ensures r.recoveryCandidate.Some? && r.failedPrefixes != [] && r.drainDeadlineMonoMs == 0 ==> Reloaded(setup, disk) == Err(Journal)
  {
    hide Encoded, Decoded, JournalProofs.Representable, JournalProofs.Normalized, Decode, Encode;
    ProtoCodecIsFaithful();
    Journal.LoadAfterStore(setup.codec, setup.sha, r);
    if r.recoveryCandidate.Some? && r.failedPrefixes != [] && r.drainDeadlineMonoMs == 0 {
      JournalNetd.LostBelowTheSmallestFrame(setup.sha, r);
    }
  }

  /** What a restarted netd finds in each of the three files. */
  lemma EachReloads(setup: Setup, disk: Files, r: TransactionRecord, owner: LeaseOwner, d: PrepareDeclaration)
    requires setup.codec == ProtoCodec() && Live(setup, r) && Changes(r, owner, d)
    ensures Kept(setup, disk, r) ==> Reloaded(setup, disk) == Ok(Some(r))
    ensures Kept(setup, disk, Updated(r, d)) ==> Reloaded(setup, disk) == Ok(Some(Updated(r, d)))
    ensures Kept(setup, disk, Intent(r, owner, d)) ==>
              Reloaded(setup, disk) == if r.failedPrefixes == [] then Ok(Some(JournalProofs.Normalized(Intent(r, owner, d))))
                                       else Err(Journal)
  {
    hide Encoded, Reloaded, Kept, CanonicalDeclaration, DeclarationValid, Has, InScope, ProtoCodec;
    if Kept(setup, disk, r) {
      KeptReloads(setup, disk, r);
    }
    if Kept(setup, disk, Updated(r, d)) {
      KeptReloads(setup, disk, Updated(r, d));
    }
    if Kept(setup, disk, Intent(r, owner, d)) {
      KeptReloads(setup, disk, Intent(r, owner, d));
    }
  }

  function Killed(setup: Setup, w: World, disk: Files, r: TransactionRecord, owner: LeaseOwner, d: PrepareDeclaration, cut: nat)
    : Files
  {
    ApplyAll(disk, UpTo(Updating(setup, w, Some(r), owner, d).effects, cut))
  }

  lemma KilledStands(setup: Setup, w: World, disk: Files, r: TransactionRecord, owner: LeaseOwner, d: PrepareDeclaration,
                     cut: nat)
    requires Live(setup, r) && Changes(r, owner, d) && Kept(setup, disk, r)
    ensures Stands(setup, Killed(setup, w, disk, r, owner, d, cut), r, owner, d)
  {
    hide Live, Changes, Updating, Stands, Intent, Encoded;
    var es := Updating(setup, w, Some(r), owner, d).effects;
    UpdatingWrites(setup, w, r, owner, d);
    StandsNow(setup, disk, r, owner, d);
    var done := UpTo(es, cut);
    assert forall i :: 0 <= i < |done| ==> done[i] == es[i];
    StandsThroughout(setup, disk, done, r, owner, d);
  }

  lemma StandsNow(setup: Setup, disk: Files, r: TransactionRecord, owner: LeaseOwner, d: PrepareDeclaration)
    requires Kept(setup, disk, r)
    ensures Stands(setup, disk, r, owner, d)
  {
  }

  lemma KilledAfterIntent(setup: Setup, w: World, disk: Files, r: TransactionRecord, owner: LeaseOwner, d: PrepareDeclaration)
    requires setup.codec == ProtoCodec() && Live(setup, r) && Changes(r, owner, d) && !w.stores(0).NotWritten?
    ensures Kept(setup, Killed(setup, w, disk, r, owner, d, 1), Intent(r, owner, d))
  {
    hide Live, Changes, Updating, Encoded, Intent;
    var es := Updating(setup, w, Some(r), owner, d).effects;
    IntentEncodes(setup, r, owner, d);
    UpdatingWrites(setup, w, r, owner, d);
    assert UpTo(es, 1) == [es[0]];
    ApplyOne(disk, es[0]);
  }

  /** Killed at any point of an update, netd finds a journal it can load on its next start if and only if the
      session had no failed prefixes; it then finds the old session, the new one, or the intent. */
  lemma UpdateSurvivesExactly(setup: Setup, w: World, disk: Files, r: TransactionRecord, owner: LeaseOwner,
                              d: PrepareDeclaration)
    requires setup.codec == ProtoCodec() && Live(setup, r) && Changes(r, owner, d) && Kept(setup, disk, r)
    requires !w.stores(0).NotWritten?
    ensures (forall cut :: Reloaded(setup, Killed(setup, w, disk, r, owner, d, cut)).Ok?) <==> r.failedPrefixes == []
    ensures r.failedPrefixes == [] ==>
              forall cut :: Reloaded(setup, Killed(setup, w, disk, r, owner, d, cut)) in
                            [Ok(Some(r)), Ok(Some(Updated(r, d))), Ok(Some(JournalProofs.Normalized(Intent(r, owner, d))))]
  {
    hide Live, Changes, Killed, Reloaded, Kept, Intent, Updated, ProtoCodec;
    if r.failedPrefixes == [] {
      forall cut ensures Reloaded(setup, Killed(setup, w, disk, r, owner, d, cut)) in
                   [Ok(Some(r)), Ok(Some(Updated(r, d))), Ok(Some(JournalProofs.Normalized(Intent(r, owner, d))))]
      {
        KilledStands(setup, w, disk, r, owner, d, cut);
        EachReloads(setup, Killed(setup, w, disk, r, owner, d, cut), r, owner, d);
      }
    } else {
      KilledAfterIntent(setup, w, disk, r, owner, d);
      EachReloads(setup, Killed(setup, w, disk, r, owner, d, 1), r, owner, d);
      assert Reloaded(setup, Killed(setup, w, disk, r, owner, d, 1)).Err?;
    }
  }

  // ---- what the restarted netd does ----

  ghost predicate Works(w: World) {
    (forall k :: w.calls(k)) && (forall k :: w.stores(k).Written?) && w.removal.Written?
  }

  /** The steps of a session that is up; the policy rule only when it is active. */
  predicate Complete(r: TransactionRecord) {
    r.completedSteps == if r.phase.Active? then 63 else 31
  }

  lemma StepsOf(steps: u16)
    requires steps == 63 || steps == 31
    ensures Has(steps, STEP_LINK) && Has(steps, STEP_ROUTES) && Has(steps, STEP_FIREWALL) && Has(steps, STEP_SYSCTLS)
    ensures Has(steps, STEP_LINK_ACTIVE) && (Has(steps, STEP_POLICY_RULE) <==> steps == 63)
    ensures Without(63, STEP_POLICY_RULE) == 31 && Without(31, STEP_LINK_ACTIVE) == 15 && Without(15, STEP_SYSCTLS) == 7
    ensures Without(7, STEP_FIREWALL) == 3 && Without(3, STEP_ROUTES) == 1 && Without(1, STEP_LINK) == 0
  {
  }

  /** Steps and phase are no obstacle to writing a record. */
  lemma FileStays(setup: Setup, r: TransactionRecord, q: TransactionRecord)
    requires setup.File(r).Ok? && q.recoveryCandidate.None? && q.recoveryCandidateOwner.None?
    requires q == r.(phase := q.phase, completedSteps := q.completedSteps, recoveryCandidate := None,
                     recoveryCandidateOwner := None)
    ensures setup.File(q).Ok?
  {
    hide GoodPrefixes, GoodChanges;
    assert ActiveRequest(q) == ActiveRequest(r);
  }

  lemma CleanStepWorks(setup: Setup, w: World, c: Cleanup, call: Call, step: u16)
    requires Works(w) && step > 0
    requires setup.File(c.progress.record.(completedSteps := Without(c.progress.record.completedSteps, step))).Ok?
    ensures var next := CleanStep(setup, w, c, true, call, step);
            var q := c.progress.record.(completedSteps := Without(c.progress.record.completedSteps, step));
            && next.progress.record == q && next.failed == c.failed
            && next.progress.effects
               == c.progress.effects + [Send(Asked(call, true)), Replace(JOURNAL_FILE, setup.File(q).value)]
  {
    hide Encoded, Without;
  }

  lemma CandidateCleaned(setup: Setup, w: World, p: Progress)
    requires Works(w) && p.record.recoveryCandidate.Some?
    requires setup.File(p.record.(recoveryCandidate := None, recoveryCandidateOwner := None)).Ok?
    ensures CleanCandidate(setup, w, p).progress.record == p.record.(recoveryCandidate := None, recoveryCandidateOwner := None)
    ensures CleanCandidate(setup, w, p).failed.None?
  {
    hide Encoded;
    var candidate := p.record.recoveryCandidate.value;
    AskMore(w, p, [], RemoveFirewall(candidate));
    AskMore(w, p, [RemoveFirewall(candidate)], RemoveRoutes(candidate));
    assert [] + [RemoveFirewall(candidate)] == [RemoveFirewall(candidate)];
    assert [RemoveFirewall(candidate)] + [RemoveRoutes(candidate)] == [RemoveFirewall(candidate), RemoveRoutes(candidate)];
  }

  /** All six steps of a complete session are undone, the link last. */
  lemma StepsUndone(setup: Setup, w: World, c: Cleanup, r: TransactionRecord)
    requires Works(w) && c.failed.None? && c.progress.record == r.(recoveryCandidate := None, recoveryCandidateOwner := None)
    requires r.completedSteps in [63, 31] && setup.File(c.progress.record).Ok?
    ensures var done := CleanSteps(setup, w, c, r);
            && done.failed.None? && done.progress.record == c.progress.record.(completedSteps := 0)
            && |done.progress.effects| >= 2
            && done.progress.effects[|done.progress.effects| - 2] == Send(Asked(RemoveLink(r.declaration), true))
  {
    hide Has, Without, CleanStep, RoutesForCleanup;
    var x, d := c.progress.record, r.declaration;
    StepsOf(r.completedSteps);
    FilesOfSteps(setup, x);
    if r.completedSteps == 63 {
      CleanStepWorks(setup, w, c, RemovePolicyRule(d), STEP_POLICY_RULE);
    } else {
      NotNeeded(setup, w, c, RemovePolicyRule(d), STEP_POLICY_RULE);
      assert x.(completedSteps := 31) == x;
    }
    var c1 := CleanStep(setup, w, c, r.completedSteps == 63, RemovePolicyRule(d), STEP_POLICY_RULE);
    assert c1.progress.record == x.(completedSteps := 31) && c1.failed.None?;
    CleanStepWorks(setup, w, c1, DeactivateLink(d), STEP_LINK_ACTIVE);
    var c2 := CleanStep(setup, w, c1, true, DeactivateLink(d), STEP_LINK_ACTIVE);
    CleanStepWorks(setup, w, c2, RestoreSysctls(d, r.sysctls), STEP_SYSCTLS);
    var c3 := CleanStep(setup, w, c2, true, RestoreSysctls(d, r.sysctls), STEP_SYSCTLS);
    CleanStepWorks(setup, w, c3, RemoveFirewall(d), STEP_FIREWALL);
    var c4 := CleanStep(setup, w, c3, true, RemoveFirewall(d), STEP_FIREWALL);
    CleanStepWorks(setup, w, c4, RemoveRoutes(RoutesForCleanup(r)), STEP_ROUTES);
    var c5 := CleanStep(setup, w, c4, true, RemoveRoutes(RoutesForCleanup(r)), STEP_ROUTES);
    CleanStepWorks(setup, w, c5, RemoveLink(d), STEP_LINK);
  }

  lemma NotNeeded(setup: Setup, w: World, c: Cleanup, call: Call, step: u16)
    requires step > 0
    ensures CleanStep(setup, w, c, false, call, step) == c
  {
  }

  lemma FilesOfSteps(setup: Setup, x: TransactionRecord)
    requires setup.File(x).Ok? && x.recoveryCandidate.None? && x.recoveryCandidateOwner.None?
    ensures forall steps: u16 :: setup.File(x.(completedSteps := steps)).Ok?
  {
    hide Encoded;
    forall steps: u16 ensures setup.File(x.(completedSteps := steps)).Ok? {
      FileStays(setup, x, x.(completedSteps := steps));
    }
  }

  /** The restarted netd, with nothing failing, does not undo the update: it removes routes, firewall and the
      tunnel itself, and forgets the session. */
  lemma RestartTearsDown(setup: Setup, v: World, disk: Files, r: TransactionRecord, owner: LeaseOwner, d: PrepareDeclaration,
                         ownerAlive: bool, now: u64)
    requires setup.codec == ProtoCodec() && Live(setup, r) && Changes(r, owner, d) && Complete(r) && Works(v)
    requires Kept(setup, disk, Intent(r, owner, d)) && r.failedPrefixes == []
    ensures var found := Reloaded(setup, disk);
            && found.Ok? && found.value.Some?
            && var o := Recovering(setup, v, found.value, ownerAlive, now);
               && o.result == Ok(true) && o.record.None? && JOURNAL_FILE !in ApplyAll(disk, o.effects)
               && exists k :: 0 <= k < |o.effects| && o.effects[k] == Send(Asked(RemoveLink(r.declaration), true))
  {
    hide Reloaded, Encoded, CanonicalDeclaration, DeclarationValid, InScope, Has, CleanSteps, CleanCandidate, ProtoCodec,
         RecoveringPolicy, Decoded;
    EachReloads(setup, disk, r, owner, d);
    var i := JournalProofs.Normalized(Intent(r, owner, d));
    NormalizedIsNotInPlace(setup, r, owner, d);
    var cleared := i.(recoveryCandidate := None, recoveryCandidateOwner := None);
    FileStays(setup, r, cleared);
    NormalizedFile(setup, r, owner, d);
    var begun := Save(setup, v, Begin(i), i.(phase := RollingBack));
    assert i.(phase := RollingBack) == i;
    CandidateCleaned(setup, v, begun);
    var c := CleanCandidate(setup, v, begun);
    StepsUndone(setup, v, c, i);
    var done := CleanSteps(setup, v, c, i);
    var o := Recovering(setup, v, Some(i), ownerAlive, now);
    assert o == CleaningUp(setup, v, i);
    assert o.effects == done.progress.effects + [Remove(JOURNAL_FILE)];
    ApplyOneMore(disk, done.progress.effects, Remove(JOURNAL_FILE));
    assert o.effects[|done.progress.effects| - 2] == Send(Asked(RemoveLink(r.declaration), true));
  }

  lemma NormalizedIsNotInPlace(setup: Setup, r: TransactionRecord, owner: LeaseOwner, d: PrepareDeclaration)
    ensures !InPlace(JournalProofs.Normalized(Intent(r, owner, d)))
  {
    hide Has, SameTunnel;
  }

  lemma NormalizedFile(setup: Setup, r: TransactionRecord, owner: LeaseOwner, d: PrepareDeclaration)
    requires setup.File(Intent(r, owner, d)).Ok?
    ensures setup.File(JournalProofs.Normalized(Intent(r, owner, d))).Ok?
  {
    hide GoodPrefixes, GoodChanges;
    var i := Intent(r, owner, d);
    var n := JournalProofs.Normalized(i);
    assert ActiveRequest(n) == ActiveRequest(i) && CandidateRequest(n) == CandidateRequest(i);
  }

  // ---- failed prefixes of a session ----

  lemma {:induction false} DeduplicatedGood(ps: seq<Ipv4Prefix>)
    requires InOrder(ps, PrefixRank)
    ensures var kept := Deduplicated(ps);
            && (forall i :: 0 < i < |kept| ==> PrefixRank(kept[i - 1]) < PrefixRank(kept[i]))
            && (ps != [] ==> kept != [] && kept[|kept| - 1] == ps[|ps| - 1])
    ensures forall p :: p in Deduplicated(ps) <==> p in ps
  {
    hide PrefixRank;
    if |ps| > 1 {
      var init, last := ps[..|ps| - 1], ps[|ps| - 1];
      DeduplicatedGood(init);
      assert ps == init + [last];
      if last != ps[|ps| - 2] {
        assert PrefixRank(init[|init| - 1]) <= PrefixRank(last);
        if PrefixRank(init[|init| - 1]) == PrefixRank(last) {
          RankInjective(init[|init| - 1], last);
        }
      }
    }
  }

  /** The prefixes asked for, each once, in ascending order. */
  lemma DesiredLists(ps: seq<Ipv4Prefix>)
    ensures forall i :: 0 < i < |Desired(ps)| ==> PrefixRank(Desired(ps)[i - 1]) < PrefixRank(Desired(ps)[i])
    ensures forall p :: p in Desired(ps) <==> p in ps
  {
    hide PrefixRank, StableSorted;
    var sorted := StableSorted(ps, PrefixRank);
    StableSortedInOrder(ps, PrefixRank);
    DeduplicatedGood(sorted);
    forall p ensures p in sorted <==> p in ps {
      assert p in multiset(sorted) <==> p in multiset(ps);
    }
  }

  lemma RemoteIsCanonical(d: PrepareDeclaration, p: Ipv4Prefix)
    requires CanonicalDeclaration(d) && RemoteIn(d, p)
    ensures CanonicalPrefix(p)
  {
  }

  /** Recording failed prefixes leaves a live session with exactly the prefixes named. */
  lemma FailedIsLive(setup: Setup, w: World, r: TransactionRecord, owner: LeaseOwner, prefixes: seq<Ipv4Prefix>, disk: Files)
    requires Live(setup, r) && SettingFailed(setup, w, Some(r), owner, prefixes).result.Ok?
    ensures var o := SettingFailed(setup, w, Some(r), owner, prefixes);
            && o.record.Some? && Live(setup, o.record.value) && o.record.value == r.(failedPrefixes := Desired(prefixes))
            && Kept(setup, Seen(Sides(disk, KernelOf(r)), o.effects).disk, o.record.value)
            && Seen(Sides(disk, KernelOf(r)), o.effects).kernel == KernelOf(o.record.value)
    ensures forall p :: p in Desired(prefixes) <==> p in prefixes
  {
    hide FirewallOf, Seen, Desired, Encoded, CanonicalDeclaration, Has, RemoteIn, Persist;
    DesiredLists(prefixes);
    var desired := Desired(prefixes);
    var s := Sides(disk, KernelOf(r));
    var reconcile, install := ReconcileRoutes(r.declaration, desired), InstallPolicyRule(r.declaration);
    SeenNothing(s);
    AskMore(w, Begin(r), [], reconcile);
    AskMore(w, Begin(r), [] + [reconcile], install);
    assert [] + [reconcile] == [reconcile] && [] + [reconcile] + [install] == [reconcile] + [install];
    assert [reconcile] + [] == [reconcile];
    var none := AskAll(w, Begin(r), []);
    SeenAsk(s, w, none, reconcile);
    var one := AskAll(w, Begin(r), [reconcile]);
    SeenAsk(s, w, one, install);
    var asked := if r.phase.Active? then AskAll(w, Begin(r), [reconcile] + [install]) else one;
    var q := r.(failedPrefixes := desired);
    SeenPersist(setup, s, w, asked.(record := q), q);
    SavedIsWritten(setup, w, asked, q);
  }

  lemma SavedIsWritten(setup: Setup, w: World, p: Progress, q: TransactionRecord)
    ensures Save(setup, w, p, q).ok ==> setup.File(q).Ok?
  {
    hide Encoded;
  }

  // ---- a degraded session and its update ----

  const HOME := Ipv4Prefix([10, 0, 0, 0], 24)
  const AWAY := Ipv4Prefix([10, 0, 1, 0], 24)

  /** One local and one remote network, with or without MSS clamping. */
  function Site(clamped: bool): PrepareDeclaration {
    PrepareDeclaration(20_000, [100, 64, 0, 1], 1400, [RouteDeclaration(HOME, Local), RouteDeclaration(AWAY, Remote)],
                       [UnderlayExclusion(Ipv4Prefix([1, 1, 1, 1], 32), CloudApi)],
                       FirewallPolicy(true, clamped, true, true))
  }

  /** The record of such a session once it was prepared and committed. */
  function Established(): TransactionRecord {
    TransactionRecord(OWNER, Site(true), None, None, Active, 63, [], 0, [])
  }

  lemma SiteIsValid(clamped: bool)
    ensures DeclarationValid(Site(clamped)) && CanonicalDeclaration(Site(clamped)) && OwnerValid(OWNER)
  {
    hide RoutesClear, ExclusionsClear, FromBigEndian;
    SiteIsClear(clamped);
    assert OWNER.instanceId[0] != (seq(16, _ => 0 as byte))[0];
    SampleAddresses(0);
    FourBytes(10, 0, 1, 0);
  }

  lemma SiteIsClear(clamped: bool)
    ensures BoundedLengths(Site(clamped)) && RoutesClear(Site(clamped)) && ExclusionsClear(Site(clamped))
  {
    hide FromBigEndian;
    SampleAddresses(0);
    FourBytes(10, 0, 1, 0);
  }

  lemma EstablishedIsLive(setup: Setup)
    requires setup.codec == ProtoCodec()
    ensures Live(setup, Established()) && Ruled(Established()) && Changes(Established(), OWNER, Site(false)) && Complete(Established())
  {
    hide DeclarationValid, CanonicalDeclaration, OwnerValid, Encode, Decode;
    SiteIsValid(true);
    SiteIsValid(false);
    var r := Established();
    PreparationFits(OWNER, Site(true));
    FrameAtMost(ActiveRequest(r));
    FileNeeds(setup, r);
    StepsOf(63);
  }

  /** Nothing fails. */
  function Fine(): World {
    World((k: nat) => true, (k: nat) => Journal.Written, Journal.Written)
  }

  /** The remote network of that session fails, and the agent then switches MSS clamping off: killed right
      after its first write, netd refuses its journal from then on. */
  lemma DegradedUpdateIsLost(setup: Setup)
    requires setup.codec == ProtoCodec()
    ensures var degraded := SettingFailed(setup, Fine(), Some(Established()), OWNER, [AWAY]);
            && degraded.result == Ok(())
            && degraded.record == Some(Established().(failedPrefixes := [AWAY]))
            && var disk := ApplyAll(map[], degraded.effects);
               Reloaded(setup, Killed(setup, Fine(), disk, degraded.record.value, OWNER, Site(false), 1)) == Err(Journal)
  {
    hide Reloaded, Killed, Encoded, DeclarationValid, CanonicalDeclaration, ProtoCodec, Encode, Decode, Seen, SettingFailed;
    EstablishedIsLive(setup);
    var r := Established();
    AwayFails(setup);
    var degraded := SettingFailed(setup, Fine(), Some(r), OWNER, [AWAY]);
    FailedIsLive(setup, Fine(), r, OWNER, [AWAY], map[]);
    var q := degraded.record.value;
    KilledAfterIntent(setup, Fine(), ApplyAll(map[], degraded.effects), q, OWNER, Site(false));
    EachReloads(setup, Killed(setup, Fine(), ApplyAll(map[], degraded.effects), q, OWNER, Site(false), 1), q, OWNER, Site(false));
  }

  lemma OneDesired()
    ensures Desired([AWAY]) == [AWAY]
  {
    assert [AWAY][..0] == [];
    assert StableSorted([AWAY], PrefixRank) == [AWAY];
  }

  /** With nothing failing, failed prefixes within the declaration are recorded. */
  lemma FineRecords(setup: Setup, r: TransactionRecord, owner: LeaseOwner, prefixes: seq<Ipv4Prefix>)
    requires SameGeneration(r.owner, owner) && (r.phase.Active? || r.phase.Suspended?)
    requires InScope(r.declaration, Desired(prefixes)) && setup.File(r.(failedPrefixes := Desired(prefixes))).Ok?
    ensures SettingFailed(setup, Fine(), Some(r), owner, prefixes).result == Ok(())
  {
    hide Desired, RemoteIn, Encoded;
    FineCalls(Begin(r), WithdrawalCalls(r, Desired(prefixes)));
  }

  lemma {:induction false} FineCalls(p: Progress, calls: seq<Call>)
    ensures AskAll(Fine(), p, calls).ok && AskAll(Fine(), p, calls).stores == p.stores
  {
    if calls != [] {
      FineCalls(p, calls[..|calls| - 1]);
    }
  }

  lemma AwayFails(setup: Setup)
    requires setup.codec == ProtoCodec()
    ensures SettingFailed(setup, Fine(), Some(Established()), OWNER, [AWAY]).result == Ok(()) && Desired([AWAY]) == [AWAY]
  {
    hide DeclarationValid, CanonicalDeclaration, Encode, Decode, OwnerValid, SettingFailed, Desired, PrefixRank;
    SiteIsValid(true);
    EstablishedIsLive(setup);
    OneDesired();
    var r := Established();
    assert r.declaration.routes[1].prefix == AWAY;
    assert RemoteIn(r.declaration, AWAY);
    RemoteIsCanonical(r.declaration, AWAY);
    FileNeeds(setup, r);
    FileNeeds(setup, r.(failedPrefixes := [AWAY]));
    assert ActiveRequest(r.(failedPrefixes := [AWAY])) == ActiveRequest(r);
    FineRecords(setup, r, OWNER, [AWAY]);
  }
}
