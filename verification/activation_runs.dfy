/** Activation safety over every run of the Runtime and everything around it, at every crash point. */
module ActivationRuns {
  import opened Activation
  import opened Bytes
  import opened Host
  import opened Text
  import opened Wrappers

  /** What can happen: the Runtime's own operations, and any effect of the agent, Core or an operator.
      The proof file belongs to the Runtime. */
  datatype Action =
    | Publish(descriptor: Descriptor)
    | Settle(wanted: Option<string>, look: Look, again: Look, conflict: bool)
    | Withdraw(now: u64)
    | Elsewhere(effect: Effect<File, Message>)

  ghost predicate Allowed(a: Action) {
    a.Elsewhere? ==> !(a.effect.Replace? && a.effect.name == PROOF)
  }

  function Plan(disk: Files, a: Action): Trace {
    match a
    case Publish(d) => Publication(disk, d)
    case Settle(wanted, look, again, conflict) => Settlement(disk, wanted, look, again, conflict).effects
    case Withdraw(now) => if Withdrawal(disk, now).Ok? then Withdrawal(disk, now).value else []
    case Elsewhere(e) => [e]
  }

  datatype Step = Step(action: Action, cut: nat)

  function Run(boot: Files, steps: seq<Step>): Trace {
    if steps == [] then [] else
      var before := Run(boot, steps[..|steps| - 1]);
      var last := steps[|steps| - 1];
      before + UpTo(Plan(ApplyAll(boot, before), last.action), last.cut)
  }

  // ---- committed receipts ----

  ghost predicate CommittedReceipt(e: Effect<File, Message>, id: string, generation: u64) {
    e.Replace? && e.name == RECEIPT && e.content.ReceiptFile?
    && e.content.receipt.activationId == id && e.content.receipt.generation == generation
    && e.content.receipt.verdict.Committed?
  }

  /** The agent once wrote a committed receipt for this activation and generation. */
  ghost predicate WasCommitted(t: Trace, id: string, generation: u64) {
    exists i :: 0 <= i < |t| && CommittedReceipt(t[i], id, generation)
  }

  lemma CommittedStays(t: Trace, x: Trace, id: string, generation: u64)
    requires WasCommitted(t, id, generation)
    ensures WasCommitted(t + x, id, generation)
  {
    hide CommittedReceipt;
    var i :| 0 <= i < |t| && CommittedReceipt(t[i], id, generation);
    assert (t + x)[i] == t[i];
  }

  /** Proof and receipt on the disk vouch for a committed receipt in the past. */
  ghost predicate Vouched(t: Trace, disk: Files) {
    && (PROOF in disk ==> ProofVouched(t, disk[PROOF]))
    && (RECEIPT in disk ==> ReceiptVouched(t, disk[RECEIPT]))
  }

  ghost predicate ProofVouched(t: Trace, f: File) {
    f.ProofFile? ==> WasCommitted(t, f.proof.activationId, f.proof.projectionGeneration)
  }

  ghost predicate ReceiptVouched(t: Trace, f: File) {
    f.ReceiptFile? && f.receipt.verdict.Committed? ==> WasCommitted(t, f.receipt.activationId, f.receipt.generation)
  }

  /** A proof is only written for what a committed receipt announced. */
  ghost predicate Sound(t: Trace, e: Effect<File, Message>) {
    e.Replace? && e.name == PROOF ==> ProofVouched(t, e.content)
  }

  lemma OneEffectVouched(t: Trace, disk: Files, e: Effect<File, Message>)
    requires Vouched(t, disk) && Sound(t, e)
    ensures Vouched(t + [e], Apply(disk, e))
  {
    hide WasCommitted;
    forall id, g | WasCommitted(t, id, g) ensures WasCommitted(t + [e], id, g) {
      CommittedStays(t, [e], id, g);
    }
    if e.Replace? && e.name == RECEIPT && e.content.ReceiptFile? && e.content.receipt.verdict.Committed? {
      JustCommitted(t, e);
    }
    assert RECEIPT != PROOF;
  }

  lemma JustCommitted(t: Trace, e: Effect<File, Message>)
    requires e.Replace? && e.name == RECEIPT && e.content.ReceiptFile? && e.content.receipt.verdict.Committed?
    ensures WasCommitted(t + [e], e.content.receipt.activationId, e.content.receipt.generation)
  {
    var r := e.content.receipt;
    assert CommittedReceipt((t + [e])[|t|], r.activationId, r.generation);
  }

  lemma SoundStays(t: Trace, x: Trace, e: Effect<File, Message>)
    requires Sound(t, e)
    ensures Sound(t + x, e)
  {
    hide WasCommitted;
    if e.Replace? && e.name == PROOF && e.content.ProofFile? {
      CommittedStays(t, x, e.content.proof.activationId, e.content.proof.projectionGeneration);
    }
  }

  lemma {:induction false} EffectsVouched(t: Trace, disk: Files, es: Trace)
    requires Vouched(t, disk) && forall i :: 0 <= i < |es| ==> Sound(t, es[i])
    ensures Vouched(t + es, ApplyAll(disk, es))
  {
    hide Vouched, Sound;
    if es == [] {
      assert t + es == t;
    } else {
      var init, last := es[..|es| - 1], es[|es| - 1];
      EffectsVouched(t, disk, init);
      SoundStays(t, init, last);
      OneEffectVouched(t + init, ApplyAll(disk, init), last);
      InitAndLast(es);
      Assoc(t, init, [last]);
    }
  }

  lemma TargetIsApart(id: string)
    ensures TargetOf(id) !in [PROOF, RECEIPT, ACTIVE, CANDIDATE, MARKER]
  {
    var target := TargetOf(id);
    assert target[..12] == ACTIVATIONS && target[6] == 't' && target[10] == 's' && target[11] == '/';
    assert PROOF[6] == '-' && RECEIPT[10] == '-' && MARKER[0] == 'w' && CANDIDATE[0] == 'c';
  }

  lemma PlanSound(t: Trace, disk: Files, a: Action)
    requires Vouched(t, disk) && Allowed(a)
    ensures var es := Plan(disk, a); forall i :: 0 <= i < |es| ==> Sound(t, es[i])
  {
    hide WasCommitted, ReadReceipt, ReadActive, TargetOf;
    match a
    case Publish(d) => TargetIsApart(d.activationId);
    case Settle(wanted, look, again, conflict) => SettlementSound(t, disk, wanted, look, again, conflict);
    case Withdraw(_) =>
    case Elsewhere(_) =>
  }

  lemma FinishedFromReceipt(disk: Files, look: Look)
    ensures var r := ReadReceipt(disk, look).result;
            r.Ok? && r.value.Some? ==> RECEIPT in disk && disk[RECEIPT] == ReceiptFile(r.value.value.receipt)
  {
    hide ReceiptWellFormed, CandidateDescriptorValid, ReceiptResultValid;
  }

  lemma SettlementSound(t: Trace, disk: Files, wanted: Option<string>, look: Look, again: Look, conflict: bool)
    requires Vouched(t, disk)
    ensures var es := Settlement(disk, wanted, look, again, conflict).effects; forall i :: 0 <= i < |es| ==> Sound(t, es[i])
  {
    hide ProofVouched, ReceiptVouched, BeforeClosing, ReadReceipt, ReadActive, ReceiptRemoval;
    RemovalIsSilent(disk);
    var outcome := OutcomeOf(disk, look);
    if outcome.Ok? && outcome.value.Some? && outcome.value.value.receipt.verdict.Committed? {
      OutcomeVouched(t, disk, look);
    }
    if outcome.Ok? && outcome.value.Some? {
      var f, stale := outcome.value.value, ReadReceipt(disk, look).stale;
      BeforeClosingSound(t, disk, f, Reread(disk, stale, again), again.now, conflict);
    }
  }

  /** A committed outcome was announced by the agent, now or when the proof was written. */
  lemma OutcomeVouched(t: Trace, disk: Files, look: Look)
    requires Vouched(t, disk) && OutcomeOf(disk, look).Ok? && OutcomeOf(disk, look).value.Some?
    requires OutcomeOf(disk, look).value.value.receipt.verdict.Committed?
    ensures var r := OutcomeOf(disk, look).value.value.receipt; WasCommitted(t, r.activationId, r.generation)
  {
    hide WasCommitted, ReadReceipt, ReadActive;
    FinishedFromReceipt(disk, look);
    ProvenFiles(disk);
  }

  lemma BeforeClosingSound(t: Trace, disk: Files, f: Finished, reading: Result<Option<Finished>, Failure>, now: u64,
                           conflict: bool)
    requires f.receipt.verdict.Committed? ==> WasCommitted(t, f.receipt.activationId, f.receipt.generation)
    ensures match BeforeClosing(disk, f, reading, now, conflict)
            case Err(stopped) => forall i :: 0 <= i < |stopped.0| ==> Sound(t, stopped.0[i])
            case Ok(es) => forall i :: 0 <= i < |es| ==> Sound(t, es[i])
  {
    hide WasCommitted;
  }

  lemma {:induction false} RunVouched(boot: Files, steps: seq<Step>)
    requires PROOF !in boot && RECEIPT !in boot
    requires forall i :: 0 <= i < |steps| ==> Allowed(steps[i].action)
    ensures var t := Run(boot, steps); Vouched(t, ApplyAll(boot, t))
  {
    hide Sound, Plan, ProofVouched, ReceiptVouched;
    if steps != [] {
      var before, last := Run(boot, steps[..|steps| - 1]), steps[|steps| - 1];
      RunVouched(boot, steps[..|steps| - 1]);
      var disk := ApplyAll(boot, before);
      PlanSound(before, disk, last.action);
      var es := UpTo(Plan(disk, last.action), last.cut);
      assert forall i :: 0 <= i < |es| ==> es[i] == Plan(disk, last.action)[i];
      EffectsVouched(before, disk, es);
      ApplyInTurn(boot, before, es);
    }
  }

  /** Exactly when the local state is `running`, in terms of the files. */
  ghost predicate RunsAs(disk: Files, alive: bool, d: Descriptor) {
    var name := StatusName(d.activationId);
    && ReadActive(disk).Ok? && ReadActive(disk).value.Proven? && ReadActive(disk).value.descriptor == d
    && name in disk && disk[name].StatusFile? && disk[name].status.metadata == Some(true) && alive
    && PolicyGeneration(disk[name].status) == d.projectionGeneration && DataPlaneReady(disk[name].status)
  }

  lemma RunningExactly(disk: Files, alive: bool)
    ensures Snapshot(disk, alive) == Ok(Running) <==>
            ReadActive(disk).Ok? && ReadActive(disk).value.Proven?
            && RunsAs(disk, alive, ReadActive(disk).value.descriptor)
  {
    hide ReadActive, StatusName;
  }

  lemma ProvenFiles(disk: Files)
    ensures var a := ReadActive(disk);
            a.Ok? && a.value.Proven? ==>
              var d := a.value.descriptor; var target := TargetOf(d.activationId);
              && CanonicalHex(d.activationId, 32)
              && ACTIVE in disk && disk[ACTIVE] == Pointer(target)
              && target in disk && disk[target] == Directory(d)
              && PROOF in disk && disk[PROOF] == ProofFile(a.value.proof) && ProofMatches(a.value.proof, target, d)
  {
    hide CanonicalHex;
  }

  /** Activation safety: at every point of every run, `running` means that the active pointer, the
      descriptor, the proof and the live Core's policy generation name one activation, and that the
      agent once announced exactly this activation and generation as committed. */
  lemma {:induction false} RunningWasCommitted(boot: Files, steps: seq<Step>, alive: bool)
    requires PROOF !in boot && RECEIPT !in boot
    requires forall i :: 0 <= i < |steps| ==> Allowed(steps[i].action)
    requires Snapshot(ApplyAll(boot, Run(boot, steps)), alive) == Ok(Running)
    ensures var t := Run(boot, steps); var disk := ApplyAll(boot, t);
            && ReadActive(disk).Ok? && ReadActive(disk).value.Proven?
            && var d := ReadActive(disk).value.descriptor; var target := TargetOf(d.activationId);
            && disk[ACTIVE] == Pointer(target) && disk[target] == Directory(d)
            && disk[PROOF].ProofFile? && ProofMatches(disk[PROOF].proof, target, d)
            && RunsAs(disk, alive, d)
            && WasCommitted(t, d.activationId, d.projectionGeneration)
  {
    hide Snapshot, ReadActive, WasCommitted, Run, RunsAs;
    RunVouched(boot, steps);
    var disk := ApplyAll(boot, Run(boot, steps));
    RunningExactly(disk, alive);
    ProvenFiles(disk);
  }

  // ---- what leaves the active activation alone ----

  predicate TouchesActive(e: Effect<File, Message>) {
    (e.Replace? || e.Remove?) && e.name in [ACTIVE, PROOF]
  }

  /** Publishing a candidate, requesting a withdrawal and settling a rejected receipt never change the
      active pointer or its proof. */
  lemma ActiveIsLeftAlone(disk: Files, a: Action)
    requires a.Publish? || a.Withdraw?
             || (a.Settle? && OutcomeOf(disk, a.look).Ok? && OutcomeOf(disk, a.look).value.Some?
                 && OutcomeOf(disk, a.look).value.value.receipt.verdict.Rejected?)
    ensures var es := Plan(disk, a); forall i :: 0 <= i < |es| ==> !TouchesActive(es[i])
  {
    hide OutcomeOf, ReadReceipt, TargetOf;
    if a.Publish? {
      TargetIsApart(a.descriptor.activationId);
    }
  }

  // ---- promotion ----

  /** Between its two writes a promotion is `running` only if the old proof already stood for the same
      activation, as when a replacement agent is promoted again; and promoting once more, for whatever
      reason, leads exactly where the uninterrupted promotion leads. */
  lemma PromotionIsCrashSafe(disk: Files, f: Finished, now: u64, later: u64, alive: bool)
    requires Promotion(disk, f, now).Ok? && ReceiptWellFormed(f.receipt)
    ensures var halfway := ApplyAll(disk, Promotion(disk, f, now).value[..1]);
            && (Snapshot(halfway, alive) == Ok(Running) ==>
                  PROOF in disk && disk[PROOF].ProofFile? && disk[PROOF].proof.activationId == f.receipt.activationId)
            && Promotion(halfway, f, later).Ok?
            && ApplyAll(halfway, Promotion(halfway, f, later).value)
               == disk[ACTIVE := Pointer(f.receipt.candidateTarget)][PROOF := ProofFile(ProofFor(f, later))]
               == ApplyAll(disk, Promotion(disk, f, later).value)
  {
    hide CanonicalHex, ValidDescriptor;
    var es := Promotion(disk, f, now).value;
    var target := f.receipt.candidateTarget;
    assert es[..1] == [es[0]];
    ApplyOne(disk, es[0]);
    var halfway := ApplyAll(disk, es[..1]);
    TargetIsApart(f.receipt.activationId);
    TargetNamesId(f.receipt.activationId);
    assert halfway[ACTIVE] == Pointer(target);
    if Snapshot(halfway, alive) == Ok(Running) {
      ProvenFiles(halfway);
    }
    BothWrites(disk, f, later);
    BothWrites(halfway, f, later);
  }

  lemma BothWrites(disk: Files, f: Finished, now: u64)
    requires Promotion(disk, f, now).Ok?
    ensures ApplyAll(disk, Promotion(disk, f, now).value)
         == disk[ACTIVE := Pointer(f.receipt.candidateTarget)][PROOF := ProofFile(ProofFor(f, now))]
  {
    var es := Promotion(disk, f, now).value;
    assert es == [es[0]] + [es[1]];
    ApplyInTurn(disk, [es[0]], [es[1]]);
    ApplyOne(disk, es[0]);
    ApplyOne(Apply(disk, es[0]), es[1]);
  }

  lemma TargetNamesId(id: string)
    ensures forall other :: TargetOf(other) == TargetOf(id) ==> other == id
  {
    forall other | TargetOf(other) == TargetOf(id) ensures other == id {
      assert TargetOf(other)[|ACTIVATIONS|..] == other;
      assert TargetOf(id)[|ACTIVATIONS|..] == id;
    }
  }

  // ---- reports ----

  /** The active pointer and a committed proof for it, of the delivery with this ETag. */
  predicate Backed(disk: Files, tag: string) {
    && ACTIVE in disk && disk[ACTIVE].Pointer? && PROOF in disk && disk[PROOF].ProofFile?
    && disk[PROOF].proof.candidateTarget == disk[ACTIVE].target && disk[PROOF].proof.deliveryEtag == tag
    && disk[PROOF].proof.committed
  }

  /** Every `active` report leaves a machine whose disk backs it. */
  ghost predicate ReportsBacked(disk: Files, es: Trace) {
    forall k :: 0 <= k < |es| && es[k].Send? && es[k].message.activated ==>
      Backed(ApplyAll(disk, es[..k]), es[k].message.etag)
  }

  lemma {:induction false} NoReportsBacked(disk: Files, es: Trace)
    requires forall k :: 0 <= k < |es| ==> es[k].Send? ==> !es[k].message.activated
    ensures ReportsBacked(disk, es)
  {
  }

  lemma {:induction false} BackedInTurn(disk: Files, a: Trace, b: Trace)
    ensures ReportsBacked(disk, a + b) <==> ReportsBacked(disk, a) && ReportsBacked(ApplyAll(disk, a), b)
  {
    hide Backed;
    var es := a + b;
    forall k | 0 <= k < |es|
      ensures k < |a| ==> es[..k] == a[..k] && es[k] == a[k]
      ensures k >= |a| ==> ApplyAll(disk, es[..k]) == ApplyAll(ApplyAll(disk, a), b[..k - |a|]) && es[k] == b[k - |a|]
    {
      if k >= |a| {
        assert es[..k] == a + b[..k - |a|];
        ApplyInTurn(disk, a, b[..k - |a|]);
      }
    }
    if ReportsBacked(disk, es) {
      assert forall k :: 0 <= k < |a| ==> es[k] == a[k];
      assert forall k :: 0 <= k < |b| ==> es[|a| + k] == b[k];
    }
  }

  lemma OneReportBacked(disk: Files, tag: string)
    requires Backed(disk, tag)
    ensures ReportsBacked(disk, [Send(Report(tag, true))])
  {
    hide Backed;
    var es: Trace := [Send(Report(tag, true))];
    assert es[..0] == [];
    assert ApplyAll<File, Message>(disk, []) == disk;
  }

  lemma PromotedIsBacked(disk: Files, f: Finished, now: u64)
    requires Promotion(disk, f, now).Ok?
    ensures Backed(ApplyAll(disk, Promotion(disk, f, now).value), f.descriptor.deliveryEtag)
  {
    hide Promotion;
    BothWrites(disk, f, now);
  }

  lemma ProvenIsBacked(disk: Files)
    requires ReadActive(disk).Ok? && ReadActive(disk).value.Proven?
    ensures Backed(disk, ReadActive(disk).value.descriptor.deliveryEtag)
    ensures Backed(disk - {RECEIPT}, ReadActive(disk).value.descriptor.deliveryEtag)
  {
    hide ValidDescriptor, CanonicalHex;
  }

  lemma BeforeClosingBacked(disk: Files, f: Finished, reading: Result<Option<Finished>, Failure>, now: u64, conflict: bool)
    requires f.receipt.verdict.Committed? && reading == Ok(None) ==> Backed(disk, f.descriptor.deliveryEtag)
    ensures match BeforeClosing(disk, f, reading, now, conflict)
            case Err(stopped) => ReportsBacked(disk, stopped.0)
            case Ok(es) => ReportsBacked(disk, es)
  {
    hide Backed, ApplyAll, CandidateRemoval, ReportsBacked;
    var tag := f.descriptor.deliveryEtag;
    NoReportsBacked(disk, []);
    if f.receipt.verdict.Committed? {
      if reading == Ok(None) {
        OneReportBacked(disk, tag);
      } else if reading.Ok? {
        var promotion := Promotion(disk, f, now);
        if promotion.Ok? {
          PromotedIsBacked(disk, f, now);
          OneReportBacked(ApplyAll(disk, promotion.value), tag);
          NoReportsBacked(disk, promotion.value);
          BackedInTurn(disk, promotion.value, [Send(Report(tag, true))]);
        }
      }
    } else {
      CandidateRemovalIsSilent(disk, f);
      NoReportsBacked(disk, [Send(Report(tag, false))]);
      if CandidateRemoval(disk, f).Ok? {
        NoReportsBacked(disk, [Send(Report(tag, false))] + CandidateRemoval(disk, f).value);
      }
    }
  }

  lemma CandidateRemovalIsSilent(disk: Files, f: Finished)
    ensures CandidateRemoval(disk, f).Ok? ==>
              forall k :: 0 <= k < |CandidateRemoval(disk, f).value| ==> CandidateRemoval(disk, f).value[k].Remove?
  {
  }

  lemma RemovalIsSilent(disk: Files)
    ensures ReceiptRemoval(disk).Ok? ==>
              forall k :: 0 <= k < |ReceiptRemoval(disk).value| ==> ReceiptRemoval(disk).value[k].Remove?
  {
  }

  /** A committed receipt counts at the first reading and not at the second: its agent is gone, Core
      proves the commit no longer, or its grants ran out in between. */
  predicate LosesReceipt(disk: Files, wanted: Option<string>, look: Look, again: Look) {
    var first := ReadReceipt(disk, look).result;
    && wanted.Some? && first.Ok? && first.value.Some? && first.value.value.receipt.verdict.Committed?
    && first.value.value.descriptor.deliveryEtag == wanted.value
    && Reread(disk, false, again) == Ok(None)
  }

  /** Settling either keeps its receipt or finds the activation promoted already. */
  predicate Kept(disk: Files, a: Action) {
    a.Settle? && LosesReceipt(disk, a.wanted, a.look, a.again) ==> Backed(disk, a.wanted.value)
  }

  lemma SettlementBacked(disk: Files, a: Action)
    requires a.Settle? && Kept(disk, a)
    ensures ReportsBacked(disk, Plan(disk, a))
  {
    hide Backed, ApplyAll, CandidateRemoval, ReportsBacked, ReceiptRemoval, BeforeClosing, ReadReceipt, ReadActive, Closing;
    var wanted, look, again := a.wanted, a.look, a.again;
    NoReportsBacked(disk, []);
    NoReportsBacked(disk, [Remove(RECEIPT)]);
    var read, outcome := ReadReceipt(disk, look), OutcomeOf(disk, look);
    if wanted.Some? && outcome.Ok? && outcome.value.Some? && outcome.value.value.descriptor.deliveryEtag == wanted.value {
      var f := outcome.value.value;
      var dropped: Trace := if read.stale then [Remove(RECEIPT)] else [];
      var reading := Reread(disk, read.stale, again);
      StaleIsNone(disk, look);
      NeverStaleTwice(disk, look, again);
      if read.result.value.None? {
        ProvenIsBacked(disk);
      }
      DroppedDisk(disk, dropped, read.stale);
      BeforeClosingDropped(disk, f, reading, again.now, a.conflict, read.stale);
      var b := BeforeClosing(disk, f, reading, again.now, a.conflict);
      var es := if b.Ok? then b.value else b.error.0;
      BackedInTurn(disk, dropped, es);
      if b.Ok? {
        ClosingBacked(disk, read.stale, dropped + es);
      }
    }
  }

  /** Without its receipt the report goes out first, and unbacked. */
  lemma LostIsReported(disk: Files, a: Action)
    requires a.Settle? && !Kept(disk, a)
    ensures var es := Plan(disk, a);
            && es != [] && es[0] == Send(Report(a.wanted.value, true))
            && !Backed(disk, a.wanted.value)
  {
    hide Backed, ReceiptWellFormed, CandidateDescriptorValid, ReceiptResultValid, ReadActive;
    NeverStaleTwice(disk, a.look, a.again);
    StaleIsNone(disk, a.look);
  }

  lemma FirstReportDecides(disk: Files, es: Trace)
    requires ReportsBacked(disk, es) && es != [] && es[0].Send? && es[0].message.activated
    ensures Backed(disk, es[0].message.etag)
  {
    hide Backed;
    assert es[..0] == [];
    assert ApplyAll<File, Message>(disk, []) == disk;
  }

  lemma DroppedDisk(disk: Files, dropped: Trace, stale: bool)
    requires dropped == if stale then [Remove(RECEIPT)] else []
    ensures ApplyAll(disk, dropped) == if stale then disk - {RECEIPT} else disk
  {
    if stale {
      ApplyOne(disk, dropped[0]);
    } else {
      assert ApplyAll<File, Message>(disk, []) == disk;
    }
  }

  /** A stale receipt is dropped first; the outcome then comes from the proof. */
  lemma BeforeClosingDropped(disk: Files, f: Finished, reading: Result<Option<Finished>, Failure>, now: u64, conflict: bool,
                             stale: bool)
    requires stale ==> reading == Ok(None) && f.receipt.verdict.Committed?
    requires stale ==> Backed(disk - {RECEIPT}, f.descriptor.deliveryEtag)
    requires !stale && f.receipt.verdict.Committed? && reading == Ok(None) ==> Backed(disk, f.descriptor.deliveryEtag)
    ensures var at := if stale then disk - {RECEIPT} else disk;
            match BeforeClosing(disk, f, reading, now, conflict)
            case Err(stopped) => ReportsBacked(at, stopped.0)
            case Ok(es) => ReportsBacked(at, es)
  {
    hide Backed, ApplyAll, ReportsBacked;
    if stale {
      OneReportBacked(disk - {RECEIPT}, f.descriptor.deliveryEtag);
    } else {
      BeforeClosingBacked(disk, f, reading, now, conflict);
    }
  }

  lemma ClosingBacked(disk: Files, stale: bool, es: Trace)
    requires ReportsBacked(disk, es)
    ensures ReportsBacked(disk, Closing(disk, stale, es).effects)
  {
    hide ReportsBacked, ApplyAll;
    if ReceiptRemoval(disk).Ok? {
      NoReportsBacked(ApplyAll(disk, es), ReceiptRemoval(disk).value);
      BackedInTurn(disk, es, ReceiptRemoval(disk).value);
    }
  }

  /** Reports come from the Runtime alone. */
  ghost predicate Reporting(a: Action) {
    a.Elsewhere? ==> !a.effect.Send?
  }

  /** A plan cut short leaves every report backed exactly when it keeps its receipt or never starts. */
  lemma PlanBackedExactly(disk: Files, a: Action, cut: nat)
    requires Reporting(a)
    ensures ReportsBacked(disk, UpTo(Plan(disk, a), cut)) <==> cut == 0 || Kept(disk, a)
  {
    hide Backed, ApplyAll, ReportsBacked, Settlement, LosesReceipt;
    var es := Plan(disk, a);
    if cut == 0 {
      NoReportsBacked(disk, UpTo(es, 0));
    } else if Kept(disk, a) {
      match a {
        case Publish(d) => NoReportsBacked(disk, Publication(disk, d));
        case Settle(_, _, _, _) => SettlementBacked(disk, a);
        case Withdraw(now) => NoReportsBacked(disk, es);
        case Elsewhere(e) => NoReportsBacked(disk, [e]);
      }
      BackedUpTo(disk, es, cut);
    } else {
      LostIsReported(disk, a);
      if ReportsBacked(disk, UpTo(es, cut)) {
        FirstReportDecides(disk, UpTo(es, cut));
      }
    }
  }

  /** At its own time every call keeps its receipt, or does nothing at all. */
  ghost predicate AllKept(boot: Files, steps: seq<Step>) {
    forall i :: 0 <= i < |steps| ==> StepKept(boot, steps, i)
  }

  predicate StepKept(boot: Files, steps: seq<Step>, i: nat)
    requires i < |steps|
  {
    steps[i].cut == 0 || Kept(ApplyAll(boot, Run(boot, steps[..i])), steps[i].action)
  }

  /** Over every run with crashes: each `active` report sent while settling leaves when the active pointer
      and a committed proof for it, of exactly the reported delivery, are on the disk, if and only if no
      settlement loses its receipt between its two readings. */
  lemma {:induction false} ActiveReportsAreBacked(boot: Files, steps: seq<Step>)
    requires forall i :: 0 <= i < |steps| ==> Reporting(steps[i].action)
    ensures ReportsBacked(boot, Run(boot, steps)) <==> AllKept(boot, steps)
  {
    hide Plan, ReportsBacked, ApplyAll, Kept;
    if steps == [] {
      NoReportsBacked(boot, []);
    } else {
      var n := |steps| - 1;
      var before, last := Run(boot, steps[..n]), steps[n];
      ActiveReportsAreBacked(boot, steps[..n]);
      var disk := ApplyAll(boot, before);
      PlanBackedExactly(disk, last.action, last.cut);
      BackedInTurn(boot, before, UpTo(Plan(disk, last.action), last.cut));
      forall i | 0 <= i < n ensures StepKept(boot, steps, i) <==> StepKept(boot, steps[..n], i) {
        assert steps[..n][..i] == steps[..i];
      }
      assert StepKept(boot, steps, n) <==> last.cut == 0 || Kept(disk, last.action);
    }
  }

  lemma BackedUpTo(disk: Files, es: Trace, cut: nat)
    requires ReportsBacked(disk, es)
    ensures ReportsBacked(disk, UpTo(es, cut))
  {
    hide Backed, ApplyAll;
    var done := UpTo(es, cut);
    forall k | 0 <= k < |done| && done[k].Send? && done[k].message.activated
      ensures Backed(ApplyAll(disk, done[..k]), done[k].message.etag)
    {
      assert done[..k] == es[..k] && done[k] == es[k];
    }
  }

  /** The agent commits a fresh candidate and is gone before the second reading. */
  function AgentLeaves(d: Descriptor, r: Receipt): seq<Step> {
    [Step(Publish(d), 2), Step(Elsewhere(Replace(RECEIPT, ReceiptFile(r))), 1),
     Step(Settle(Some(d.deliveryEtag), Look(Some(true), Some(true), 0), Look(Some(false), Some(true), 0), false), 1)]
  }

  /** Such a run reports the delivery active although no activation was ever promoted. */
  lemma ReportedWithoutPromotion(d: Descriptor, r: Receipt)
    requires CandidateDescriptorValid(d, d.activationId) && d.grantExpiresAt == 0
    requires ReceiptWellFormed(r) && r.verdict.Committed? && r.errorCode.None?
    requires r.activationId == d.activationId && r.generation == d.projectionGeneration
    ensures var t := Run(map[], AgentLeaves(d, r));
            && t != [] && t[|t| - 1] == Send(Report(d.deliveryEtag, true))
            && ACTIVE !in ApplyAll(map[], t) && PROOF !in ApplyAll(map[], t)
  {
    hide ReceiptWellFormed, CandidateDescriptorValid, TargetOf;
    hide Plan, Run, ApplyAll;
    var steps := AgentLeaves(d, r);
    var target := TargetOf(d.activationId);
    TargetIsApart(d.activationId);
    var ready: Files := map[target := Directory(d), CANDIDATE := Pointer(target), RECEIPT := ReceiptFile(r)];
    CandidateAndReceipt(d, r);
    OneMoreStep(map[], steps[..2], steps[2]);
    assert steps[..2] + [steps[2]] == steps;
    LastReport(d, r, ready);
    var report: Trace := [Send(Report(d.deliveryEtag, true))];
    var before := Run(map[], steps[..2]);
    ApplyOneMore(map[], before, report[0]);
  }

  lemma OneMoreStep(boot: Files, steps: seq<Step>, last: Step)
    ensures Run(boot, steps + [last])
         == Run(boot, steps) + UpTo(Plan(ApplyAll(boot, Run(boot, steps)), last.action), last.cut)
  {
    hide Plan, ApplyAll;
    assert (steps + [last])[..|steps|] == steps;
  }

  lemma CandidateAndReceipt(d: Descriptor, r: Receipt)
    ensures var target := TargetOf(d.activationId);
            var ready: Files := map[target := Directory(d), CANDIDATE := Pointer(target), RECEIPT := ReceiptFile(r)];
            ApplyAll(map[], Run(map[], AgentLeaves(d, r)[..2])) == ready
  {
    hide TargetOf, ApplyAll, Run;
    var target := TargetOf(d.activationId);
    TargetIsApart(d.activationId);
    var published: Trace := [Replace(target, Directory(d)), Replace(CANDIDATE, Pointer(target))];
    var committed: Trace := [Replace(RECEIPT, ReceiptFile(r))];
    var steps := AgentLeaves(d, r);
    EmptyRun();
    OneMoreStep(map[], [], steps[0]);
    assert Publication(map[], d) == published && UpTo(published, 2) == published;
    assert [] + [steps[0]] == [steps[0]] && [steps[0]] + [steps[1]] == steps[..2];
    assert [] + published == published && UpTo(committed, 1) == committed;
    OneMoreStep(map[], [steps[0]], steps[1]);
    ApplyOne(map[], published[0]);
    ApplyOneMore(map[], [published[0]], published[1]);
    assert [published[0]] + [published[1]] == published;
    ApplyOneMore(map[], published, committed[0]);
  }

  lemma EmptyRun()
    ensures Run(map[], []) == [] && ApplyAll<File, Message>(map[], []) == map[]
  {
  }

  lemma LastReport(d: Descriptor, r: Receipt, disk: Files)
    requires CandidateDescriptorValid(d, d.activationId) && d.grantExpiresAt == 0
    requires ReceiptWellFormed(r) && r.verdict.Committed? && r.errorCode.None?
    requires r.activationId == d.activationId && r.generation == d.projectionGeneration
    requires disk == map[TargetOf(d.activationId) := Directory(d), CANDIDATE := Pointer(TargetOf(d.activationId)),
                         RECEIPT := ReceiptFile(r)]
    ensures UpTo(Plan(disk, AgentLeaves(d, r)[2].action), 1) == [Send(Report(d.deliveryEtag, true))]
  {
    hide ReceiptWellFormed, CandidateDescriptorValid, TargetOf, Plan, Backed;
    TargetIsApart(d.activationId);
    CandidateNamed(r);
    var a := AgentLeaves(d, r)[2].action;
    assert LosesReceipt(disk, a.wanted, a.look, a.again);
    NotBacked(disk, d.deliveryEtag);
    LostIsReported(disk, a);
  }

  lemma NotBacked(disk: Files, tag: string)
    requires ACTIVE !in disk
    ensures !Backed(disk, tag)
  {
  }

  lemma CandidateNamed(r: Receipt)
    requires ReceiptWellFormed(r)
    ensures r.candidateTarget == TargetOf(r.activationId)
  {
  }

  // ---- withdrawal ----

  /** At every crash point of a withdrawal, a candidate that is gone is named by the marker, together
      with the pointer that was active. */
  lemma MarkerBeforeRemoval(disk: Files, now: u64, cut: nat)
    requires Withdrawal(disk, now).Ok? && CANDIDATE in disk
    ensures var after := ApplyAll(disk, UpTo(Withdrawal(disk, now).value, cut));
            && (CANDIDATE !in after ==>
                  MARKER in after && after[MARKER] == MarkerFile(
                    Marker(now, PointerTarget(disk, ACTIVE).value, PointerTarget(disk, CANDIDATE).value)))
            && (CANDIDATE in after ==> after[CANDIDATE] == disk[CANDIDATE])
  {
    var es := Withdrawal(disk, now).value;
    assert es[..0] == [] && es[..1] == [es[0]] && es == [es[0]] + [es[1]];
    ApplyOne(disk, es[0]);
    ApplyOneMore(disk, [es[0]], es[1]);
    assert MARKER != CANDIDATE;
  }

  /** Asking for the withdrawal again, after a crash or not, ends in the same place; once done, asking
      again does nothing. */
  lemma WithdrawalIsIdempotent(disk: Files, now: u64, cut: nat, later: u64, again: u64)
    requires Withdrawal(disk, now).Ok?
    ensures var after := ApplyAll(disk, UpTo(Withdrawal(disk, now).value, cut));
            && Withdrawal(after, later).Ok?
            && var done := ApplyAll(after, Withdrawal(after, later).value);
            && CANDIDATE !in done && Withdrawal(done, again) == Ok([])
            && PointerTarget(done, ACTIVE) == PointerTarget(disk, ACTIVE)
            && (PROOF in done <==> PROOF in disk) && (PROOF in disk ==> done[PROOF] == disk[PROOF])
  {
    var es := Withdrawal(disk, now).value;
    var after := ApplyAll(disk, UpTo(es, cut));
    WithdrawalEffects(disk, now, cut);
    WithdrawalEffects(after, later, |Withdrawal(after, later).value|);
  }

  lemma WithdrawalEffects(disk: Files, now: u64, cut: nat)
    requires Withdrawal(disk, now).Ok?
    ensures var es := Withdrawal(disk, now).value; var after := ApplyAll(disk, UpTo(es, cut));
            && Withdrawal(after, now).Ok?
            && PointerTarget(after, ACTIVE) == PointerTarget(disk, ACTIVE)
            && PointerTarget(after, CANDIDATE).Ok?
            && (PROOF in after <==> PROOF in disk) && (PROOF in disk ==> after[PROOF] == disk[PROOF])
            && (MARKER in after ==> after[MARKER].MarkerFile?)
            && (cut >= |es| ==> CANDIDATE !in after && (es != [] ==> MARKER in after) && (es == [] ==> after == disk))
  {
    hide ApplyAll;
    var es := Withdrawal(disk, now).value;
    assert MARKER !in [CANDIDATE, ACTIVE, PROOF] && CANDIDATE !in [ACTIVE, PROOF];
    NothingDone(disk);
    if cut == 0 || es == [] {
      assert UpTo(es, cut) == [];
    } else {
      ApplyOne(disk, es[0]);
      if cut == 1 || |es| == 1 {
        assert UpTo(es, cut) == [es[0]];
      } else {
        assert UpTo(es, cut) == [es[0]] + [es[1]];
        ApplyOneMore(disk, [es[0]], es[1]);
      }
    }
  }

  lemma NothingDone(disk: Files)
    ensures ApplyAll<File, Message>(disk, []) == disk
  {
  }
}
