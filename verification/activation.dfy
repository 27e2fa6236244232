/** Candidate, active pointer and proof: how an activation is published, promoted on the agent's
    committed receipt, dropped on a rejected one and withdrawn, and when the local Runtime may say it
    is running. */
module Activation {
  import opened Bytes
  import opened Host
  import opened Text
  import opened Wrappers

  const CANDIDATE := "candidate"
  const ACTIVE := "active"
  const PROOF := "active-activation-v1.json"
  const RECEIPT := "activation-ready-v1.json"
  const MARKER := "withdrawal-request-v1.json"

  datatype Verdict = Committed | Rejected

  datatype Receipt = Receipt(
    schemaVersion: nat, activationId: string, candidateTarget: string, generation: u64, agentPid: u32,
    verdict: Verdict, errorCode: Option<string>)

  datatype Proof = Proof(
    schemaVersion: nat, activationId: string, candidateTarget: string, projectionGeneration: u64,
    deliveryEtag: string, agentPid: u32, committed: bool, committedAt: u64)

  datatype Descriptor = Descriptor(
    schemaVersion: nat, activationId: string, deliveryEtag: string, deliverySha256: string,
    projectionContentHash: string, segmentGeneration: u64, projectionGeneration: u64, knownRole: bool,
    hasCoreConfig: bool, hasNetdDeclaration: bool, grantRefreshAfter: u64, grantExpiresAt: u64)

  datatype Marker = Marker(requestedAt: u64, activeTarget: Option<string>, candidateTarget: Option<string>)

  datatype Lifecycle = Starting | LifecycleActive | Stopping | Stopped | Failed | Degraded | OtherLifecycle

  datatype CoreStatus = CoreStatus(
    schemaVersion: nat, pid: u32, policyGeneration: u64, generation: u64, lifecycle: Lifecycle,
    failOpenRequired: bool, steeringSuspended: bool, lastErrorCode: Option<string>,
    requiredRouteOwners: u32, readyRouteOwners: u32, metadata: Option<bool>)

  /** Pointers are symbolic links; an activation directory is represented by its descriptor. */
  datatype File =
    | Pointer(target: string)
    | ProofFile(proof: Proof)
    | ReceiptFile(receipt: Receipt)
    | MarkerFile(marker: Marker)
    | Directory(descriptor: Descriptor)
    | StatusFile(status: CoreStatus)
    | Other

  /** A status report to the Cloud. */
  datatype Message = Report(etag: string, activated: bool)

  datatype Failure = Invalid | CandidateChanged

  type Files = Disk<File>
  type Trace = seq<Effect<File, Message>>

  // ---- names ----

  const ACTIVATIONS := "activations/"

  function TargetOf(id: string): string {
    ACTIVATIONS + id
  }

  /** The activation a pointer names, if it points into the activation directory. */
  function IdOf(target: string): (id: Option<string>)
    ensures id.Some? ==> TargetOf(id.value) == target
  {
    if |target| > |ACTIVATIONS| && target[..|ACTIVATIONS|] == ACTIVATIONS && CanonicalHex(target[|ACTIVATIONS|..], 32)
    then Some(target[|ACTIVATIONS|..]) else None
  }

  function StatusName(id: string): string {
    "run/sdwan-" + id + ".status.json"
  }

  // ---- reading ----

  predicate ValidDescriptor(d: Descriptor, id: string) {
    && CanonicalHex(d.deliverySha256, 32) && CanonicalHex(d.projectionContentHash, 32)
    && d.schemaVersion == 1 && d.activationId == id && d.deliveryEtag == "\"sha256-" + d.deliverySha256 + "\""
    && d.segmentGeneration > 0 && d.projectionGeneration > 0 && d.knownRole && d.hasCoreConfig && d.hasNetdDeclaration
    && d.grantRefreshAfter <= d.grantExpiresAt
  }

  predicate ProofMatches(p: Proof, target: string, d: Descriptor) {
    && p.schemaVersion == 1 && p.activationId == d.activationId && p.candidateTarget == target
    && p.projectionGeneration == d.projectionGeneration && p.deliveryEtag == d.deliveryEtag
    && p.agentPid != 0 && p.committed && p.committedAt != 0
  }

  datatype Active = NotActive | Unproven | Proven(descriptor: Descriptor, proof: Proof)

  /** The active activation with its proof. */
  function ReadActive(disk: Files): Result<Active, Failure> {
    if ACTIVE !in disk then Ok(NotActive)
    else if !disk[ACTIVE].Pointer? then Err(Invalid)
    else
      var target := disk[ACTIVE].target;
      if IdOf(target).None? || target !in disk || !disk[target].Directory?
         || !ValidDescriptor(disk[target].descriptor, IdOf(target).value)
      then Err(Invalid)
      else if PROOF !in disk then Ok(Unproven)
      else if !disk[PROOF].ProofFile? || !ProofMatches(disk[PROOF].proof, target, disk[target].descriptor)
      then Err(Invalid)
      else Ok(Proven(disk[target].descriptor, disk[PROOF].proof))
  }

  function PolicyGeneration(s: CoreStatus): u64 {
    if s.policyGeneration == 0 then s.generation else s.policyGeneration
  }

  predicate DataPlaneReady(s: CoreStatus) {
    s.lifecycle.LifecycleActive? && s.requiredRouteOwners > 0 && s.readyRouteOwners == s.requiredRouteOwners
    && !s.failOpenRequired && !s.steeringSuspended && s.lastErrorCode.None?
  }

  datatype LocalState = Running | Reconnecting | FailOpen

  /** What the local Runtime says about itself; `alive` says whether the Core process exists and
      belongs to the state's owner. */
  function Snapshot(disk: Files, alive: bool): Result<LocalState, Failure> {
    match ReadActive(disk)
    case Err(e) => Err(e)
    case Ok(NotActive) => Ok(Reconnecting)
    case Ok(Unproven) => Ok(FailOpen)
    case Ok(Proven(d, _)) =>
      var name := StatusName(d.activationId);
      if name !in disk then Ok(FailOpen)
      else if !disk[name].StatusFile? then Err(Invalid)
      else
        var s := disk[name].status;
        if PolicyGeneration(s) != d.projectionGeneration then Ok(FailOpen)
        else if s.metadata.None? then Err(Invalid)
        else if !s.metadata.value || !alive then Ok(FailOpen)
        else if s.failOpenRequired || s.lastErrorCode.Some? || s.lifecycle in [Failed, Stopping, Stopped, Degraded]
        then Ok(FailOpen)
        else if s.steeringSuspended then Ok(Reconnecting)
        else if s.lifecycle.LifecycleActive? then Ok(if DataPlaneReady(s) then Running else FailOpen)
        else if s.lifecycle.Starting? then Ok(Reconnecting)
        else Ok(FailOpen)
  }

  /** The world at the time a receipt is read: whether the agent lives and whether Core still proves the
      commit, each `None` when looking fails. */
  datatype Look = Look(agentAlive: Option<bool>, coreCurrent: Option<bool>, now: u64)

  predicate ReceiptWellFormed(r: Receipt) {
    && CanonicalHex(r.activationId, 32) && r.schemaVersion in [1, 2] && r.candidateTarget == TargetOf(r.activationId)
    && r.generation != 0 && r.agentPid != 0
  }

  predicate ReceiptResultValid(r: Receipt) {
    if r.verdict.Committed? then r.errorCode.None?
    else r.errorCode.Some? && 0 < |r.errorCode.value| <= 80 && IsAscii(r.errorCode.value)
  }

  predicate CandidateDescriptorValid(d: Descriptor, id: string) {
    && CanonicalHex(d.activationId, 32) && CanonicalHex(d.deliverySha256, 32)
    && d.schemaVersion == 1 && d.activationId == id && d.deliveryEtag == "\"sha256-" + d.deliverySha256 + "\""
    && d.segmentGeneration != 0 && d.projectionGeneration != 0 && d.grantRefreshAfter <= d.grantExpiresAt
  }

  datatype Finished = Finished(receipt: Receipt, descriptor: Descriptor)

  /** What reading the receipt gives, and whether it drops a receipt for another candidate. */
  datatype ReceiptRead = ReceiptRead(stale: bool, result: Result<Option<Finished>, Failure>)

  function ReadReceipt(disk: Files, look: Look): ReceiptRead {
    if RECEIPT !in disk then ReceiptRead(false, Ok(None))
    else if !disk[RECEIPT].ReceiptFile? || !ReceiptWellFormed(disk[RECEIPT].receipt) then ReceiptRead(false, Err(Invalid))
    else
      var r := disk[RECEIPT].receipt;
      if CANDIDATE in disk && !disk[CANDIDATE].Pointer? then ReceiptRead(false, Err(Invalid))
      else if CANDIDATE !in disk || disk[CANDIDATE].target != r.candidateTarget then ReceiptRead(true, Ok(None))
      else if r.verdict.Committed? && look.agentAlive.None? then ReceiptRead(false, Err(Invalid))
      else if r.verdict.Committed? && !look.agentAlive.value then ReceiptRead(false, Ok(None))
      else if r.candidateTarget !in disk || !disk[r.candidateTarget].Directory?
              || !CandidateDescriptorValid(disk[r.candidateTarget].descriptor, r.activationId)
              || disk[r.candidateTarget].descriptor.projectionGeneration != r.generation
              || !ReceiptResultValid(r)
      then ReceiptRead(false, Err(Invalid))
      else
        var d := disk[r.candidateTarget].descriptor;
        if r.verdict.Committed? && look.coreCurrent.None? then ReceiptRead(false, Err(Invalid))
        else if r.verdict.Committed? && (!look.coreCurrent.value || (d.grantExpiresAt != 0 && d.grantExpiresAt <= look.now))
        then ReceiptRead(false, Ok(None))
        else ReceiptRead(false, Ok(Some(Finished(r, d))))
  }

  // ---- writing ----

  function ProofFor(f: Finished, now: u64): Proof {
    Proof(1, f.receipt.activationId, f.receipt.candidateTarget, f.receipt.generation, f.descriptor.deliveryEtag,
          f.receipt.agentPid, true, now)
  }

  /** The pointer first, then the proof. */
  function Promotion(disk: Files, f: Finished, now: u64): Result<Trace, Failure> {
    var target := f.receipt.candidateTarget;
    if CANDIDATE !in disk || !disk[CANDIDATE].Pointer? then Err(Invalid)
    else if disk[CANDIDATE].target != target then Err(CandidateChanged)
    else if target !in disk || !disk[target].Directory? then Err(Invalid)
    else Ok([Replace(ACTIVE, Pointer(target)), Replace(PROOF, ProofFile(ProofFor(f, now)))])
  }

  function CandidateRemoval(disk: Files, f: Finished): Result<Trace, Failure> {
    if CANDIDATE !in disk then Ok([])
    else if !disk[CANDIDATE].Pointer? then Err(Invalid)
    else if disk[CANDIDATE].target == f.receipt.candidateTarget then Ok([Remove(CANDIDATE)])
    else Ok([])
  }

  function ReceiptRemoval(disk: Files): Result<Trace, Failure> {
    if RECEIPT !in disk then Ok([])
    else if !disk[RECEIPT].ReceiptFile? then Err(Invalid)
    else Ok([Remove(RECEIPT)])
  }

  /** A new candidate: the immutable directory unless it is there already, then the pointer. */
  function Publication(disk: Files, d: Descriptor): Trace {
    var target := TargetOf(d.activationId);
    (if target in disk then [] else [Replace(target, Directory(d))]) + [Replace(CANDIDATE, Pointer(target))]
  }

  function PointerTarget(disk: Files, name: string): Result<Option<string>, Failure> {
    if name !in disk then Ok(None) else if disk[name].Pointer? then Ok(Some(disk[name].target)) else Err(Invalid)
  }

  /** The marker first, then the candidate; the active pointer and its proof stay until the agent has
      cleaned up. */
  function Withdrawal(disk: Files, now: u64): Result<Trace, Failure> {
    var active, candidate := PointerTarget(disk, ACTIVE), PointerTarget(disk, CANDIDATE);
    if active.Err? || candidate.Err? || (MARKER in disk && !disk[MARKER].MarkerFile?)
       || (PROOF in disk && !disk[PROOF].ProofFile?)
    then Err(Invalid)
    else if active.value.None? && candidate.value.None? && PROOF !in disk then Ok([])
    else if MARKER in disk && candidate.value.None? then Ok([])
    else
      Ok([Replace(MARKER, MarkerFile(Marker(now, active.value, candidate.value)))]
         + if candidate.value.Some? then [Remove(CANDIDATE)] else [])
  }

  method Promote(machine: Machine<File, Message>, f: Finished, now: u64) returns (result: Result<(), Failure>)
    requires machine.Valid()
    modifies machine
    ensures machine.Valid()
    ensures var p := Promotion(old(machine.disk), f, now);
            && (result.Ok? <==> p.Ok?) && (p.Err? ==> result == Err(p.error))
            && machine.trace == old(machine.trace) + (if p.Ok? then p.value else [])
  {
    if CANDIDATE !in machine.disk || !machine.disk[CANDIDATE].Pointer? {
      return Err(Invalid);
    }
    var candidateTarget := machine.disk[CANDIDATE].target;
    if candidateTarget != f.receipt.candidateTarget {
      return Err(CandidateChanged);
    }
    var proof := ProofFor(f, now);
    if candidateTarget !in machine.disk || !machine.disk[candidateTarget].Directory? {
      return Err(Invalid);
    }
    machine.Write(ACTIVE, Pointer(candidateTarget));
    machine.Write(PROOF, ProofFile(proof));
    result := Ok(());
  }

  method RemoveCandidateIfMatches(machine: Machine<File, Message>, f: Finished) returns (result: Result<(), Failure>)
    requires machine.Valid()
    modifies machine
    ensures machine.Valid()
    ensures var p := CandidateRemoval(old(machine.disk), f);
            && result == (match p case Ok(_) => Ok(()) case Err(e) => Err(e))
            && machine.trace == old(machine.trace) + (if p.Ok? then p.value else [])
  {
    if CANDIDATE in machine.disk {
      if !machine.disk[CANDIDATE].Pointer? {
        return Err(Invalid);
      }
      if machine.disk[CANDIDATE].target == f.receipt.candidateTarget {
        machine.Delete(CANDIDATE);
      }
    }
    result := Ok(());
  }

  method RequestLocalActivationWithdrawal(machine: Machine<File, Message>, now: u64) returns (result: Result<(), Failure>)
    requires machine.Valid()
    modifies machine
    ensures machine.Valid()
    ensures var p := Withdrawal(old(machine.disk), now);
            && (result.Ok? <==> p.Ok?)
            && machine.trace == old(machine.trace) + (if p.Ok? then p.value else [])
  {
    hide ApplyAll;
    var active := PointerTarget(machine.disk, ACTIVE);
    var candidate := PointerTarget(machine.disk, CANDIDATE);
    if active.Err? || candidate.Err? {
      return Err(Invalid);
    }
    var markerExists := MARKER in machine.disk;
    if markerExists && !machine.disk[MARKER].MarkerFile? {
      return Err(Invalid);
    }
    var proofExists := PROOF in machine.disk;
    if proofExists && !machine.disk[PROOF].ProofFile? {
      return Err(Invalid);
    }
    if active.value.None? && candidate.value.None? && !proofExists {
      return Ok(());
    }
    if markerExists && candidate.value.None? {
      return Ok(());
    }
    machine.Write(MARKER, MarkerFile(Marker(now, active.value, candidate.value)));
    if candidate.value.Some? {
      machine.Delete(CANDIDATE);
    }
    result := Ok(());
  }

  method PublishCandidate(machine: Machine<File, Message>, d: Descriptor)
    requires machine.Valid()
    modifies machine
    ensures machine.Valid() && machine.trace == old(machine.trace) + Publication(old(machine.disk), d)
  {
    var target := TargetOf(d.activationId);
    if target !in machine.disk {
      machine.Write(target, Directory(d));
    }
    machine.Write(CANDIDATE, Pointer(target));
  }

  // ---- settling a finished activation ----

  /** The outcome to settle: the receipt's, or else what the committed proof still says. */
  function OutcomeOf(disk: Files, look: Look): Result<Option<Finished>, Failure> {
    var read := ReadReceipt(disk, look);
    if read.result.Err? || read.result.value.Some? then read.result
    else
      match ReadActive(disk)
      case Err(e) => Err(e)
      case Ok(Proven(d, p)) =>
        Ok(Some(Finished(Receipt(1, p.activationId, p.candidateTarget, p.projectionGeneration, p.agentPid, Committed,
                                 None), d)))
      case Ok(_) => Ok(None)
  }

  datatype Settled = Settled(effects: Trace, result: Result<(), Failure>)

  /** Dropping the receipt at the end, after `es`. */
  function Closing(disk: Files, stale: bool, es: Trace): Settled {
    if stale then Settled(es, Ok(()))
    else match ReceiptRemoval(disk)
      case Err(e) => Settled(es, Err(e))
      case Ok(clear) => Settled(es + clear, Ok(()))
  }

  /** The receipt is read once more before a promotion; by then the world may look different. */
  function Reread(disk: Files, stale: bool, again: Look): Result<Option<Finished>, Failure> {
    ReadReceipt(if stale then disk - {RECEIPT} else disk, again).result
  }

  /** What settling does for a Runtime that waits for `wanted`; `look` and `again` are the world at the two
      readings of the receipt, `conflict` says that the Cloud refused the status. An error ends it, so
      only the effects before it happen. */
  function Settlement(disk: Files, wanted: Option<string>, look: Look, again: Look, conflict: bool): Settled {
    if wanted.None? then Settled([], Ok(())) else
      var read, outcome := ReadReceipt(disk, look), OutcomeOf(disk, look);
      var dropped := if read.stale then [Remove(RECEIPT)] else [];
      if outcome.Err? then Settled(dropped, Err(outcome.error))
      else if outcome.value.None? || outcome.value.value.descriptor.deliveryEtag != wanted.value then Settled(dropped, Ok(()))
      else
        var f := outcome.value.value;
        match BeforeClosing(disk, f, Reread(disk, read.stale, again), again.now, conflict)
        case Err(stopped) => Settled(dropped + stopped.0, Err(stopped.1))
        case Ok(es) => Closing(disk, read.stale, dropped + es)
  }

  method ReadActivationReadyReceipt(machine: Machine<File, Message>, look: Look)
    returns (result: Result<Option<Finished>, Failure>)
    requires machine.Valid()
    modifies machine
    ensures machine.Valid()
    ensures var read := ReadReceipt(old(machine.disk), look);
            && result == read.result
            && machine.trace == old(machine.trace) + (if read.stale then [Remove(RECEIPT)] else [])
            && machine.disk == (if read.stale then old(machine.disk) - {RECEIPT} else old(machine.disk))
  {
    hide ReceiptWellFormed, CandidateDescriptorValid, ReceiptResultValid, ApplyAll;
    if RECEIPT !in machine.disk {
      return Ok(None);
    }
    if !machine.disk[RECEIPT].ReceiptFile? || !ReceiptWellFormed(machine.disk[RECEIPT].receipt) {
      return Err(Invalid);
    }
    var receipt := machine.disk[RECEIPT].receipt;
    if CANDIDATE in machine.disk && !machine.disk[CANDIDATE].Pointer? {
      return Err(Invalid);
    }
    if CANDIDATE !in machine.disk || machine.disk[CANDIDATE].target != receipt.candidateTarget {
      machine.Delete(RECEIPT);
      return Ok(None);
    }
    if receipt.verdict.Committed? {
      if look.agentAlive.None? {
        return Err(Invalid);
      }
      if !look.agentAlive.value {
        return Ok(None);
      }
    }
    var target := receipt.candidateTarget;
    if target !in machine.disk || !machine.disk[target].Directory?
       || !CandidateDescriptorValid(machine.disk[target].descriptor, receipt.activationId)
    {
      return Err(Invalid);
    }
    var descriptor := machine.disk[target].descriptor;
    if descriptor.projectionGeneration != receipt.generation || !ReceiptResultValid(receipt) {
      return Err(Invalid);
    }
    if receipt.verdict.Committed? {
      if look.coreCurrent.None? {
        return Err(Invalid);
      }
      if !look.coreCurrent.value {
        return Ok(None);
      }
    }
    if receipt.verdict.Committed? && descriptor.grantExpiresAt != 0 && descriptor.grantExpiresAt <= look.now {
      return Ok(None);
    }
    result := Ok(Some(Finished(receipt, descriptor)));
  }

  /** Dropping the receipt does not change what is active. */
  lemma ActiveIgnoresReceipt(disk: Files)
    ensures ReadActive(disk - {RECEIPT}) == ReadActive(disk)
  {
    hide ValidDescriptor, ProofMatches, CanonicalHex;
    assert forall id :: TargetOf(id) != RECEIPT by {
      forall id ensures TargetOf(id) != RECEIPT {
        assert TargetOf(id)[10] == 's' && RECEIPT[10] == '-';
      }
    }
  }

  method ClearReceipt(machine: Machine<File, Message>) returns (result: Result<(), Failure>)
    requires machine.Valid()
    modifies machine
    ensures machine.Valid()
    ensures var p := ReceiptRemoval(old(machine.disk));
            && result == (match p case Ok(_) => Ok(()) case Err(e) => Err(e))
            && machine.trace == old(machine.trace) + (if p.Ok? then p.value else [])
  {
    if RECEIPT in machine.disk {
      if !machine.disk[RECEIPT].ReceiptFile? {
        return Err(Invalid);
      }
      machine.Delete(RECEIPT);
    }
    result := Ok(());
  }

  method SettleActivation(machine: Machine<File, Message>, wanted: Option<string>, look: Look, again: Look, conflict: bool)
    returns (result: Result<(), Failure>)
    requires machine.Valid()
    modifies machine
    ensures machine.Valid()
    ensures var s := Settlement(old(machine.disk), wanted, look, again, conflict);
            result == s.result && machine.trace == old(machine.trace) + s.effects
  {
    hide ReadReceipt, ReadActive, Promotion, CandidateRemoval, ApplyAll, ReceiptRemoval;
    if wanted.None? {
      return Ok(());
    }
    ghost var disk := machine.disk;
    ActiveIgnoresReceipt(disk);
    StaleIsNone(disk, look);
    var outcome := ReadActivationReadyReceipt(machine, look);
    if outcome.Err? {
      return Err(outcome.error);
    }
    if outcome.value.None? {
      var active := ReadActive(machine.disk);
      if active.Err? {
        return Err(active.error);
      }
      if !active.value.Proven? {
        return Ok(());
      }
      var p := active.value.proof;
      outcome := Ok(Some(Finished(Receipt(1, p.activationId, p.candidateTarget, p.projectionGeneration, p.agentPid,
                                          Committed, None), active.value.descriptor)));
    }
    var f := outcome.value.value;
    if f.descriptor.deliveryEtag != wanted.value {
      return Ok(());
    }
    NeverStaleTwice(disk, look, again);
    result := SettleOutcome(machine, f, again, conflict, ReadReceipt(disk, look).stale, disk);
  }

  /** The effects before the receipt is dropped, if nothing failed; `reading` is the second one. */
  function BeforeClosing(disk: Files, f: Finished, reading: Result<Option<Finished>, Failure>, now: u64, conflict: bool)
    : Result<Trace, (Trace, Failure)>
  {
    var report := Send(Report(f.descriptor.deliveryEtag, f.receipt.verdict.Committed?));
    if f.receipt.verdict.Committed? then
      match reading
      case Err(e) => Err(([], e))
      case Ok(None) => Ok([report])
      case Ok(Some(_)) =>
        match Promotion(disk, f, now)
        case Err(e) => Err(([], e))
        case Ok(es) => Ok(es + [report])
    else if conflict then Ok([report])
    else
      match CandidateRemoval(disk, f)
      case Err(e) => Err(([report], e))
      case Ok(es) => Ok([report] + es)
  }

  /** Promoting or removing the candidate, the report, and the receipt. */
  method SettleOutcome(machine: Machine<File, Message>, f: Finished, again: Look, conflict: bool,
                       ghost stale: bool, ghost before: Files)
    returns (result: Result<(), Failure>)
    requires machine.Valid() && machine.disk == if stale then before - {RECEIPT} else before
    requires (stale ==> f.receipt.verdict.Committed?) && !ReadReceipt(machine.disk, again).stale
    requires stale ==> Reread(before, stale, again) == Ok(None)
    modifies machine
    ensures machine.Valid()
    ensures match BeforeClosing(before, f, Reread(before, stale, again), again.now, conflict)
            case Err(stopped) => result == Err(stopped.1) && machine.trace == old(machine.trace) + stopped.0
            case Ok(es) =>
              var s := Closing(before, stale, es);
              result == s.result && machine.trace == old(machine.trace) + s.effects
  {
    hide ApplyAll, ReadReceipt, Promotion;
    ghost var start, disk := machine.trace, machine.disk;
    if f.receipt.verdict.Committed? {
      var reading := ReadActivationReadyReceipt(machine, again);
      if reading.Err? {
        return Err(reading.error);
      }
      if reading.value.Some? {
        var promoted := Promote(machine, f, again.now);
        if promoted.Err? {
          return promoted;
        }
      }
      machine.Emit(Report(f.descriptor.deliveryEtag, true));
    } else {
      machine.Emit(Report(f.descriptor.deliveryEtag, false));
      if !conflict {
        var removed := RemoveCandidateIfMatches(machine, f);
        if removed.Err? {
          return removed;
        }
      }
    }
    ghost var es := BeforeClosing(before, f, Reread(before, stale, again), again.now, conflict).value;
    assert machine.trace == start + es;
    ReceiptUntouched(before, f, Reread(before, stale, again), again.now, conflict);
    Onward(machine.boot, start, es);
    LeavesReceipt(disk, es);
    result := ClearReceipt(machine);
    Assoc(start, es, if ReceiptRemoval(disk).Ok? then ReceiptRemoval(disk).value else []);
    assert start + es + [] == start + es;
  }

  /** The second reading drops nothing: after a stale receipt there is none, and another one stays valid
      or not for the same candidate. */
  lemma NeverStaleTwice(disk: Files, look: Look, again: Look)
    requires ReadReceipt(disk, look).result.Ok?
    ensures var stale := ReadReceipt(disk, look).stale;
            && !ReadReceipt(if stale then disk - {RECEIPT} else disk, again).stale
            && (stale ==> Reread(disk, stale, again) == Ok(None))
  {
    hide ReceiptWellFormed, CandidateDescriptorValid, ReceiptResultValid;
  }

  predicate TouchesNoReceipt(es: Trace) {
    forall i :: 0 <= i < |es| ==> es[i].Send? || es[i].name != RECEIPT
  }

  lemma ReceiptUntouched(disk: Files, f: Finished, reading: Result<Option<Finished>, Failure>, now: u64, conflict: bool)
    requires BeforeClosing(disk, f, reading, now, conflict).Ok?
    ensures TouchesNoReceipt(BeforeClosing(disk, f, reading, now, conflict).value)
  {
  }

  lemma Onward(boot: Files, before: Trace, es: Trace)
    ensures ApplyAll(boot, before + es) == ApplyAll(ApplyAll(boot, before), es)
  {
    ApplyInTurn(boot, before, es);
  }

  lemma {:induction false} LeavesReceipt(disk: Files, es: Trace)
    requires TouchesNoReceipt(es)
    ensures ReceiptRemoval(ApplyAll(disk, es)) == ReceiptRemoval(disk)
  {
    if es != [] {
      var init := es[..|es| - 1];
      assert forall i :: 0 <= i < |init| ==> init[i] == es[i];
      LeavesReceipt(disk, init);
    }
  }

  lemma StaleIsNone(disk: Files, look: Look)
    ensures ReadReceipt(disk, look).stale ==> ReadReceipt(disk, look).result == Ok(None)
  {
  }
}
