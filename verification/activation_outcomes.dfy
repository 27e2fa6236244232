/** How settling a finished activation ends when it is not cut short, and what the Runtime says about itself. */
module ActivationOutcomes {
  import opened Activation
  import ActivationRuns
  import opened Bytes
  import opened Host
  import opened Text
  import opened Wrappers

  function Messages(es: Trace): seq<Message> {
    if es == [] then [] else Messages(es[..|es| - 1]) + if es[|es| - 1].Send? then [es[|es| - 1].message] else []
  }

  lemma {:induction false} MessagesAdd(a: Trace, b: Trace)
    ensures Messages(a + b) == Messages(a) + Messages(b)
  {
    if b == [] {
      assert a + b == a;
    } else {
      assert (a + b)[..|a + b| - 1] == a + b[..|b| - 1];
      MessagesAdd(a, b[..|b| - 1]);
    }
  }

  lemma One(e: Effect<File, Message>)
    ensures Messages([e]) == if e.Send? then [e.message] else []
    ensures Messages([]) == []
  {
    assert [e][..0] == [];
  }

  /** What a settlement says, what it leaves, and its answer. */
  ghost predicate Does(s: Settled, disk: Files, messages: seq<Message>, after: Files, result: Result<(), Failure>) {
    Messages(s.effects) == messages && ApplyAll(disk, s.effects) == after && s.result == result
  }

  // ---- what is active ----

  /** The active pointer names the directory of this descriptor, and the descriptor is complete. */
  predicate Names(disk: Files, d: Descriptor) {
    && ACTIVE in disk && disk[ACTIVE] == Pointer("activations/" + d.activationId) && CanonicalHex(d.activationId, 32)
    && "activations/" + d.activationId in disk && disk["activations/" + d.activationId] == Directory(d)
    && CanonicalHex(d.deliverySha256, 32) && CanonicalHex(d.projectionContentHash, 32)
    && d.schemaVersion == 1 && d.deliveryEtag == "\"sha256-" + d.deliverySha256 + "\""
    && d.segmentGeneration != 0 && d.projectionGeneration != 0 && d.knownRole && d.hasCoreConfig && d.hasNetdDeclaration
    && d.grantRefreshAfter <= d.grantExpiresAt
  }

  /** The proof is a committed one for exactly this activation. */
  predicate Proves(p: Proof, d: Descriptor) {
    && p.schemaVersion == 1 && p.committed && p.agentPid != 0 && p.committedAt != 0
    && p.activationId == d.activationId && p.candidateTarget == "activations/" + d.activationId
    && p.projectionGeneration == d.projectionGeneration && p.deliveryEtag == d.deliveryEtag
  }

  /** Nothing is active without a pointer; an activation is proven by a proof of it, unproven without any proof
      file; and everything else is an error. */
  lemma ActiveExactly(disk: Files)
    ensures ReadActive(disk) == Ok(NotActive) <==> ACTIVE !in disk
    ensures ReadActive(disk) == Ok(Unproven) <==> PROOF !in disk && exists d :: Names(disk, d)
    ensures forall d, p :: ReadActive(disk) == Ok(Proven(d, p)) <==>
              Names(disk, d) && PROOF in disk && disk[PROOF] == ProofFile(p) && Proves(p, d)
  {
    hide CanonicalHex;
    if ACTIVE in disk && disk[ACTIVE].Pointer? {
      var target := disk[ACTIVE].target;
      if IdOf(target).Some? && target in disk && disk[target].Directory? {
        var d := disk[target].descriptor;
        assert ValidDescriptor(d, IdOf(target).value) ==> Names(disk, d);
      }
    }
    forall d | Names(disk, d) ensures IdOf("activations/" + d.activationId) == Some(d.activationId) {
      IdRead(d.activationId);
    }
  }

  lemma IdRead(id: string)
    requires CanonicalHex(id, 32)
    ensures IdOf("activations/" + id) == Some(id)
  {
    hide CanonicalHex;
    var target := "activations/" + id;
    assert |ACTIVATIONS| == 12 && target[..12] == ACTIVATIONS && target[12..] == id && |id| == 64;
  }

  // ---- which receipts count ----

  /** The receipt announces the outcome of the candidate that stands, and both are in order. */
  predicate Announces(disk: Files, r: Receipt, d: Descriptor) {
    && RECEIPT in disk && disk[RECEIPT] == ReceiptFile(r)
    && CanonicalHex(r.activationId, 32) && (r.schemaVersion == 1 || r.schemaVersion == 2)
    && r.candidateTarget == "activations/" + r.activationId && r.generation != 0 && r.agentPid != 0
    && CANDIDATE in disk && disk[CANDIDATE] == Pointer(r.candidateTarget)
    && r.candidateTarget in disk && disk[r.candidateTarget] == Directory(d)
    && d.activationId == r.activationId && d.projectionGeneration == r.generation
    && CanonicalHex(d.deliverySha256, 32) && d.schemaVersion == 1
    && d.deliveryEtag == "\"sha256-" + d.deliverySha256 + "\""
    && d.segmentGeneration != 0 && d.grantRefreshAfter <= d.grantExpiresAt
    && match r.verdict
       case Committed => r.errorCode.None?
       case Rejected => r.errorCode.Some? && 0 < |r.errorCode.value| <= 80 && IsAscii(r.errorCode.value)
  }

  /** A commit counts while its agent lives, Core still proves it and its grants last. */
  predicate Stands(d: Descriptor, look: Look) {
    && look.agentAlive == Some(true) && look.coreCurrent == Some(true)
    && (d.grantExpiresAt == 0 || look.now < d.grantExpiresAt)
  }

  lemma ReceiptCounts(disk: Files, look: Look, r: Receipt, d: Descriptor)
    ensures ReadReceipt(disk, look) == ReceiptRead(false, Ok(Some(Finished(r, d)))) <==>
            Announces(disk, r, d) && (r.verdict.Committed? ==> Stands(d, look))
  {
    hide CanonicalHex, IsAscii;
  }

  /** A commit that no longer counts is passed over; one that cannot be looked into is an error. */
  lemma CommitPassedOver(disk: Files, look: Look, r: Receipt, d: Descriptor)
    requires Announces(disk, r, d) && r.verdict.Committed?
    ensures look.agentAlive == Some(false) ==> ReadReceipt(disk, look) == ReceiptRead(false, Ok(None))
    ensures look.agentAlive == Some(true) && look.coreCurrent == Some(false) ==> ReadReceipt(disk, look) == ReceiptRead(false, Ok(None))
    ensures look.agentAlive == Some(true) && look.coreCurrent == Some(true) && !Stands(d, look) ==>
              ReadReceipt(disk, look) == ReceiptRead(false, Ok(None))
    ensures look.agentAlive.None? || (look.agentAlive.value && look.coreCurrent.None?) ==>
              ReadReceipt(disk, look) == ReceiptRead(false, Err(Invalid))
  {
    hide CanonicalHex, IsAscii;
  }

  /** Its fields are in order, whatever it announces. */
  predicate Readable(r: Receipt) {
    && (r.schemaVersion == 1 || r.schemaVersion == 2) && r.generation > 0 && r.agentPid > 0
    && r.candidateTarget == "activations/" + r.activationId
    && |r.activationId| == 64 && forall i :: 0 <= i < 64 ==> r.activationId[i] in "0123456789abcdef"
  }

  /** A readable receipt is stale, and dropped, exactly when the candidate is another one or gone; one that is not
      readable is an error. */
  lemma StaleExactly(disk: Files, look: Look)
    ensures ReadReceipt(disk, look).stale <==>
            && RECEIPT in disk && disk[RECEIPT].ReceiptFile? && Readable(disk[RECEIPT].receipt)
            && (CANDIDATE in disk ==> disk[CANDIDATE].Pointer? && disk[CANDIDATE].target != disk[RECEIPT].receipt.candidateTarget)
    ensures RECEIPT !in disk ==> ReadReceipt(disk, look) == ReceiptRead(false, Ok(None))
    ensures ReadReceipt(disk, look).result.Ok? && RECEIPT in disk ==>
              disk[RECEIPT].ReceiptFile? && Readable(disk[RECEIPT].receipt)
  {
    hide ReceiptWellFormed, CandidateDescriptorValid, ReceiptResultValid, Readable;
    if RECEIPT in disk && disk[RECEIPT].ReceiptFile? {
      ReadableIsWellFormed(disk[RECEIPT].receipt);
    }
  }

  lemma ReadableIsWellFormed(r: Receipt)
    ensures Readable(r) <==> ReceiptWellFormed(r)
  {
    assert forall c: char :: c in "0123456789abcdef" <==> '0' <= c <= '9' || 'a' <= c <= 'f';
  }

  // ---- how each outcome is settled ----

  /** A rejection is reported; unless the Cloud refuses the report the candidate goes; the receipt goes; and
      nothing else changes. */
  lemma RejectionSettled(disk: Files, r: Receipt, d: Descriptor, look: Look, again: Look, conflict: bool)
    requires Announces(disk, r, d) && r.verdict.Rejected?
    ensures Does(Settlement(disk, Some(d.deliveryEtag), look, again, conflict), disk, [Report(d.deliveryEtag, false)],
                 if conflict then disk - {RECEIPT} else disk - {CANDIDATE} - {RECEIPT}, Ok(()))
  {
    hide CanonicalHex, IsAscii, ReadReceipt, ReadActive, ApplyAll, Messages, Reread;
    ReceiptCounts(disk, look, r, d);
    var report: Effect<File, Message> := Send(Report(d.deliveryEtag, false));
    Applied(disk, [report], Remove(RECEIPT));
    Applied(disk, [report], Remove(CANDIDATE));
    Applied(disk, [report] + [Remove(CANDIDATE)], Remove(RECEIPT));
    ApplyOne(disk, report);
    One(report);
    assert [] + [report] == [report];
    assert [] + ([report] + [Remove(CANDIDATE)]) == [report] + [Remove(CANDIDATE)];
  }

  lemma Applied(disk: Files, es: Trace, e: Effect<File, Message>)
    ensures ApplyAll(disk, es + [e]) == Apply(ApplyAll(disk, es), e)
    ensures Messages(es + [e]) == Messages(es) + if e.Send? then [e.message] else []
  {
    ApplyOneMore(disk, es, e);
    MessagesAdd(es, [e]);
    One(e);
  }

  /** A commit that counts both times is promoted, reported active, and its receipt dropped. */
  lemma CommitSettled(disk: Files, r: Receipt, d: Descriptor, look: Look, again: Look, conflict: bool)
    requires Announces(disk, r, d) && r.verdict.Committed? && Stands(d, look) && Stands(d, again)
    ensures Does(Settlement(disk, Some(d.deliveryEtag), look, again, conflict), disk, [Report(d.deliveryEtag, true)],
                 disk[ACTIVE := Pointer(r.candidateTarget)]
                     [PROOF := ProofFile(Proof(1, r.activationId, r.candidateTarget, r.generation, d.deliveryEtag, r.agentPid,
                                               true, again.now))]
                 - {RECEIPT}, Ok(()))
  {
    hide CanonicalHex, IsAscii, ReadReceipt, ReadActive, ApplyAll, Messages;
    ReceiptCounts(disk, look, r, d);
    ReceiptCounts(disk, again, r, d);
    var pointer: Effect<File, Message> := Replace(ACTIVE, Pointer(r.candidateTarget));
    var proof: Effect<File, Message> := Replace(PROOF, ProofFile(ProofFor(Finished(r, d), again.now)));
    var report: Effect<File, Message> := Send(Report(d.deliveryEtag, true));
    Applied(disk, [], pointer);
    Applied(disk, [pointer], proof);
    Applied(disk, [pointer, proof], report);
    Applied(disk, [pointer, proof] + [report], Remove(RECEIPT));
    One(pointer);
    ApplyOne(disk, pointer);
    assert [pointer] + [proof] == [pointer, proof];
    assert [] + ([pointer, proof] + [report]) == [pointer, proof] + [report];
  }

  /** Without a receipt that counts, the committed proof speaks for the active activation: it is reported, and
      nothing changes but the receipt, which goes. */
  lemma ProofSettled(disk: Files, look: Look, again: Look, conflict: bool)
    requires ReadReceipt(disk, look).result == Ok(None) && Reread(disk, ReadReceipt(disk, look).stale, again) == Ok(None)
    requires ReadActive(disk).Ok? && ReadActive(disk).value.Proven?
    ensures var tag := ReadActive(disk).value.descriptor.deliveryEtag;
            Does(Settlement(disk, Some(tag), look, again, conflict), disk, [Report(tag, true)], disk - {RECEIPT}, Ok(()))
  {
    hide ReadReceipt, ReadActive, ApplyAll, Messages, Reread;
    StaleExactly(disk, look);
    var report: Effect<File, Message> := Send(Report(ReadActive(disk).value.descriptor.deliveryEtag, true));
    var drop: Effect<File, Message> := Remove(RECEIPT);
    Applied(disk, [], report);
    Applied(disk, [], drop);
    Applied(disk, [drop], report);
    Applied(disk, [report], drop);
    Nothing(disk);
    assert [] + [report] == [report] && [] + [drop] == [drop];
    assert [report] + [] == [report];
    assert RECEIPT !in disk ==> disk - {RECEIPT} == disk;
  }

  lemma Nothing(disk: Files)
    ensures ApplyAll<File, Message>(disk, []) == disk && Messages([]) == []
  {
  }

  /** When nothing is waited for, when nothing finished, or when something else did, nothing is said, and at
      most a stale receipt goes. */
  lemma NothingSettled(disk: Files, wanted: Option<string>, look: Look, again: Look, conflict: bool)
    requires wanted.None? || OutcomeOf(disk, look) == Ok(None)
             || (OutcomeOf(disk, look).Ok? && OutcomeOf(disk, look).value.value.descriptor.deliveryEtag != wanted.value)
    ensures Does(Settlement(disk, wanted, look, again, conflict), disk, [],
                 if wanted.Some? && ReadReceipt(disk, look).stale then disk - {RECEIPT} else disk, Ok(()))
  {
    hide ReadReceipt, ReadActive, ApplyAll, Messages, OutcomeOf, BeforeClosing;
    var drop: Effect<File, Message> := Remove(RECEIPT);
    Applied(disk, [], drop);
    Nothing(disk);
    assert [] + [drop] == [drop];
  }

  /** A second reading that fails ends the settlement before anything is promoted or said. */
  lemma RereadFails(disk: Files, r: Receipt, d: Descriptor, look: Look, again: Look, conflict: bool)
    requires Announces(disk, r, d) && r.verdict.Committed? && Stands(d, look) && Reread(disk, false, again).Err?
    ensures Does(Settlement(disk, Some(d.deliveryEtag), look, again, conflict), disk, [], disk, Err(Invalid))
  {
    hide CanonicalHex, IsAscii, ReadActive, ApplyAll, Messages, ReadReceipt;
    ReceiptCounts(disk, look, r, d);
    RereadInvalid(disk, again);
    Nothing(disk);
    var none: Trace := [];
    assert none + none == none;
    assert Settlement(disk, Some(d.deliveryEtag), look, again, conflict).effects == none;
  }

  lemma RereadInvalid(disk: Files, again: Look)
    ensures Reread(disk, false, again).Err? ==> Reread(disk, false, again) == Err(Invalid)
  {
    hide CanonicalHex, ReceiptWellFormed, CandidateDescriptorValid, ReceiptResultValid;
  }

  // ---- the single operations ----

  /** Exactly the candidate that stands, and only as a directory, is promoted. */
  lemma PromotesExactly(disk: Files, f: Finished, now: u64)
    ensures Promotion(disk, f, now).Ok? <==>
            && CANDIDATE in disk && disk[CANDIDATE] == Pointer(f.receipt.candidateTarget)
            && f.receipt.candidateTarget in disk && disk[f.receipt.candidateTarget].Directory?
  {
  }

  /** Another candidate, or none, is left alone. */
  lemma RemovesExactly(disk: Files, f: Finished)
    ensures CandidateRemoval(disk, f).Err? <==> CANDIDATE in disk && !disk[CANDIDATE].Pointer?
    ensures CandidateRemoval(disk, f) == Ok([Remove(CANDIDATE)]) <==> CANDIDATE in disk && disk[CANDIDATE] == Pointer(f.receipt.candidateTarget)
    ensures CandidateRemoval(disk, f).Ok? && CandidateRemoval(disk, f) != Ok([Remove(CANDIDATE)]) ==> CandidateRemoval(disk, f) == Ok([])
  {
  }

  /** What stands where a pointer is expected. */
  predicate NoPointer(disk: Files, name: string) {
    name in disk && !disk[name].Pointer?
  }

  function Pointed(disk: Files, name: string): Option<string> {
    if name in disk && disk[name].Pointer? then Some(disk[name].target) else None
  }

  /** A withdrawal fails when a file is not what its name says; has nothing to do without pointers and proof, or
      when a marker stands and no candidate is left; and otherwise names both pointers in the marker before the
      candidate goes. */
  lemma WithdrawsExactly(disk: Files, now: u64)
    ensures var broken := NoPointer(disk, ACTIVE) || NoPointer(disk, CANDIDATE)
                          || (MARKER in disk && !disk[MARKER].MarkerFile?) || (PROOF in disk && !disk[PROOF].ProofFile?);
            var idle := (ACTIVE !in disk && CANDIDATE !in disk && PROOF !in disk) || (MARKER in disk && CANDIDATE !in disk);
            var marked: Trace := [Replace(MARKER, MarkerFile(Marker(now, Pointed(disk, ACTIVE), Pointed(disk, CANDIDATE))))];
            Withdrawal(disk, now)
            == if broken then Err(Invalid)
               else if idle then Ok([])
               else Ok(if CANDIDATE in disk then marked + [Remove(CANDIDATE)] else marked + [])
  {
  }

  /** A candidate is published as a directory, unless it is there already, and then named by the pointer. */
  lemma PublishesExactly(disk: Files, d: Descriptor)
    ensures var target := "activations/" + d.activationId; var after := ApplyAll(disk, Publication(disk, d));
            && after == (if target in disk then disk else disk[target := Directory(d)])[CANDIDATE := Pointer(target)]
            && Messages(Publication(disk, d)) == []
  {
    hide ApplyAll, Messages;
    var target := TargetOf(d.activationId);
    var directory: Effect<File, Message> := Replace(target, Directory(d));
    var pointer: Effect<File, Message> := Replace(CANDIDATE, Pointer(target));
    Nothing(disk);
    Applied(disk, [], pointer);
    Applied(disk, [], directory);
    Applied(disk, [directory], pointer);
    assert [] + [directory] == [directory] && [] + [pointer] == [pointer];
  }

  // ---- the local state ----

  /** The status file of the active activation and what it reports. */
  predicate Reported(disk: Files, d: Descriptor, s: CoreStatus) {
    && ReadActive(disk).Ok? && ReadActive(disk).value.Proven? && ReadActive(disk).value.descriptor == d
    && StatusName(d.activationId) in disk && disk[StatusName(d.activationId)] == StatusFile(s)
  }

  /** Core serves this activation's policy, its process is alive and its own, and it asks for no fallback. */
  predicate Serving(d: Descriptor, s: CoreStatus, alive: bool) {
    && (if s.policyGeneration == 0 then s.generation else s.policyGeneration) == d.projectionGeneration
    && s.metadata == Some(true) && alive && !s.failOpenRequired && s.lastErrorCode.None?
    && (s.lifecycle.LifecycleActive? || s.lifecycle.Starting? || s.lifecycle.OtherLifecycle?)
  }

  /** Nothing active yet, or a serving Core that suspends steering or is still starting: reconnecting. */
  lemma ReconnectingExactly(disk: Files, alive: bool)
    ensures Snapshot(disk, alive) == Ok(Reconnecting) <==>
            || ReadActive(disk) == Ok(NotActive)
            || exists d, s :: Reported(disk, d, s) && Serving(d, s, alive) && (s.steeringSuspended || s.lifecycle.Starting?)
  {
    hide ReadActive, StatusName;
    if ReadActive(disk).Ok? && ReadActive(disk).value.Proven? {
      var d := ReadActive(disk).value.descriptor;
      if StatusName(d.activationId) in disk && disk[StatusName(d.activationId)].StatusFile? {
        assert Reported(disk, d, disk[StatusName(d.activationId)].status);
      }
    }
  }

  /** Running needs every required route owner ready; the files must be readable for any answer; and whatever
      is neither running nor reconnecting is open. */
  lemma FailOpenExactly(disk: Files, alive: bool)
    ensures Snapshot(disk, alive) == Ok(Running) <==>
            exists d, s :: Reported(disk, d, s) && Serving(d, s, alive) && !s.steeringSuspended && s.lifecycle.LifecycleActive?
                           && 0 < s.requiredRouteOwners == s.readyRouteOwners
    ensures Snapshot(disk, alive).Err? <==>
            || ReadActive(disk).Err?
            || (exists d :: Unreadable(disk, d))
            || exists d, s :: Reported(disk, d, s) && Unmarked(d, s)
  {
    hide ReadActive, StatusName;
    if ReadActive(disk).Ok? && ReadActive(disk).value.Proven? {
      var d := ReadActive(disk).value.descriptor;
      if StatusName(d.activationId) in disk {
        if disk[StatusName(d.activationId)].StatusFile? {
          assert Reported(disk, d, disk[StatusName(d.activationId)].status);
        } else {
          assert Unreadable(disk, d);
        }
      }
    }
  }

  predicate Unreadable(disk: Files, d: Descriptor) {
    && ReadActive(disk).Ok? && ReadActive(disk).value.Proven? && ReadActive(disk).value.descriptor == d
    && StatusName(d.activationId) in disk && !disk[StatusName(d.activationId)].StatusFile?
  }

  /** The policy is this activation's, but the status file's own metadata could not be checked. */
  predicate Unmarked(d: Descriptor, s: CoreStatus) {
    (if s.policyGeneration == 0 then s.generation else s.policyGeneration) == d.projectionGeneration && s.metadata.None?
  }
}
