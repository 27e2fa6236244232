/** Which identity a node is left with: the five files of an installation, at every crash point of the
    attempts that write them. */
module EnrollmentIdentity {
  import opened Bytes
  import opened Enrollment
  import opened EnrollmentRuns
  import opened Host
  import opened Wrappers

  const PARTS: nat := 5

  /** The files of an installation in the order in which they are written. */
  function Name(i: nat): string
    requires i < PARTS
  {
    if i == 0 then CERTIFICATE_DER else if i == 1 then CERTIFICATE_PEM else if i == 2 then CHAIN
    else if i == 3 then MTLS else IDENTITY
  }

  lemma NamesApart(i: nat, j: nat)
    requires i < PARTS && j < PARTS && i != j
    ensures Name(i) != Name(j)
  {
  }

  type Parts = p: seq<Content> | |p| == 5 witness [Garbage, Garbage, Garbage, Garbage, Garbage]

  /** What the files of completion `c` hold. */
  function PartsOf(lib: Libraries, s: EnrollmentState, secret: seq<byte>, c: Completed): Parts
    requires s.challenge.Some?
  {
    [Raw(c.der), PemText(lib.certificatePem(c.der)), PemText(c.chain), PemText(MtlsText(lib, c, secret)),
     IdentityDoc(IdentityFor(s, c))]
  }

  predicate Holds(disk: Files, parts: Parts) {
    forall i :: 0 <= i < PARTS ==> Name(i) in disk && disk[Name(i)] == parts[i]
  }

  /** At most one file of an installation differs from the other one's. */
  predicate AtMostOneDiffers(a: Parts, b: Parts) {
    forall i, j :: 0 <= i < j < PARTS ==> a[i] == b[i] || a[j] == b[j]
  }

  // ---- one file after the other ----

  function Over(disk: Files, parts: Parts, k: nat): Files
    requires k <= PARTS
  {
    if k == 0 then disk else Over(disk, parts, k - 1)[Name(k - 1) := parts[k - 1]]
  }

  lemma {:induction false} OverAt(disk: Files, parts: Parts, k: nat, i: nat)
    requires k <= PARTS && i < PARTS && Name(i) in disk
    ensures Name(i) in Over(disk, parts, k) && Over(disk, parts, k)[Name(i)] == if i < k then parts[i] else disk[Name(i)]
  {
    hide Name;
    if k > 0 {
      OverAt(disk, parts, k - 1, i);
      if i != k - 1 {
        NamesApart(i, k - 1);
      }
    }
  }

  lemma OverHolds(disk: Files, former: Parts, latter: Parts, k: nat)
    requires k <= PARTS && Holds(disk, former)
    ensures Holds(Over(disk, latter, k), former) <==> forall i :: 0 <= i < k ==> latter[i] == former[i]
    ensures Holds(Over(disk, latter, k), latter) <==> forall i :: k <= i < PARTS ==> latter[i] == former[i]
  {
    hide Name, Over;
    forall i | 0 <= i < PARTS
      ensures Name(i) in Over(disk, latter, k) && Over(disk, latter, k)[Name(i)] == if i < k then latter[i] else former[i]
    {
      OverAt(disk, latter, k, i);
    }
  }

  /** The disk holds one of two installations. */
  predicate Whole(disk: Files, former: Parts, latter: Parts) {
    Holds(disk, former) || Holds(disk, latter)
  }

  /** Writing the new files one by one never leaves a mix if and only if at most one of them changes. */
  lemma NeverMixedExactly(disk: Files, former: Parts, latter: Parts)
    requires Holds(disk, former)
    ensures (forall k :: 0 <= k <= PARTS ==> Whole(Over(disk, latter, k), former, latter))
            <==> AtMostOneDiffers(former, latter)
  {
    hide Holds, Over;
    forall k | 0 <= k <= PARTS
      ensures Whole(Over(disk, latter, k), former, latter)
              <==> (forall i :: 0 <= i < k ==> latter[i] == former[i])
                   || (forall i :: k <= i < PARTS ==> latter[i] == former[i])
    {
      OverHolds(disk, former, latter, k);
    }
    if i, j :| 0 <= i < j < PARTS && former[i] != latter[i] && former[j] != latter[j] {
      assert !Whole(Over(disk, latter, i + 1), former, latter);
    } else {
      forall k | 0 <= k <= PARTS ensures Whole(Over(disk, latter, k), former, latter) {
        if i :| 0 <= i < k && former[i] != latter[i] {
          assert forall j :: k <= j < PARTS ==> former[j] == latter[j];
        }
      }
    }
  }

  // ---- a resumed attempt ----

  /** The transaction on the disk holds its challenge, and this attempt gets an acceptable answer. */
  ghost predicate Completes(lib: Libraries, disk: Files, b: Attempt) {
    && Coherent(lib, disk) && StateIn(disk).Some? && BOOTSTRAP in disk
    && var s := StateIn(disk).value;
       && disk[BOOTSTRAP] == BootstrapDoc(s.cloudAddress)
       && s.challenge.Some? && TranscriptFields(lib, s, s.challenge.value).Some?
       && OPERATIONAL_KEY in disk && disk[OPERATIONAL_KEY].PrivateKey?
       && b.completes && Acceptable(lib, disk[OPERATIONAL_KEY].secret, lib.answer(s.completionRequestId, b.nonce))
  }

  /** Resuming a transaction that holds its challenge goes straight to the completion. */
  lemma ResumedEffects(lib: Libraries, disk: Files, b: Attempt)
    requires Completes(lib, disk, b)
    ensures var s, secret := StateIn(disk).value, disk[OPERATIONAL_KEY].secret;
            Effects(lib, disk, Try(b))
            == [Send(CompletionFor(lib, s, secret))] + Installation(lib, s, secret, lib.answer(s.completionRequestId, b.nonce))
  {
    hide Acceptable, TranscriptFields, ValidInstanceId, MetadataHash, AttestationHash, PublicKeyText, Installation;
    var s := StateIn(disk).value;
    assert Open(lib, disk, disk[BOOTSTRAP].cloudAddress, b) == Opening([], Ok(s));
    assert ApplyAll<Content, Message>(disk, []) == disk;
    var rest := Completion(lib, s, disk[OPERATIONAL_KEY].secret, b);
    assert Challenged(lib, s, b) == Opening([], Ok(s));
    assert [] + rest.effects == rest.effects;
    assert Continued(lib, disk, s, b).effects == rest.effects;
  }

  lemma InstallationLayout(lib: Libraries, s: EnrollmentState, secret: seq<byte>, c: Completed)
    requires s.challenge.Some?
    ensures var es := Installation(lib, s, secret, c);
            && |es| == 7 && es[5] == Remove(STATE) && es[6] == Remove(BOOTSTRAP)
            && forall i :: 0 <= i < PARTS ==> es[i] == Replace(Name(i), PartsOf(lib, s, secret, c)[i])
  {
    hide MtlsText, IdentityFor;
  }

  lemma {:induction false} InstallationPrefix(lib: Libraries, disk: Files, s: EnrollmentState, secret: seq<byte>,
                                              c: Completed, k: nat)
    requires s.challenge.Some? && k <= PARTS
    ensures |Installation(lib, s, secret, c)| == 7
    ensures ApplyAll(disk, Installation(lib, s, secret, c)[..k]) == Over(disk, PartsOf(lib, s, secret, c), k)
  {
    hide Installation, PartsOf, Name;
    InstallationLayout(lib, s, secret, c);
    var es := Installation(lib, s, secret, c);
    if k == 0 {
      assert es[..0] == [];
      assert ApplyAll<Content, Message>(disk, []) == disk;
    } else {
      InstallationPrefix(lib, disk, s, secret, c, k - 1);
      assert es[..k] == es[..k - 1] + [es[k - 1]];
      ApplyOneMore(disk, es[..k - 1], es[k - 1]);
    }
  }

  lemma RemovalsLeaveParts(disk: Files, parts: Parts)
    ensures Holds(disk - {STATE}, parts) == Holds(disk, parts)
    ensures Holds(disk - {STATE} - {BOOTSTRAP}, parts) == Holds(disk, parts)
  {
    assert forall i :: 0 <= i < PARTS ==> Name(i) != STATE && Name(i) != BOOTSTRAP;
  }

  /** Where a resumed attempt stands when it is cut short. */
  lemma AfterCut(lib: Libraries, disk: Files, b: Attempt, cut: nat)
    requires Completes(lib, disk, b)
    ensures var s, secret := StateIn(disk).value, disk[OPERATIONAL_KEY].secret;
            var latter := PartsOf(lib, s, secret, lib.answer(s.completionRequestId, b.nonce));
            var after := ApplyAll(disk, UpTo(Effects(lib, disk, Try(b)), cut));
            if cut <= 6 then after == Over(disk, latter, if cut == 0 then 0 else cut - 1)
            else forall parts :: Holds(after, parts) == Holds(Over(disk, latter, 5), parts)
  {
    hide Installation, PartsOf, Over, Holds, Acceptable, Effects, Coherent;
    var s, secret := StateIn(disk).value, disk[OPERATIONAL_KEY].secret;
    var c := lib.answer(s.completionRequestId, b.nonce);
    ResumedEffects(lib, disk, b);
    InstallationLayout(lib, s, secret, c);
    var asked, es := Send(CompletionFor(lib, s, secret)), Installation(lib, s, secret, c);
    var all := [asked] + es;
    var done := UpTo(all, cut);
    ApplyOne(disk, asked);
    if cut == 0 {
      assert done == [];
      InstallationPrefix(lib, disk, s, secret, c, 0);
      assert es[..0] == [];
    } else {
      var k := if cut <= 8 then cut - 1 else 7;
      assert done == [asked] + es[..k];
      ApplyInTurn(disk, [asked], es[..k]);
      InstallationPrefix(lib, disk, s, secret, c, if k < 5 then k else 5);
      if k > 5 {
        LastTwo(disk, es, k);
        forall parts: Parts {
          RemovalsLeaveParts(ApplyAll(disk, es[..5]), parts);
        }
      }
    }
  }

  lemma LastTwo(disk: Files, es: Trace, k: nat)
    requires |es| == 7 && es[5] == Remove(STATE) && es[6] == Remove(BOOTSTRAP) && 5 < k <= 7
    ensures ApplyAll(disk, es[..k])
         == if k == 6 then ApplyAll(disk, es[..5]) - {STATE} else ApplyAll(disk, es[..5]) - {STATE} - {BOOTSTRAP}
  {
    assert es[..6] == es[..5] + [es[5]];
    ApplyOneMore(disk, es[..5], es[5]);
    if k == 7 {
      assert es[..7] == es[..6] + [es[6]];
      ApplyOneMore(disk, es[..6], es[6]);
    }
  }

  function After(lib: Libraries, disk: Files, b: Attempt, cut: nat): Files {
    ApplyAll(disk, UpTo(Effects(lib, disk, Try(b)), cut))
  }

  lemma WholeAfterCut(lib: Libraries, disk: Files, b: Attempt, former: Parts, cut: nat)
    requires Completes(lib, disk, b)
    ensures var s, secret := StateIn(disk).value, disk[OPERATIONAL_KEY].secret;
            var latter := PartsOf(lib, s, secret, lib.answer(s.completionRequestId, b.nonce));
            Whole(After(lib, disk, b, cut), former, latter)
            <==> Whole(Over(disk, latter, if cut == 0 then 0 else if cut <= 6 then cut - 1 else 5), former, latter)
  {
    hide PartsOf, Over, Holds, Effects, Completes, ApplyAll;
    AfterCut(lib, disk, b, cut);
  }

  /** A retry after the identity was written leaves one installation, the old or the new one, at every
      crash point if and only if its answer changes at most one of the five files. */
  lemma ResumedExactly(lib: Libraries, disk: Files, b: Attempt, c: Completed)
    requires Completes(lib, disk, b)
    requires Holds(disk, PartsOf(lib, StateIn(disk).value, disk[OPERATIONAL_KEY].secret, c))
    ensures var s, secret := StateIn(disk).value, disk[OPERATIONAL_KEY].secret;
            var former, latter := PartsOf(lib, s, secret, c), PartsOf(lib, s, secret, lib.answer(s.completionRequestId, b.nonce));
            (forall cut :: Whole(After(lib, disk, b, cut), former, latter)) <==> AtMostOneDiffers(former, latter)
  {
    hide PartsOf, Over, Holds, Completes, AtMostOneDiffers, After, Whole;
    var s, secret := Situation(lib, disk, b);
    var former, latter := PartsOf(lib, s, secret, c), PartsOf(lib, s, secret, lib.answer(s.completionRequestId, b.nonce));
    NeverMixedExactly(disk, former, latter);
    if AtMostOneDiffers(former, latter) {
      forall cut ensures Whole(After(lib, disk, b, cut), former, latter) {
        WholeAfterCut(lib, disk, b, former, cut);
      }
    } else {
      var k :| 0 <= k <= PARTS && !Whole(Over(disk, latter, k), former, latter);
      WholeAfterCut(lib, disk, b, former, k + 1);
      assert !Whole(After(lib, disk, b, k + 1), former, latter);
    }
  }

  lemma Situation(lib: Libraries, disk: Files, b: Attempt) returns (s: EnrollmentState, secret: seq<byte>)
    requires Completes(lib, disk, b)
    ensures StateIn(disk) == Some(s) && s.challenge.Some?
    ensures OPERATIONAL_KEY in disk && disk[OPERATIONAL_KEY] == PrivateKey(secret)
  {
    s, secret := StateIn(disk).value, disk[OPERATIONAL_KEY].secret;
  }

  // ---- where such a retry starts ----

  predicate Leaves(es: Trace, name: string) {
    forall i :: 0 <= i < |es| ==> es[i].Send? || (es[i].Replace? && es[i].name != name)
  }

  lemma {:induction false} LeftAlone(disk: Files, es: Trace, name: string)
    requires Leaves(es, name) && name in disk
    ensures name in ApplyAll(disk, es) && ApplyAll(disk, es)[name] == disk[name]
  {
    if es != [] {
      var init := es[..|es| - 1];
      assert forall i :: 0 <= i < |init| ==> init[i] == es[i];
      LeftAlone(disk, init, name);
    }
  }

  lemma {:induction false} OverElsewhere(disk: Files, parts: Parts, k: nat, name: string)
    requires k <= PARTS && forall i :: 0 <= i < PARTS ==> Name(i) != name
    ensures name in Over(disk, parts, k) <==> name in disk
    ensures name in disk ==> Over(disk, parts, k)[name] == disk[name]
  {
    hide Name;
    if k > 0 {
      OverElsewhere(disk, parts, k - 1, name);
    }
  }

  lemma OtherNames()
    ensures forall i :: 0 <= i < PARTS ==> Name(i) !in {STATE, BOOTSTRAP, OPERATIONAL_KEY}
  {
  }

  lemma OpeningLeavesBootstrap(lib: Libraries, disk: Files, cloud: string, a: Attempt)
    ensures var o := Open(lib, disk, cloud, a);
            Leaves(o.effects, BOOTSTRAP) && (o.state.Ok? ==> o.state.value.cloudAddress == cloud)
  {
    hide ValidInstanceId, ValidDisplayName, MetadataHash, AttestationHash, PublicKeyText;
  }

  lemma ChallengeLeavesBootstrap(lib: Libraries, s: EnrollmentState, a: Attempt)
    ensures var o := Challenged(lib, s, a);
            Leaves(o.effects, BOOTSTRAP) && (o.state.Ok? ==> o.state.value.cloudAddress == s.cloudAddress)
  {
    hide ValidDisplayName, MetadataHash, Decode32;
  }

  /** The transaction and the files are all there; only the transaction is still to be removed. */
  ghost predicate Finishing(lib: Libraries, disk: Files, a: Attempt) {
    && Completes(lib, disk, a)
    && var s, secret := StateIn(disk).value, disk[OPERATIONAL_KEY].secret;
       Holds(disk, PartsOf(lib, s, secret, lib.answer(s.completionRequestId, a.nonce)))
  }

  /** From the moment the state holds its challenge: cut before the removals, the files are installed. */
  lemma CutCompletion(lib: Libraries, disk: Files, s: EnrollmentState, secret: seq<byte>, a: Attempt)
    requires StateIn(disk) == Some(s) && s.challenge.Some? && Bound(lib, disk, s)
    requires BOOTSTRAP in disk && disk[BOOTSTRAP] == BootstrapDoc(s.cloudAddress)
    requires OPERATIONAL_KEY in disk && disk[OPERATIONAL_KEY] == PrivateKey(secret)
    requires Completion(lib, s, secret, a).result.Ok?
    ensures var es := Completion(lib, s, secret, a).effects;
            && |es| == 8
            && var at := ApplyAll(disk, es[..6]); (Coherent(lib, at) ==> Finishing(lib, at, a))
  {
    hide Installation, PartsOf, Holds, Acceptable, TranscriptFields, Bound, Coherent, Name, Over, ApplyAll;
    var c := lib.answer(s.completionRequestId, a.nonce);
    var asked, install := Send(CompletionFor(lib, s, secret)), Installation(lib, s, secret, c);
    var es := Completion(lib, s, secret, a).effects;
    assert es == [asked] + install;
    InstallationLayout(lib, s, secret, c);
    assert es[..6] == [asked] + install[..5];
    ApplyInTurn(disk, [asked], install[..5]);
    ApplyOne(disk, asked);
    InstallationPrefix(lib, disk, s, secret, c, 5);
    OtherNames();
    var parts := PartsOf(lib, s, secret, c);
    OverElsewhere(disk, parts, 5, STATE);
    OverElsewhere(disk, parts, 5, BOOTSTRAP);
    OverElsewhere(disk, parts, 5, OPERATIONAL_KEY);
    AllOver(disk, parts);
  }

  lemma AllOver(disk: Files, parts: Parts)
    ensures Holds(Over(disk, parts, 5), parts)
  {
    hide Name;
    forall i | 0 <= i < PARTS ensures Name(i) in Over(disk, parts, 5) && Over(disk, parts, 5)[Name(i)] == parts[i] {
      OverFrom(disk, parts, 5, i);
    }
  }

  lemma {:induction false} OverFrom(disk: Files, parts: Parts, k: nat, i: nat)
    requires i < k <= PARTS
    ensures Name(i) in Over(disk, parts, k) && Over(disk, parts, k)[Name(i)] == parts[i]
  {
    hide Name;
    if i < k - 1 {
      OverFrom(disk, parts, k - 1, i);
      NamesApart(i, k - 1);
    }
  }

  /** An attempt that would complete, cut short just before it removes the transaction. */
  lemma CutAfterIdentity(lib: Libraries, disk: Files, a: Attempt)
    requires Coherent(lib, disk) && Fresh(Try(a)) && Enrolled(lib, disk, a).result.Ok?
    ensures var es := Effects(lib, disk, Try(a));
            |es| >= 2 && Finishing(lib, ApplyAll(disk, es[..|es| - 2]), a)
  {
    hide Open, Challenged, Completion, Finishing, Bound, Coherent, ApplyAll, AllOrderly, PublicKeyText, ValidInstanceId, Fresh;
    var cloud := disk[BOOTSTRAP].cloudAddress;
    var opening := Open(lib, disk, cloud, a);
    OpensOrderly(lib, disk, cloud, a);
    OpeningLeavesBootstrap(lib, disk, cloud, a);
    LeftAlone(disk, opening.effects, BOOTSTRAP);
    var begun := ApplyAll(disk, opening.effects);
    var challenged := Challenged(lib, opening.state.value, a);
    ChallengesOrderly(lib, begun, opening.state.value, a);
    ChallengeLeavesBootstrap(lib, opening.state.value, a);
    LeftAlone(begun, challenged.effects, BOOTSTRAP);
    var asked, s := ApplyAll(begun, challenged.effects), challenged.state.value;
    var rest := Completion(lib, s, begun[OPERATIONAL_KEY].secret, a);
    CutCompletion(lib, asked, s, begun[OPERATIONAL_KEY].secret, a);
    var es := Effects(lib, disk, Try(a));
    Regroup(opening.effects, challenged.effects, rest.effects, 6);
    ApplyInTurn(disk, opening.effects, challenged.effects + rest.effects[..6]);
    ApplyInTurn(begun, challenged.effects, rest.effects[..6]);
    AttemptIsOrderly(lib, disk, Try(a));
    OrderlyPrefix(lib, disk, es, |es| - 2);
    OrderlyKeepsCoherent(lib, disk, es[..|es| - 2]);
  }

  lemma Regroup(x: Trace, y: Trace, z: Trace, k: nat)
    requires |z| == k + 2
    ensures var es := x + (y + z); es[..|es| - 2] == x + (y + z[..k])
  {
  }

  // ---- from an empty machine ----

  function FirstAttempt(lib: Libraries, cloud: string, a: Attempt): seq<Step> {
    var es := Effects(lib, map[BOOTSTRAP := BootstrapDoc(cloud)], Try(a));
    [Step(Provide(cloud), 1), Step(Try(a), if |es| < 2 then 0 else |es| - 2)]
  }

  lemma RunOneMore(lib: Libraries, boot: Files, steps: seq<Step>, last: Step)
    ensures var disk := ApplyAll(boot, Run(lib, boot, steps));
            ApplyAll(boot, Run(lib, boot, steps + [last])) == ApplyAll(disk, UpTo(Effects(lib, disk, last.action), last.cut))
  {
    hide Effects, ApplyAll;
    var before := Run(lib, boot, steps);
    assert (steps + [last])[..|steps|] == steps;
    ApplyInTurn(boot, before, UpTo(Effects(lib, ApplyAll(boot, before), last.action), last.cut));
  }

  lemma BootstrapProvided(lib: Libraries, cloud: string)
    ensures ApplyAll(map[], Run(lib, map[], [Step(Provide(cloud), 1)])) == map[BOOTSTRAP := BootstrapDoc(cloud)]
    ensures Coherent(lib, map[BOOTSTRAP := BootstrapDoc(cloud)])
  {
    var step := Step(Provide(cloud), 1);
    RunOneMore(lib, map[], [], step);
    assert [] + [step] == [step];
    assert ApplyAll<Content, Message>(map[], []) == map[];
    var e: Effect<Content, Message> := Replace(BOOTSTRAP, BootstrapDoc(cloud));
    assert UpTo([e], 1) == [e];
    ApplyOne(map[], e);
  }

  /** Every attempt that would enroll an empty machine leads, cut after the identity, to the situation a
      retry starts from. */
  lemma FirstAttemptFinishes(lib: Libraries, cloud: string, a: Attempt)
    requires Fresh(Try(a)) && Enrolled(lib, map[BOOTSTRAP := BootstrapDoc(cloud)], a).result.Ok?
    ensures Finishing(lib, ApplyAll(map[], Run(lib, map[], FirstAttempt(lib, cloud, a))), a)
  {
    hide Effects, Enrolled, Finishing, ApplyAll, Run, Coherent, Fresh;
    BootstrapProvided(lib, cloud);
    var disk: Files := map[BOOTSTRAP := BootstrapDoc(cloud)];
    CutAfterIdentity(lib, disk, a);
    var es := Effects(lib, disk, Try(a));
    var first, second := Step(Provide(cloud), 1), Step(Try(a), |es| - 2);
    assert UpTo(es, |es| - 2) == es[..|es| - 2];
    RunOneMore(lib, map[], [first], second);
    assert [first] + [second] == [first, second];
  }

  /** Over runs from an empty machine: a first attempt cut after its identity document, and a retry cut
      anywhere, leave the first or the second installation whole if and only if the two answers differ
      in at most one file. */
  lemma RetryIsAtomicExactly(lib: Libraries, cloud: string, a: Attempt, b: Attempt)
    requires Fresh(Try(a)) && Enrolled(lib, map[BOOTSTRAP := BootstrapDoc(cloud)], a).result.Ok?
    requires Completes(lib, ApplyAll(map[], Run(lib, map[], FirstAttempt(lib, cloud, a))), b)
    ensures var disk := ApplyAll(map[], Run(lib, map[], FirstAttempt(lib, cloud, a)));
            var s, secret := StateIn(disk).value, disk[OPERATIONAL_KEY].secret;
            var former := PartsOf(lib, s, secret, lib.answer(s.completionRequestId, a.nonce));
            var latter := PartsOf(lib, s, secret, lib.answer(s.completionRequestId, b.nonce));
            (forall cut :: Whole(Retried(lib, cloud, a, b, cut), former, latter)) <==> AtMostOneDiffers(former, latter)
  {
    hide Finishing, Completes, AtMostOneDiffers, Whole, PartsOf, Holds, Effects, Enrolled, FirstAttempt, Run, After, Fresh,
         Retried;
    var disk := ApplyAll(map[], Run(lib, map[], FirstAttempt(lib, cloud, a)));
    FirstAttemptFinishes(lib, cloud, a);
    var s, secret := Situation(lib, disk, b);
    var c := lib.answer(s.completionRequestId, a.nonce);
    FinishingHolds(lib, disk, a);
    ResumedExactly(lib, disk, b, c);
    forall cut ensures Retried(lib, cloud, a, b, cut) == After(lib, disk, b, cut) {
      RetriedIsAfter(lib, cloud, a, b, cut);
    }
  }

  function Retried(lib: Libraries, cloud: string, a: Attempt, b: Attempt, cut: nat): Files {
    ApplyAll(map[], Run(lib, map[], FirstAttempt(lib, cloud, a) + [Step(Try(b), cut)]))
  }

  lemma RetriedIsAfter(lib: Libraries, cloud: string, a: Attempt, b: Attempt, cut: nat)
    ensures Retried(lib, cloud, a, b, cut) == After(lib, ApplyAll(map[], Run(lib, map[], FirstAttempt(lib, cloud, a))), b, cut)
  {
    hide Run, Effects, FirstAttempt, ApplyAll;
    RunOneMore(lib, map[], FirstAttempt(lib, cloud, a), Step(Try(b), cut));
  }

  lemma FinishingHolds(lib: Libraries, disk: Files, a: Attempt)
    requires Finishing(lib, disk, a)
    ensures Completes(lib, disk, a)
    ensures Holds(disk, PartsOf(lib, StateIn(disk).value, disk[OPERATIONAL_KEY].secret,
                                lib.answer(StateIn(disk).value.completionRequestId, a.nonce)))
  {
    hide Completes, Holds, PartsOf;
  }

  // ---- every run ----

  ghost predicate SteadyAnswer(lib: Libraries, s: EnrollmentState, secret: seq<byte>, m: nat, n: nat) {
    var c, d := lib.answer(s.completionRequestId, m), lib.answer(s.completionRequestId, n);
    s.challenge.Some? && Acceptable(lib, secret, c) && Acceptable(lib, secret, d) ==>
      AtMostOneDiffers(PartsOf(lib, s, secret, c), PartsOf(lib, s, secret, d))
  }

  /** Whatever the Cloud answers to one request changes at most one file; repeating the answer is the
      simplest case. */
  ghost predicate Steady(lib: Libraries) {
    forall s, secret, m, n :: SteadyAnswer(lib, s, secret, m, n)
  }

  /** The identity document and the certificate files are those of completion `c`, whose certificate was
      issued for the operational key on the disk; while the transaction lasts, `c` answers it. */
  ghost predicate InstallationOf(lib: Libraries, disk: Files, c: Completed) {
    && OPERATIONAL_KEY in disk && disk[OPERATIONAL_KEY].PrivateKey?
    && Acceptable(lib, disk[OPERATIONAL_KEY].secret, c)
    && FilesHold(lib, disk, disk[OPERATIONAL_KEY].secret, c)
    && IDENTITY in disk && disk[IDENTITY].IdentityDoc?
    && disk[IDENTITY].identity.deviceId == c.deviceId && disk[IDENTITY].identity.deviceKeyId == c.deviceKeyId
    && disk[IDENTITY].identity.notAfter == c.notAfter
    && (STATE in disk ==> AnswersTransaction(lib, disk, c))
  }

  ghost predicate AnswersTransaction(lib: Libraries, disk: Files, c: Completed) {
    && StateIn(disk).Some? && StateIn(disk).value.challenge.Some?
    && OPERATIONAL_KEY in disk && disk[OPERATIONAL_KEY].PrivateKey?
    && Holds(disk, PartsOf(lib, StateIn(disk).value, disk[OPERATIONAL_KEY].secret, c))
    && exists n :: c == lib.answer(StateIn(disk).value.completionRequestId, n)
  }

  ghost predicate OneInstallation(lib: Libraries, disk: Files) {
    IDENTITY in disk ==> exists c :: InstallationOf(lib, disk, c)
  }

  lemma PartsMeanFiles(lib: Libraries, disk: Files, s: EnrollmentState, secret: seq<byte>, c: Completed)
    requires s.challenge.Some?
    ensures Holds(disk, PartsOf(lib, s, secret, c)) <==>
              FilesHold(lib, disk, secret, c) && IDENTITY in disk && disk[IDENTITY] == IdentityDoc(IdentityFor(s, c))
  {
    hide MtlsText, IdentityFor;
    var parts := PartsOf(lib, s, secret, c);
    assert Holds(disk, parts) ==> Name(0) in disk && Name(1) in disk && Name(2) in disk && Name(3) in disk && Name(4) in disk;
  }

  /** Writing one file of another answer leaves the first installation or makes it the other one. */
  lemma OneFileSwaps(disk: Files, former: Parts, latter: Parts, i: nat)
    requires Holds(disk, former) && AtMostOneDiffers(former, latter) && i < PARTS
    ensures Whole(disk[Name(i) := latter[i]], former, latter)
  {
    hide Name;
    forall j | 0 <= j < PARTS && j != i ensures Name(j) != Name(i) {
      NamesApart(j, i);
    }
    if former[i] != latter[i] {
      assert forall j :: 0 <= j < PARTS && j != i ==> former[j] == latter[j];
    }
  }

  lemma PartWritten(lib: Libraries, disk: Files, e: Effect<Content, Message>, n: nat) returns (i: nat)
    requires Installs(lib, disk, e, n)
    ensures var s, secret := StateIn(disk).value, disk[OPERATIONAL_KEY].secret;
            i < PARTS && e == Replace(Name(i), PartsOf(lib, s, secret, lib.answer(s.completionRequestId, n))[i])
  {
    hide MtlsText, IdentityFor, Acceptable;
    i := if e.name == CERTIFICATE_DER then 0 else if e.name == CERTIFICATE_PEM then 1 else if e.name == CHAIN then 2
         else if e.name == MTLS then 3 else 4;
  }

  lemma InstallKeepsInstallation(lib: Libraries, disk: Files, e: Effect<Content, Message>, n: nat, c: Completed)
    requires Steady(lib) && InstallationOf(lib, disk, c) && Installs(lib, disk, e, n)
    ensures exists d :: InstallationOf(lib, Apply(disk, e), d)
  {
    hide MtlsText, IdentityFor, Acceptable, PartsOf, AtMostOneDiffers, Name, Holds, FilesHold;
    var s, secret := StateIn(disk).value, disk[OPERATIONAL_KEY].secret;
    var d := lib.answer(s.completionRequestId, n);
    var m :| c == lib.answer(s.completionRequestId, m);
    assert SteadyAnswer(lib, s, secret, m, n);
    var i := PartWritten(lib, disk, e, n);
    var former, latter := PartsOf(lib, s, secret, c), PartsOf(lib, s, secret, d);
    OneFileSwaps(disk, former, latter, i);
    var after := Apply(disk, e);
    OtherNames();
    assert after == disk[Name(i) := latter[i]];
    if Holds(after, former) {
      AnswerIsInstalled(lib, after, s, secret, c, m);
    } else {
      AnswerIsInstalled(lib, after, s, secret, d, n);
    }
  }

  lemma AnswerIsInstalled(lib: Libraries, disk: Files, s: EnrollmentState, secret: seq<byte>, c: Completed, n: nat)
    requires StateIn(disk) == Some(s) && s.challenge.Some? && c == lib.answer(s.completionRequestId, n)
    requires OPERATIONAL_KEY in disk && disk[OPERATIONAL_KEY] == PrivateKey(secret) && Acceptable(lib, secret, c)
    requires Holds(disk, PartsOf(lib, s, secret, c))
    ensures InstallationOf(lib, disk, c)
  {
    hide MtlsText, Acceptable, PartsOf, Holds, FilesHold;
    PartsMeanFiles(lib, disk, s, secret, c);
  }

  lemma FirstInstallation(lib: Libraries, disk: Files, e: Effect<Content, Message>, n: nat)
    requires Installs(lib, disk, e, n) && e.Replace? && e.name == IDENTITY
    ensures exists d :: InstallationOf(lib, Apply(disk, e), d)
  {
    hide MtlsText, Acceptable, PartsOf, Holds;
    var s, secret := StateIn(disk).value, disk[OPERATIONAL_KEY].secret;
    var d := lib.answer(s.completionRequestId, n);
    PartsMeanFiles(lib, Apply(disk, e), s, secret, d);
    AnswerIsInstalled(lib, Apply(disk, e), s, secret, d, n);
  }

  lemma OtherKeepsInstallation(lib: Libraries, disk: Files, e: Effect<Content, Message>, c: Completed)
    requires InstallationOf(lib, disk, c) && Orderly(lib, disk, e)
    requires e.Replace? ==> e.name in {STATE, ROOT_KEY, OPERATIONAL_KEY, INSTANCE, BOOTSTRAP}
    ensures InstallationOf(lib, Apply(disk, e), c)
  {
    hide MtlsText, IdentityFor, Acceptable, PartsOf, Bound, Speaks, Name;
    OtherNames();
  }

  lemma EffectKeepsInstallation(lib: Libraries, disk: Files, e: Effect<Content, Message>)
    requires Steady(lib) && OneInstallation(lib, disk) && Orderly(lib, disk, e)
    ensures OneInstallation(lib, Apply(disk, e))
  {
    hide Steady, InstallationOf, Installs, Bound, Speaks;
    if e.Replace? && e.name !in {STATE, ROOT_KEY, OPERATIONAL_KEY, INSTANCE, BOOTSTRAP} {
      var n :| Installs(lib, disk, e, n);
      if e.name == IDENTITY {
        FirstInstallation(lib, disk, e, n);
      } else if IDENTITY in disk {
        var c :| InstallationOf(lib, disk, c);
        InstallKeepsInstallation(lib, disk, e, n, c);
      }
    } else if IDENTITY in disk {
      var c :| InstallationOf(lib, disk, c);
      OtherKeepsInstallation(lib, disk, e, c);
    }
  }

  lemma {:induction false} OrderlyKeepsInstallation(lib: Libraries, disk: Files, es: Trace)
    requires Steady(lib) && OneInstallation(lib, disk) && AllOrderly(lib, disk, es)
    ensures OneInstallation(lib, ApplyAll(disk, es))
  {
    hide OneInstallation, Orderly, Steady;
    if es != [] {
      OrderlyKeepsInstallation(lib, disk, es[..|es| - 1]);
      EffectKeepsInstallation(lib, ApplyAll(disk, es[..|es| - 1]), es[|es| - 1]);
    }
  }

  /** With such a Cloud the identity, the certificate files and the private key belong together after
      every run, whatever was cut short. */
  lemma {:induction false} IdentityIsOfOneCompletion(lib: Libraries, boot: Files, steps: seq<Step>)
    requires Steady(lib) && Coherent(lib, boot) && OneInstallation(lib, boot)
    requires forall i :: 0 <= i < |steps| ==> Fresh(steps[i].action)
    ensures OneInstallation(lib, ApplyAll(boot, Run(lib, boot, steps)))
  {
    hide AllOrderly, Coherent, OneInstallation, Fresh, Run, ApplyAll, Steady;
    EveryRunIsCoherent(lib, boot, steps);
    OrderlyKeepsInstallation(lib, boot, Run(lib, boot, steps));
  }
}
