/** Enrollment over every sequence of attempts, each cut short anywhere by a crash. */
module EnrollmentRuns {
  import opened Bytes
  import opened Enrollment
  import opened Host
  import opened Text
  import opened Wrappers

  /** An attempt to enroll, or the operator providing a bootstrap document. */
  datatype Action = Try(attempt: Attempt) | Provide(cloudAddress: string)

  datatype Step = Step(action: Action, cut: nat)

  predicate Fresh(a: Action) {
    a.Try? ==> ValidInstanceId("candy-" + a.attempt.instanceUuid)
  }

  function Effects(lib: Libraries, disk: Files, a: Action): Trace {
    match a
    case Try(attempt) => Enrolled(lib, disk, attempt).effects
    case Provide(cloud) => [Replace(BOOTSTRAP, BootstrapDoc(cloud))]
  }

  function Run(lib: Libraries, boot: Files, steps: seq<Step>): Trace {
    if steps == [] then [] else
      var before := Run(lib, boot, steps[..|steps| - 1]);
      var last := steps[|steps| - 1];
      before + UpTo(Effects(lib, ApplyAll(boot, before), last.action), last.cut)
  }

  // ---- what the disk and each effect must satisfy ----

  function StateIn(disk: Files): Option<EnrollmentState> {
    if STATE in disk && disk[STATE].StateDoc? then Some(disk[STATE].state) else None
  }

  /** The transaction state agrees with the keys, the instance id and its own hashes. */
  ghost predicate Bound(lib: Libraries, disk: Files, s: EnrollmentState) {
    && KeysMatch(lib, disk, s)
    && s.metadataHash == MetadataHash(lib, s.instanceId, s.displayName)
    && s.attestationHash == AttestationHash(lib, s.instanceId)
    && INSTANCE in disk && disk[INSTANCE] == InstanceDoc(s.instanceId) && ValidInstanceId(s.instanceId)
  }

  predicate CertificatesPresent(disk: Files) {
    CERTIFICATE_DER in disk && CERTIFICATE_PEM in disk && CHAIN in disk && MTLS in disk
  }

  ghost predicate Coherent(lib: Libraries, disk: Files) {
    && (STATE in disk ==> StateIn(disk).Some? && Bound(lib, disk, StateIn(disk).value))
    && (IDENTITY in disk ==> CertificatesPresent(disk))
  }

  /** A transaction may be rewritten only before its challenge is stored, and keeps its identifiers. */
  predicate Continues(s: EnrollmentState, t: EnrollmentState) {
    && s.challenge.None?
    && t.challengeRequestId == s.challengeRequestId && t.completionRequestId == s.completionRequestId
    && t.instanceId == s.instanceId && t.cloudAddress == s.cloudAddress
    && t.rootPublicKey == s.rootPublicKey && t.operationalPublicKey == s.operationalPublicKey
  }

  /** The certificate files hold completion `c` for the key `secret`. */
  predicate FilesHold(lib: Libraries, disk: Files, secret: seq<byte>, c: Completed) {
    && CertificatesPresent(disk)
    && disk[CERTIFICATE_DER] == Raw(c.der) && disk[CERTIFICATE_PEM] == PemText(lib.certificatePem(c.der))
    && disk[CHAIN] == PemText(c.chain) && disk[MTLS] == PemText(MtlsText(lib, c, secret))
  }

  predicate Installs(lib: Libraries, disk: Files, e: Effect<Content, Message>, nonce: nat) {
    && StateIn(disk).Some? && StateIn(disk).value.challenge.Some?
    && OPERATIONAL_KEY in disk && disk[OPERATIONAL_KEY].PrivateKey?
    && var s, secret := StateIn(disk).value, disk[OPERATIONAL_KEY].secret;
       var c := lib.answer(s.completionRequestId, nonce);
       && Acceptable(lib, secret, c)
       && (e == Replace(CERTIFICATE_DER, Raw(c.der)) || e == Replace(CERTIFICATE_PEM, PemText(lib.certificatePem(c.der)))
           || e == Replace(CHAIN, PemText(c.chain)) || e == Replace(MTLS, PemText(MtlsText(lib, c, secret)))
           || (e == Replace(IDENTITY, IdentityDoc(IdentityFor(s, c))) && FilesHold(lib, disk, secret, c)))
  }

  /** A message speaks for the transaction on the disk. */
  predicate Speaks(lib: Libraries, disk: Files, s: EnrollmentState, m: Message) {
    match m
    case Exchange(id) => id == s.instanceId && s.challenge.None?
    case Challenge(_, _, _, _, _, _, _) => m == ChallengeFor(s) && s.challenge.None?
    case Complete(_, _, _) =>
      && s.challenge.Some? && TranscriptFields(lib, s, s.challenge.value).Some?
      && OPERATIONAL_KEY in disk && disk[OPERATIONAL_KEY].PrivateKey?
      && m == CompletionFor(lib, s, disk[OPERATIONAL_KEY].secret)
  }

  function CompletionFor(lib: Libraries, s: EnrollmentState, secret: seq<byte>): Message
    requires s.challenge.Some? && TranscriptFields(lib, s, s.challenge.value).Some?
  {
    Complete(s.challenge.value.challengeId, s.completionRequestId,
             lib.encode(lib.sign(secret, Framing.Fields(TranscriptFields(lib, s, s.challenge.value).value, 2))))
  }

  ghost predicate Orderly(lib: Libraries, disk: Files, e: Effect<Content, Message>) {
    match e
    case Send(m) => StateIn(disk).Some? && Speaks(lib, disk, StateIn(disk).value, m)
    case Remove(name) => name == BOOTSTRAP || (name == STATE && IDENTITY in disk)
    case Replace(name, content) =>
      if name == STATE then
        && content.StateDoc? && Bound(lib, disk, content.state)
        && (if STATE in disk then StateIn(disk).Some? && Continues(StateIn(disk).value, content.state)
            else IDENTITY !in disk)
      else if name == ROOT_KEY || name == OPERATIONAL_KEY then STATE !in disk && IDENTITY !in disk
      else if name == INSTANCE then INSTANCE !in disk && IDENTITY !in disk
      else name == BOOTSTRAP || exists n :: Installs(lib, disk, e, n)
  }

  ghost predicate AllOrderly(lib: Libraries, disk: Files, es: Trace) {
    es == [] || (AllOrderly(lib, disk, es[..|es| - 1]) && Orderly(lib, ApplyAll(disk, es[..|es| - 1]), es[|es| - 1]))
  }

  lemma OrderlyOneMore(lib: Libraries, disk: Files, es: Trace, e: Effect<Content, Message>)
    requires AllOrderly(lib, disk, es) && Orderly(lib, ApplyAll(disk, es), e)
    ensures AllOrderly(lib, disk, es + [e])
    ensures ApplyAll(disk, es + [e]) == Apply(ApplyAll(disk, es), e)
  {
    hide Orderly;
    assert (es + [e])[..|es|] == es;
    ApplyOneMore(disk, es, e);
  }

  lemma {:induction false} OrderlyInTurn(lib: Libraries, disk: Files, a: Trace, b: Trace)
    requires AllOrderly(lib, disk, a) && AllOrderly(lib, ApplyAll(disk, a), b)
    ensures AllOrderly(lib, disk, a + b)
  {
    hide Orderly;
    if b == [] {
      assert a + b == a;
    } else {
      var init := b[..|b| - 1];
      OrderlyInTurn(lib, disk, a, init);
      assert (a + b)[..|a + b| - 1] == a + init;
      ApplyInTurn(disk, a, init);
    }
  }

  lemma {:induction false} OrderlyPrefix(lib: Libraries, disk: Files, es: Trace, k: nat)
    requires AllOrderly(lib, disk, es) && k <= |es|
    ensures AllOrderly(lib, disk, es[..k])
  {
    hide Orderly;
    if k == |es| {
      assert es[..k] == es;
    } else {
      assert es[..|es| - 1][..k] == es[..k];
      OrderlyPrefix(lib, disk, es[..|es| - 1], k);
    }
  }

  // ---- every attempt is orderly ----

  /** Effects carried out one at a time from a disk; `now` is where they lead. */
  ghost predicate Leads(lib: Libraries, disk: Files, es: Trace, now: Files) {
    AllOrderly(lib, disk, es) && now == ApplyAll(disk, es)
  }

  lemma Start(lib: Libraries, disk: Files)
    ensures Leads(lib, disk, [], disk)
  {
  }

  lemma Then(lib: Libraries, disk: Files, es: Trace, now: Files, e: Effect<Content, Message>)
    requires Leads(lib, disk, es, now) && Orderly(lib, now, e)
    ensures Leads(lib, disk, es + [e], Apply(now, e))
  {
    hide Orderly;
    OrderlyOneMore(lib, disk, es, e);
  }

  lemma OpensOrderly(lib: Libraries, disk: Files, cloud: string, a: Attempt)
    requires Coherent(lib, disk) && Fresh(Try(a)) && (STATE in disk || IDENTITY !in disk)
    ensures var o := Open(lib, disk, cloud, a); var after := ApplyAll(disk, o.effects);
            && AllOrderly(lib, disk, o.effects)
            && (o.state.Ok? ==> StateIn(after) == Some(o.state.value) && Bound(lib, after, o.state.value))
  {
    hide ValidInstanceId, ValidDisplayName, AllOrderly, ApplyAll, MetadataHash, AttestationHash, PublicKeyText;
    Start(lib, disk);
    if STATE !in disk && ValidDisplayName(lib, a.displayName) {
      CreatesOrderly(lib, disk, cloud, a);
    }
  }

  lemma CreatesOrderly(lib: Libraries, disk: Files, cloud: string, a: Attempt)
    requires Fresh(Try(a)) && STATE !in disk && IDENTITY !in disk && ValidDisplayName(lib, a.displayName)
    ensures var o := Open(lib, disk, cloud, a); var after := ApplyAll(disk, o.effects);
            && AllOrderly(lib, disk, o.effects)
            && (o.state.Ok? ==> StateIn(after) == Some(o.state.value) && Bound(lib, after, o.state.value))
  {
    hide ValidInstanceId, ValidDisplayName, AllOrderly, ApplyAll, MetadataHash, AttestationHash, PublicKeyText;
    var root, operational := Replace(ROOT_KEY, PrivateKey(a.rootSecret)),
                             Replace(OPERATIONAL_KEY, PrivateKey(a.operationalSecret));
    Start(lib, disk);
    Then(lib, disk, [], disk, root);
    var d1 := Apply(disk, root);
    assert [] + [root] == [root] && [root] + [operational] == [root, operational];
    Then(lib, disk, [root], d1, operational);
    var d2 := Apply(d1, operational);
    var id := InstanceOf(disk, a);
    if id.Some? {
      InstanceThenState(lib, disk, d2, cloud, a, id.value, [root, operational]);
    }
  }

  lemma InstanceThenState(lib: Libraries, disk: Files, d: Files, cloud: string, a: Attempt, id: string, keys: Trace)
    requires Fresh(Try(a)) && InstanceOf(disk, a) == Some(id) && STATE !in d && IDENTITY !in d
    requires (INSTANCE in d <==> INSTANCE in disk) && (INSTANCE in d ==> d[INSTANCE] == disk[INSTANCE])
    requires ROOT_KEY in d && d[ROOT_KEY] == PrivateKey(a.rootSecret)
    requires OPERATIONAL_KEY in d && d[OPERATIONAL_KEY] == PrivateKey(a.operationalSecret)
    requires Leads(lib, disk, keys, d)
    ensures var s := NewState(lib, cloud, id, a);
            var es := keys + ((if INSTANCE in disk then [] else [Replace(INSTANCE, InstanceDoc(id))])
                              + [Replace(STATE, StateDoc(s))]);
            && AllOrderly(lib, disk, es)
            && StateIn(ApplyAll(disk, es)) == Some(s) && Bound(lib, ApplyAll(disk, es), s)
  {
    hide ValidInstanceId, ValidDisplayName, AllOrderly, ApplyAll, MetadataHash, AttestationHash, PublicKeyText;
    var instance := Replace(INSTANCE, InstanceDoc(id));
    var s := NewState(lib, cloud, id, a);
    var state := Replace(STATE, StateDoc(s));
    if INSTANCE in disk {
      Then(lib, disk, keys, d, state);
      assert keys + ([] + [state]) == keys + [state];
    } else {
      Then(lib, disk, keys, d, instance);
      Then(lib, disk, keys + [instance], Apply(d, instance), state);
      assert keys + ([instance] + [state]) == keys + [instance] + [state];
    }
  }

  lemma RenamedIsBound(lib: Libraries, disk: Files, s: EnrollmentState, m: Manifest, content: Content)
    requires StateIn(disk) == Some(s) && Bound(lib, disk, s)
    ensures Bound(lib, disk[STATE := content], Renamed(lib, s, m)) && Bound(lib, disk, Renamed(lib, s, m))
  {
    hide ValidInstanceId, MetadataHash, AttestationHash, PublicKeyText;
  }

  lemma ChallengesOrderly(lib: Libraries, disk: Files, s: EnrollmentState, a: Attempt)
    requires StateIn(disk) == Some(s) && Bound(lib, disk, s)
    ensures var o := Challenged(lib, s, a); var after := ApplyAll(disk, o.effects);
            && AllOrderly(lib, disk, o.effects)
            && (o.state.Ok? ==> StateIn(after) == Some(o.state.value) && Bound(lib, after, o.state.value))
            && (OPERATIONAL_KEY in disk ==> OPERATIONAL_KEY in after && after[OPERATIONAL_KEY] == disk[OPERATIONAL_KEY])
  {
    hide ValidInstanceId, ValidDisplayName, AllOrderly, ApplyAll, Bound, Decode32, Renamed, Leads;
    Start(lib, disk);
    LeadsMeans(lib, disk, [], disk);
    if s.challenge.None? {
      var asked := Send(Exchange(s.instanceId));
      Then(lib, disk, [], disk, asked);
      assert [] + [asked] == [asked];
      LeadsMeans(lib, disk, [asked], disk);
      if a.manifest.Some? && ValidDisplayName(lib, a.manifest.value.displayName) {
        StoresChallenge(lib, disk, s, a, asked);
      }
    }
  }

  lemma LeadsMeans(lib: Libraries, disk: Files, es: Trace, now: Files)
    requires Leads(lib, disk, es, now)
    ensures AllOrderly(lib, disk, es) && now == ApplyAll(disk, es)
  {
  }

  lemma StoresChallenge(lib: Libraries, disk: Files, s: EnrollmentState, a: Attempt, asked: Effect<Content, Message>)
    requires StateIn(disk) == Some(s) && Bound(lib, disk, s) && s.challenge.None?
    requires a.manifest.Some? && ValidDisplayName(lib, a.manifest.value.displayName)
    requires asked == Send(Exchange(s.instanceId)) && Leads(lib, disk, [asked], disk)
    ensures var o := Challenged(lib, s, a); var after := ApplyAll(disk, o.effects);
            && AllOrderly(lib, disk, o.effects)
            && (o.state.Ok? ==> StateIn(after) == Some(o.state.value) && Bound(lib, after, o.state.value))
            && (OPERATIONAL_KEY in disk ==> OPERATIONAL_KEY in after && after[OPERATIONAL_KEY] == disk[OPERATIONAL_KEY])
  {
    hide ValidInstanceId, ValidDisplayName, AllOrderly, ApplyAll, Bound, Decode32, Leads;
    var named := Renamed(lib, s, a.manifest.value);
    RenamedIsBound(lib, disk, s, a.manifest.value, StateDoc(named));
    var save, ask := Replace(STATE, StateDoc(named)), Send(ChallengeFor(named));
    var d := Apply(disk, save);
    Then(lib, disk, [asked], disk, save);
    assert [asked] + [save] == [asked, save] && [asked, save] + [ask] == [asked] + [save, ask];
    Then(lib, disk, [asked, save], d, ask);
    LeadsMeans(lib, disk, [asked] + [save, ask], d);
    if a.challenge.Some? && Decode32(lib, a.challenge.value.serverNonce).Some? {
      var done := named.(challenge := a.challenge);
      var store := Replace(STATE, StateDoc(done));
      ChallengeKeepsBound(lib, d, named, a.challenge, StateDoc(done));
      Then(lib, disk, [asked] + [save, ask], d, store);
      LeadsMeans(lib, disk, [asked] + [save, ask] + [store], Apply(d, store));
    }
  }

  lemma ChallengeKeepsBound(lib: Libraries, disk: Files, s: EnrollmentState, c: Option<ChallengeState>, content: Content)
    requires Bound(lib, disk, s)
    ensures Bound(lib, disk[STATE := content], s.(challenge := c)) && Bound(lib, disk, s.(challenge := c))
  {
    hide ValidInstanceId, MetadataHash, AttestationHash, PublicKeyText;
  }

  lemma CompletesOrderly(lib: Libraries, disk: Files, s: EnrollmentState, secret: seq<byte>, a: Attempt)
    requires StateIn(disk) == Some(s) && s.challenge.Some?
    requires OPERATIONAL_KEY in disk && disk[OPERATIONAL_KEY] == PrivateKey(secret)
    ensures AllOrderly(lib, disk, Completion(lib, s, secret, a).effects)
  {
    hide AllOrderly, ApplyAll, Leads, Acceptable, TranscriptFields, Installation, Installs;
    Start(lib, disk);
    LeadsMeans(lib, disk, [], disk);
    if TranscriptFields(lib, s, s.challenge.value).Some? {
      var asked := Send(CompletionFor(lib, s, secret));
      Then(lib, disk, [], disk, asked);
      assert [] + [asked] == [asked];
      LeadsMeans(lib, disk, [asked], disk);
      var c := lib.answer(s.completionRequestId, a.nonce);
      if a.completes && Acceptable(lib, secret, c) {
        InstallsOrderly(lib, disk, s, secret, a.nonce);
        OrderlyInTurn(lib, disk, [asked], Installation(lib, s, secret, c));
      }
    }
  }

  lemma InstallsOrderly(lib: Libraries, disk: Files, s: EnrollmentState, secret: seq<byte>, nonce: nat)
    requires StateIn(disk) == Some(s) && s.challenge.Some?
    requires OPERATIONAL_KEY in disk && disk[OPERATIONAL_KEY] == PrivateKey(secret)
    requires Acceptable(lib, secret, lib.answer(s.completionRequestId, nonce))
    ensures AllOrderly(lib, disk, Installation(lib, s, secret, lib.answer(s.completionRequestId, nonce)))
  {
    hide AllOrderly, ApplyAll, Leads, Acceptable, MtlsText, IdentityFor;
    var c := lib.answer(s.completionRequestId, nonce);
    var es := Installation(lib, s, secret, c);
    var d1, d2, d3, d4 := CertificatesOrderly(lib, disk, s, secret, nonce);
    var d5, d6 := Apply(d4, es[4]), Apply(Apply(d4, es[4]), es[5]);
    assert Installs(lib, d4, es[4], nonce);
    Then(lib, disk, es[..4], d4, es[4]);
    assert es[..4] + [es[4]] == es[..5];
    Then(lib, disk, es[..5], d5, es[5]);
    assert es[..5] + [es[5]] == es[..6];
    Then(lib, disk, es[..6], d6, es[6]);
    assert es[..6] + [es[6]] == es;
    LeadsMeans(lib, disk, es, Apply(d6, es[6]));
  }

  /** One more file of the installation, from a disk that still holds the transaction. */
  lemma InstallOne(lib: Libraries, disk: Files, es: Trace, now: Files, s: EnrollmentState, secret: seq<byte>, nonce: nat,
                   e: Effect<Content, Message>)
    requires Leads(lib, disk, es, now) && Installs(lib, now, e, nonce)
    requires StateIn(now) == Some(s) && OPERATIONAL_KEY in now && now[OPERATIONAL_KEY] == PrivateKey(secret)
    ensures Leads(lib, disk, es + [e], Apply(now, e))
    ensures StateIn(Apply(now, e)) == Some(s)
    ensures OPERATIONAL_KEY in Apply(now, e) && Apply(now, e)[OPERATIONAL_KEY] == PrivateKey(secret)
  {
    hide AllOrderly, ApplyAll, Leads, Acceptable, MtlsText, IdentityFor;
    Then(lib, disk, es, now, e);
  }

  lemma CertificatesOrderly(lib: Libraries, disk: Files, s: EnrollmentState, secret: seq<byte>, nonce: nat)
    returns (d1: Files, d2: Files, d3: Files, d4: Files)
    requires StateIn(disk) == Some(s) && s.challenge.Some?
    requires OPERATIONAL_KEY in disk && disk[OPERATIONAL_KEY] == PrivateKey(secret)
    requires Acceptable(lib, secret, lib.answer(s.completionRequestId, nonce))
    ensures var c := lib.answer(s.completionRequestId, nonce);
            && Leads(lib, disk, Installation(lib, s, secret, c)[..4], d4)
            && StateIn(d4) == Some(s) && OPERATIONAL_KEY in d4 && d4[OPERATIONAL_KEY] == PrivateKey(secret)
            && FilesHold(lib, d4, secret, c)
  {
    hide AllOrderly, ApplyAll, Leads, Acceptable, MtlsText, IdentityFor, StateIn, Orderly;
    var c := lib.answer(s.completionRequestId, nonce);
    var es := Installation(lib, s, secret, c);
    Start(lib, disk);
    d1 := Apply(disk, es[0]);
    InstallOne(lib, disk, [], disk, s, secret, nonce, es[0]);
    assert [] + [es[0]] == es[..1];
    d2 := Apply(d1, es[1]);
    InstallOne(lib, disk, es[..1], d1, s, secret, nonce, es[1]);
    assert es[..1] + [es[1]] == es[..2];
    d3 := Apply(d2, es[2]);
    InstallOne(lib, disk, es[..2], d2, s, secret, nonce, es[2]);
    assert es[..2] + [es[2]] == es[..3];
    d4 := Apply(d3, es[3]);
    InstallOne(lib, disk, es[..3], d3, s, secret, nonce, es[3]);
    assert es[..3] + [es[3]] == es[..4];
  }

  lemma ContinuesOrderly(lib: Libraries, disk: Files, s: EnrollmentState, a: Attempt)
    requires StateIn(disk) == Some(s) && Bound(lib, disk, s)
    ensures AllOrderly(lib, disk, Continued(lib, disk, s, a).effects)
  {
    hide AllOrderly, ApplyAll, Bound, Challenged, Completion, ValidInstanceId, PublicKeyText;
    Start(lib, disk);
    LeadsMeans(lib, disk, [], disk);
    var o := Challenged(lib, s, a);
    ChallengesOrderly(lib, disk, s, a);
    var p := Continued(lib, disk, s, a);
    if KeysMatch(lib, disk, s) && o.state.Ok? && o.state.value.challenge.Some? {
      var secret := disk[OPERATIONAL_KEY].secret;
      CompletesOrderly(lib, ApplyAll(disk, o.effects), o.state.value, secret, a);
      OrderlyInTurn(lib, disk, o.effects, Completion(lib, o.state.value, secret, a).effects);
    }
  }

  /** Every attempt on a coherent disk takes only orderly steps. */
  lemma AttemptIsOrderly(lib: Libraries, disk: Files, a: Action)
    requires Coherent(lib, disk) && Fresh(a)
    ensures AllOrderly(lib, disk, Effects(lib, disk, a))
  {
    hide AllOrderly, ApplyAll, Bound, Open, Continued, ValidInstanceId, Coherent, Leads;
    Start(lib, disk);
    LeadsMeans(lib, disk, [], disk);
    match a
    case Provide(cloud) =>
      var e := Replace(BOOTSTRAP, BootstrapDoc(cloud));
      Then(lib, disk, [], disk, e);
      assert [] + [e] == [e];
      LeadsMeans(lib, disk, [e], Apply(disk, e));
    case Try(t) =>
      if BOOTSTRAP in disk && disk[BOOTSTRAP].BootstrapDoc? && (STATE in disk || IDENTITY !in disk) {
        var o := Open(lib, disk, disk[BOOTSTRAP].cloudAddress, t);
        OpensOrderly(lib, disk, disk[BOOTSTRAP].cloudAddress, t);
        if o.state.Ok? {
          var after := ApplyAll(disk, o.effects);
          ContinuesOrderly(lib, after, o.state.value, t);
          OrderlyInTurn(lib, disk, o.effects, Continued(lib, after, o.state.value, t).effects);
        }
      }
  }

  // ---- what an orderly run keeps ----

  lemma EffectKeepsCoherent(lib: Libraries, disk: Files, e: Effect<Content, Message>)
    requires Coherent(lib, disk) && Orderly(lib, disk, e)
    ensures Coherent(lib, Apply(disk, e))
  {
    hide ValidInstanceId, MetadataHash, AttestationHash, PublicKeyText, Acceptable, MtlsText, IdentityFor, Speaks;
    if e.Replace? && e.name == IDENTITY {
      var n :| Installs(lib, disk, e, n);
    }
  }

  /** Whatever was cut short, the transaction state agrees with the keys, the instance id and its
      hashes, and an identity document comes with all four certificate files. */
  lemma {:induction false} EveryRunIsCoherent(lib: Libraries, boot: Files, steps: seq<Step>)
    requires Coherent(lib, boot) && forall i :: 0 <= i < |steps| ==> Fresh(steps[i].action)
    ensures AllOrderly(lib, boot, Run(lib, boot, steps)) && Coherent(lib, ApplyAll(boot, Run(lib, boot, steps)))
  {
    hide AllOrderly, Coherent, Effects, ApplyAll, Fresh;
    if steps == [] {
      NothingIsOrderly(lib, boot);
    } else {
      var before := Run(lib, boot, steps[..|steps| - 1]);
      var last := steps[|steps| - 1];
      EveryRunIsCoherent(lib, boot, steps[..|steps| - 1]);
      var disk := ApplyAll(boot, before);
      var es := Effects(lib, disk, last.action);
      AttemptIsOrderly(lib, disk, last.action);
      var done := UpTo(es, last.cut);
      OrderlyPrefix(lib, disk, es, |done|);
      assert es[..|done|] == done;
      OrderlyInTurn(lib, boot, before, done);
      OrderlyKeepsCoherent(lib, disk, done);
      ApplyInTurn(boot, before, done);
    }
  }

  lemma NothingIsOrderly(lib: Libraries, disk: Files)
    ensures AllOrderly(lib, disk, []) && ApplyAll<Content, Message>(disk, []) == disk
  {
  }

  lemma {:induction false} OrderlyKeepsCoherent(lib: Libraries, disk: Files, es: Trace)
    requires Coherent(lib, disk) && AllOrderly(lib, disk, es)
    ensures Coherent(lib, ApplyAll(disk, es))
  {
    hide Coherent, Orderly;
    if es != [] {
      OrderlyKeepsCoherent(lib, disk, es[..|es| - 1]);
      EffectKeepsCoherent(lib, ApplyAll(disk, es[..|es| - 1]), es[|es| - 1]);
    }
  }

  // ---- every retry repeats its requests ----

  predicate SameTransaction(s: EnrollmentState, t: EnrollmentState) {
    && t.challengeRequestId == s.challengeRequestId && t.completionRequestId == s.completionRequestId
    && t.instanceId == s.instanceId && t.cloudAddress == s.cloudAddress
    && t.rootPublicKey == s.rootPublicKey && t.operationalPublicKey == s.operationalPublicKey
    && (s.challenge.Some? ==> t == s)
  }

  lemma {:induction false} OrderlyKeepsTransaction(lib: Libraries, disk: Files, es: Trace)
    requires AllOrderly(lib, disk, es) && StateIn(disk).Some?
    requires forall i :: 0 <= i < |es| ==> es[i] != Remove(STATE)
    ensures var after := ApplyAll(disk, es);
            && StateIn(after).Some? && SameTransaction(StateIn(disk).value, StateIn(after).value)
            && (OPERATIONAL_KEY in disk ==> OPERATIONAL_KEY in after && after[OPERATIONAL_KEY] == disk[OPERATIONAL_KEY])
            && (ROOT_KEY in disk ==> ROOT_KEY in after && after[ROOT_KEY] == disk[ROOT_KEY])
  {
    hide Bound, Installs, Speaks;
    if es != [] {
      var init, last := es[..|es| - 1], es[|es| - 1];
      OrderlyKeepsTransaction(lib, disk, init);
      EffectKeepsTransaction(lib, ApplyAll(disk, init), last);
    }
  }

  lemma EffectKeepsTransaction(lib: Libraries, disk: Files, e: Effect<Content, Message>)
    requires Orderly(lib, disk, e) && StateIn(disk).Some? && e != Remove(STATE)
    ensures var after := Apply(disk, e);
            && StateIn(after).Some? && SameTransaction(StateIn(disk).value, StateIn(after).value)
            && (OPERATIONAL_KEY in disk ==> OPERATIONAL_KEY in after && after[OPERATIONAL_KEY] == disk[OPERATIONAL_KEY])
            && (ROOT_KEY in disk ==> ROOT_KEY in after && after[ROOT_KEY] == disk[ROOT_KEY])
  {
    hide Bound, Speaks, Acceptable, MtlsText, IdentityFor;
  }

  lemma OrderlyAt(lib: Libraries, disk: Files, es: Trace, i: nat)
    requires AllOrderly(lib, disk, es) && i < |es|
    ensures AllOrderly(lib, disk, es[..i]) && Orderly(lib, ApplyAll(disk, es[..i]), es[i])
  {
    hide Orderly;
    OrderlyPrefix(lib, disk, es, i + 1);
    assert es[..i + 1][..i] == es[..i];
  }

  lemma {:induction false} OrderlySuffix(lib: Libraries, disk: Files, es: Trace, i: nat)
    requires AllOrderly(lib, disk, es) && i <= |es|
    ensures AllOrderly(lib, ApplyAll(disk, es[..i]), es[i..])
    decreases |es|
  {
    hide Orderly;
    if i < |es| {
      var init := es[..|es| - 1];
      OrderlySuffix(lib, disk, init, i);
      assert init[..i] == es[..i] && es[i..][..|es[i..]| - 1] == init[i..];
      ApplyInTurn(disk, es[..i], init[i..]);
      assert es[..i] + init[i..] == init;
    }
  }

  /** A run from position `i` to position `j`. */
  lemma {:induction false} Stretch(lib: Libraries, boot: Files, steps: seq<Step>, i: nat, j: nat)
    requires Coherent(lib, boot) && forall k :: 0 <= k < |steps| ==> Fresh(steps[k].action)
    requires i <= j <= |Run(lib, boot, steps)|
    ensures var t := Run(lib, boot, steps); var at := ApplyAll(boot, t[..i]);
            AllOrderly(lib, at, t[i..j]) && ApplyAll(boot, t[..j]) == ApplyAll(at, t[i..j])
  {
    hide AllOrderly, Coherent, Run, ApplyAll, Fresh;
    var t := Run(lib, boot, steps);
    EveryRunIsCoherent(lib, boot, steps);
    OrderlyPrefix(lib, boot, t, j);
    OrderlySuffix(lib, boot, t[..j], i);
    assert t[..j][..i] == t[..i] && t[..j][i..] == t[i..j];
    assert t[..j] == t[..i] + t[i..j];
    ApplyInTurn(boot, t[..i], t[i..j]);
  }

  /** Over every run: until the transaction is removed it keeps its identifiers and both private keys,
      and once it holds a challenge it does not change at all. */
  lemma {:induction false} TransactionStays(lib: Libraries, boot: Files, steps: seq<Step>, i: nat, j: nat)
    requires Coherent(lib, boot) && forall k :: 0 <= k < |steps| ==> Fresh(steps[k].action)
    requires var t := Run(lib, boot, steps);
             && i <= j <= |t| && StateIn(ApplyAll(boot, t[..i])).Some?
             && forall k :: i <= k < j ==> t[k] != Remove(STATE)
    ensures var t := Run(lib, boot, steps);
            var before, after := ApplyAll(boot, t[..i]), ApplyAll(boot, t[..j]);
            && StateIn(after).Some? && SameTransaction(StateIn(before).value, StateIn(after).value)
            && KeysMatch(lib, before, StateIn(before).value)
            && ROOT_KEY in after && OPERATIONAL_KEY in after
            && after[ROOT_KEY] == before[ROOT_KEY] && after[OPERATIONAL_KEY] == before[OPERATIONAL_KEY]
  {
    hide AllOrderly, Run, ApplyAll, Fresh, PublicKeyText, SameTransaction, ValidInstanceId, MetadataHash, AttestationHash;
    var t := Run(lib, boot, steps);
    Stretch(lib, boot, steps, 0, i);
    Stretch(lib, boot, steps, i, j);
    assert t[..0] == [] && t[0..i] == t[..i];
    NothingIsOrderly(lib, boot);
    OrderlyKeepsCoherent(lib, boot, t[..i]);
    var between := t[i..j];
    forall k | 0 <= k < |between| ensures between[k] != Remove(STATE) {
      assert between[k] == t[i + k];
    }
    OrderlyKeepsTransaction(lib, ApplyAll(boot, t[..i]), between);
  }

  /** Two requests of one transaction: the challenge is asked for under one request id for the same
      device, and a completion is repeated word for word, signature included. */
  lemma {:induction false} RetriesRepeatTheRequest(lib: Libraries, boot: Files, steps: seq<Step>, i: nat, j: nat)
    requires Coherent(lib, boot) && forall k :: 0 <= k < |steps| ==> Fresh(steps[k].action)
    requires var t := Run(lib, boot, steps);
             && i < j < |t| && t[i].Send? && t[j].Send?
             && forall k :: i < k < j ==> t[k] != Remove(STATE)
    ensures var m, n := Run(lib, boot, steps)[i].message, Run(lib, boot, steps)[j].message;
            && (m.Challenge? && n.Challenge? ==>
                  m.requestId == n.requestId && m.instanceId == n.instanceId && m.rootPublicKey == n.rootPublicKey
                  && m.operationalPublicKey == n.operationalPublicKey)
            && (m.Complete? ==> n == m)
  {
    hide AllOrderly, Coherent, Run, Orderly, ApplyAll, Fresh;
    var t := Run(lib, boot, steps);
    EveryRunIsCoherent(lib, boot, steps);
    OrderlyAt(lib, boot, t, i);
    OrderlyAt(lib, boot, t, j);
    Stretch(lib, boot, steps, i, j);
    var d, between := ApplyAll(boot, t[..i]), t[i..j];
    SendIsOrderly(lib, d, t[i].message);
    SendIsOrderly(lib, ApplyAll(d, between), t[j].message);
    forall k | 0 <= k < |between| ensures between[k] != Remove(STATE) {
      assert between[k] == t[i + k];
    }
    OrderlyKeepsTransaction(lib, d, between);
    SpeakingAgain(lib, d, ApplyAll(d, between), t[i].message, t[j].message);
  }

  lemma SendIsOrderly(lib: Libraries, disk: Files, m: Message)
    requires Orderly(lib, disk, Send(m))
    ensures StateIn(disk).Some? && Speaks(lib, disk, StateIn(disk).value, m)
  {
    hide Speaks;
  }

  lemma SpeakingAgain(lib: Libraries, d: Files, e: Files, m: Message, n: Message)
    requires StateIn(d).Some? && StateIn(e).Some? && SameTransaction(StateIn(d).value, StateIn(e).value)
    requires OPERATIONAL_KEY in d ==> OPERATIONAL_KEY in e && e[OPERATIONAL_KEY] == d[OPERATIONAL_KEY]
    requires Speaks(lib, d, StateIn(d).value, m) && Speaks(lib, e, StateIn(e).value, n)
    ensures m.Challenge? && n.Challenge? ==>
              m.requestId == n.requestId && m.instanceId == n.instanceId && m.rootPublicKey == n.rootPublicKey
              && m.operationalPublicKey == n.operationalPublicKey
    ensures m.Complete? ==> n == m
  {
    hide StateIn, TranscriptFields;
  }

  // ---- after enrollment ----

  lemma {:induction false} OrderlyAfterRegistration(lib: Libraries, disk: Files, es: Trace)
    requires AllOrderly(lib, disk, es) && IDENTITY in disk && STATE !in disk
    ensures ApplyAll(disk, es) - {BOOTSTRAP} == disk - {BOOTSTRAP}
  {
    hide Bound, Installs, Speaks;
    if es != [] {
      var init, last := es[..|es| - 1], es[|es| - 1];
      OrderlyAfterRegistration(lib, disk, init);
      var before := ApplyAll(disk, init);
      assert IDENTITY in before - {BOOTSTRAP} && STATE !in before - {BOOTSTRAP};
      NothingLeftToWrite(lib, before, last);
    }
  }

  lemma NothingLeftToWrite(lib: Libraries, disk: Files, e: Effect<Content, Message>)
    requires Orderly(lib, disk, e) && IDENTITY in disk && STATE !in disk
    ensures Apply(disk, e) - {BOOTSTRAP} == disk - {BOOTSTRAP}
  {
    hide Bound, Speaks;
  }

  /** Over every run: once the identity is there and the transaction gone, nothing but a new bootstrap
      document is ever written. */
  lemma {:induction false} RegisteredIsFinal(lib: Libraries, boot: Files, steps: seq<Step>, i: nat)
    requires Coherent(lib, boot) && forall k :: 0 <= k < |steps| ==> Fresh(steps[k].action)
    requires var t := Run(lib, boot, steps);
             i <= |t| && IDENTITY in ApplyAll(boot, t[..i]) && STATE !in ApplyAll(boot, t[..i])
    ensures var t := Run(lib, boot, steps);
            ApplyAll(boot, t) - {BOOTSTRAP} == ApplyAll(boot, t[..i]) - {BOOTSTRAP}
  {
    hide AllOrderly, Run, ApplyAll, Fresh, Coherent;
    var t := Run(lib, boot, steps);
    Stretch(lib, boot, steps, i, |t|);
    assert t[..|t|] == t;
    OrderlyAfterRegistration(lib, ApplyAll(boot, t[..i]), t[i..|t|]);
  }
}
