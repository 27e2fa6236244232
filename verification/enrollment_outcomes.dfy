/** How each part of an enrollment attempt that is not cut short ends: what it leaves on the disk, what it sends,
    and why it stops. */
module EnrollmentOutcomes {
  import opened Bytes
  import opened Enrollment
  import opened EnrollmentRuns
  import opened Framing
  import opened Host
  import opened Text
  import opened Wrappers

  function Messages(es: Trace): seq<Message> {
    if es == [] then [] else Messages(es[..|es| - 1]) + if es[|es| - 1].Send? then [es[|es| - 1].message] else []
  }

  lemma {:induction false} MessagesAdd(a: Trace, b: Trace)
    ensures Messages(a + b) == Messages(a) + Messages(b)
  {
    if b == [] {
      assert a + b == a;
    } else {
      assert (a + b)[..|a + b| - 1] == a + b[..|b| - 1];
      MessagesAdd(a, b[..|b| - 1]);
    }
  }

  /** One more effect. */
  lemma Then(disk: Files, es: Trace, e: Effect<Content, Message>)
    ensures ApplyAll(disk, es + [e]) == Apply(ApplyAll(disk, es), e)
    ensures Messages(es + [e]) == Messages(es) + if e.Send? then [e.message] else []
  {
    ApplyOneMore(disk, es, e);
    assert (es + [e])[..|es|] == es;
  }

  lemma Nothing(disk: Files)
    ensures ApplyAll<Content, Message>(disk, []) == disk && Messages([]) == []
  {
  }

  /** What an effect list says and leaves. */
  ghost predicate Does(disk: Files, es: Trace, messages: seq<Message>, after: Files) {
    Messages(es) == messages && ApplyAll(disk, es) == after
  }

  // ---- opening ----

  /** A name of one to 200 bytes in UTF-8 without control characters. */
  predicate NameFits(lib: Libraries, name: string) {
    name != "" && |lib.utf8(name)| <= 200
    && forall i :: 0 <= i < |name| ==> 32 <= name[i] as int < 127 || 160 <= name[i] as int
  }

  lemma NameFitsExactly(lib: Libraries, name: string)
    ensures NameFits(lib, name) <==> ValidDisplayName(lib, name)
  {
  }

  /** One to 120 letters, digits, dots, underscores, colons and hyphens. */
  lemma InstanceIdExactly(id: string)
    ensures ValidInstanceId(id) <==>
            0 < |id| <= 120 && forall i :: 0 <= i < |id| ==>
              || ('0' <= id[i] <= '9') || ('a' <= id[i] <= 'z') || ('A' <= id[i] <= 'Z')
              || id[i] == '.' || id[i] == '_' || id[i] == ':' || id[i] == '-'
  {
  }

  /** What the two hashes are made of. */
  lemma HashesExactly(lib: Libraries, id: string, name: string)
    ensures MetadataHash(lib, id, name)
         == lib.encode(lib.sha(Fields([Ascii("candy/device-enrollment-metadata/v1"), lib.utf8(id), lib.utf8(name)], 8)))
    ensures AttestationHash(lib, id)
         == lib.encode(lib.sha(Fields([Ascii("candy/device-software-attestation/unavailable/v1"), lib.utf8(id)], 8)))
  {
  }

  /** Nothing happens without a bootstrap document, on a registered device, or over a state that cannot be read
      or belongs to another installation. */
  lemma StopsAtOnce(lib: Libraries, disk: Files, a: Attempt)
    ensures (BOOTSTRAP in disk ==> !disk[BOOTSTRAP].BootstrapDoc?) ==> Enrolled(lib, disk, a) == Plan([], Err(NoBootstrap))
    ensures BOOTSTRAP in disk && disk[BOOTSTRAP].BootstrapDoc? && STATE !in disk && IDENTITY in disk ==>
              Enrolled(lib, disk, a) == Plan([], Err(AlreadyRegistered))
    ensures BOOTSTRAP in disk && disk[BOOTSTRAP].BootstrapDoc? && STATE in disk && !disk[STATE].StateDoc? ==>
              Enrolled(lib, disk, a) == Plan([], Err(UnreadableState))
    ensures BOOTSTRAP in disk && disk[BOOTSTRAP].BootstrapDoc? && STATE in disk && disk[STATE].StateDoc?
            && (!ValidInstanceId(disk[STATE].state.instanceId)
                || (INSTANCE in disk && disk[INSTANCE] != InstanceDoc(disk[STATE].state.instanceId))) ==>
              Enrolled(lib, disk, a) == Plan([], Err(InvalidInstance))
    ensures BOOTSTRAP in disk && disk[BOOTSTRAP].BootstrapDoc? && STATE !in disk && IDENTITY !in disk && !NameFits(lib, a.displayName) ==>
              Enrolled(lib, disk, a) == Plan([], Err(InvalidName))
  {
    hide ValidInstanceId, ValidDisplayName, Continued, NameFits;
    NameFitsExactly(lib, a.displayName);
    Nothing(disk);
  }

  /** The id of this installation: the stored one if it is in order, otherwise a new one. */
  function ThisInstallation(disk: Files, a: Attempt): string {
    if INSTANCE in disk && disk[INSTANCE].InstanceDoc? then disk[INSTANCE].id else "candy-" + a.instanceUuid
  }

  /** A first attempt makes both keys, the installation id if there is none, and the transaction, in this order
      and without a word. */
  lemma Begins(lib: Libraries, disk: Files, cloud: string, a: Attempt)
    requires STATE !in disk && NameFits(lib, a.displayName)
    requires INSTANCE in disk ==> disk[INSTANCE].InstanceDoc? && ValidInstanceId(disk[INSTANCE].id)
    ensures var o := Open(lib, disk, cloud, a); var id := ThisInstallation(disk, a);
            var s := EnrollmentState(
              1, cloud, id, a.displayName, None, None, "challenge-" + a.challengeUuid, "complete-" + a.completionUuid,
              lib.encode(lib.publicKey(a.rootSecret)), lib.encode(lib.publicKey(a.operationalSecret)),
              MetadataHash(lib, id, a.displayName), AttestationHash(lib, id), None);
            && o.state == Ok(s)
            && Does(disk, o.effects, [],
                    disk[ROOT_KEY := PrivateKey(a.rootSecret)][OPERATIONAL_KEY := PrivateKey(a.operationalSecret)]
                        [INSTANCE := InstanceDoc(id)][STATE := StateDoc(s)])
            && (forall i :: 0 <= i < |o.effects| - 1 ==> o.effects[i].Replace? && o.effects[i].name != STATE)
  {
    hide ValidInstanceId, ValidDisplayName, MetadataHash, AttestationHash, ApplyAll, Messages, NameFits;
    NameFitsExactly(lib, a.displayName);
    var o, id := Open(lib, disk, cloud, a), ThisInstallation(disk, a);
    var s := o.state.value;
    var root: Effect<Content, Message> := Replace(ROOT_KEY, PrivateKey(a.rootSecret));
    var operational: Effect<Content, Message> := Replace(OPERATIONAL_KEY, PrivateKey(a.operationalSecret));
    var instance: Effect<Content, Message> := Replace(INSTANCE, InstanceDoc(id));
    var state: Effect<Content, Message> := Replace(STATE, StateDoc(s));
    Nothing(disk);
    Then(disk, [], root);
    Then(disk, [] + [root], operational);
    Then(disk, [] + [root] + [operational], instance);
    Then(disk, [] + [root] + [operational] + [instance], state);
    Then(disk, [] + [root] + [operational], state);
    NamesDiffer();
    if INSTANCE in disk {
      assert o.effects == [] + [root] + [operational] + [state];
      var keyed := disk[ROOT_KEY := PrivateKey(a.rootSecret)][OPERATIONAL_KEY := PrivateKey(a.operationalSecret)];
      assert keyed[INSTANCE := InstanceDoc(id)] == keyed;
    } else {
      assert o.effects == [] + [root] + [operational] + [instance] + [state];
    }
  }

  lemma NamesDiffer()
    ensures INSTANCE != ROOT_KEY && INSTANCE != OPERATIONAL_KEY && ROOT_KEY != OPERATIONAL_KEY
    ensures STATE !in [INSTANCE, ROOT_KEY, OPERATIONAL_KEY]
  {
  }

  /** A resumed one restores the installation id, and goes on with its transaction for the same Cloud only. */
  lemma Resumes(lib: Libraries, disk: Files, cloud: string, a: Attempt)
    requires STATE in disk && disk[STATE].StateDoc? && ValidInstanceId(disk[STATE].state.instanceId)
    requires INSTANCE in disk ==> disk[INSTANCE] == InstanceDoc(disk[STATE].state.instanceId)
    ensures var o := Open(lib, disk, cloud, a); var s := disk[STATE].state;
            && o.state == (if s.cloudAddress == cloud then Ok(s) else Err(OtherCloud))
            && Does(disk, o.effects, [], disk[INSTANCE := InstanceDoc(s.instanceId)])
  {
    hide ValidInstanceId, ApplyAll, Messages;
    var instance: Effect<Content, Message> := Replace(INSTANCE, InstanceDoc(disk[STATE].state.instanceId));
    Nothing(disk);
    Then(disk, [], instance);
    assert [] + [instance] == [instance];
    assert INSTANCE in disk ==> disk[INSTANCE := InstanceDoc(disk[STATE].state.instanceId)] == disk;
  }

  // ---- asking ----

  /** Both private keys are there and are those of the transaction. */
  predicate KeysFit(lib: Libraries, disk: Files, s: EnrollmentState) {
    && ROOT_KEY in disk && disk[ROOT_KEY].PrivateKey? && lib.encode(lib.publicKey(disk[ROOT_KEY].secret)) == s.rootPublicKey
    && OPERATIONAL_KEY in disk && disk[OPERATIONAL_KEY].PrivateKey?
    && lib.encode(lib.publicKey(disk[OPERATIONAL_KEY].secret)) == s.operationalPublicKey
  }

  /** Without its keys a transaction asks for nothing. */
  lemma KeysFirst(lib: Libraries, keys: Files, s: EnrollmentState, a: Attempt)
    ensures !KeysFit(lib, keys, s) ==>
              && Continued(lib, keys, s, a).effects == []
              && Continued(lib, keys, s, a).result in [Err(MissingKey), Err(KeyMismatch)]
    ensures Continued(lib, keys, s, a).result == Err(MissingKey) <==>
              !(ROOT_KEY in keys && keys[ROOT_KEY].PrivateKey? && OPERATIONAL_KEY in keys && keys[OPERATIONAL_KEY].PrivateKey?)
  {
    hide ValidInstanceId, Challenged;
    ChallengeNeverMissesKeys(lib, s, a);
    if KeysFit(lib, keys, s) && Challenged(lib, s, a).state.Ok? && Challenged(lib, s, a).state.value.challenge.Some? {
      CompletionNeverMissesKeys(lib, Challenged(lib, s, a).state.value, keys[OPERATIONAL_KEY].secret, a);
    }
  }

  lemma ChallengeNeverMissesKeys(lib: Libraries, s: EnrollmentState, a: Attempt)
    ensures Challenged(lib, s, a).state != Err(MissingKey)
  {
    hide ValidDisplayName, MetadataHash;
  }

  lemma CompletionNeverMissesKeys(lib: Libraries, s: EnrollmentState, secret: seq<byte>, a: Attempt)
    requires s.challenge.Some?
    ensures Completion(lib, s, secret, a).result != Err(MissingKey)
  {
    hide Acceptable, TranscriptFields, Installation;
  }

  /** The manifest's name, tenant and site, and the metadata hash that goes with the name. */
  function Named(lib: Libraries, s: EnrollmentState, m: Manifest): EnrollmentState {
    s.(displayName := m.displayName, tenantId := Some(m.tenantId), siteId := Some(m.siteId),
       metadataHash := MetadataHash(lib, s.instanceId, m.displayName))
  }

  /** Without a challenge the manifest is fetched first; what it says is stored before the challenge is asked for,
      and the challenge before anything else; a challenge with a nonce that is not 32 bytes is not stored. */
  lemma AsksForChallenge(lib: Libraries, disk: Files, s: EnrollmentState, a: Attempt)
    requires s.challenge.None?
    ensures var o := Challenged(lib, s, a);
            if a.manifest.None? || !NameFits(lib, a.manifest.value.displayName) then
              o.state == Err(ExchangeFailed) && Does(disk, o.effects, [Exchange(s.instanceId)], disk)
            else
              var n := Named(lib, s, a.manifest.value);
              var asked := [Exchange(s.instanceId),
                            Challenge(s.challengeRequestId, s.instanceId, n.displayName, s.rootPublicKey, s.operationalPublicKey,
                                      n.metadataHash, s.attestationHash)];
              if a.challenge.None? || lib.decode(a.challenge.value.serverNonce).None?
                 || |lib.decode(a.challenge.value.serverNonce).value| != 32
              then o.state == Err(ChallengeFailed) && Does(disk, o.effects, asked, disk[STATE := StateDoc(n)])
              else
                var done := n.(challenge := a.challenge);
                && o.state == Ok(done) && Does(disk, o.effects, asked, disk[STATE := StateDoc(done)])
                && |o.effects| == 4 && o.effects[1] == Replace(STATE, StateDoc(n))
  {
    hide ValidDisplayName, MetadataHash, ApplyAll, Messages, NameFits;
    var exchange: Effect<Content, Message> := Send(Exchange(s.instanceId));
    Nothing(disk);
    Then(disk, [], exchange);
    assert [] + [exchange] == [exchange];
    if a.manifest.Some? {
      NameFitsExactly(lib, a.manifest.value.displayName);
      var n := Named(lib, s, a.manifest.value);
      var renamed: Effect<Content, Message> := Replace(STATE, StateDoc(n));
      var ask: Effect<Content, Message> := Send(ChallengeFor(n));
      var done: Effect<Content, Message> := Replace(STATE, StateDoc(n.(challenge := a.challenge)));
      Then(disk, [exchange], renamed);
      Then(disk, [exchange] + [renamed], ask);
      Then(disk, [exchange] + [renamed] + [ask], done);
      assert [exchange] + [renamed, ask] == [exchange] + [renamed] + [ask];
    }
  }

  /** A challenge that is stored is kept, and nothing is asked. */
  lemma KeepsChallenge(lib: Libraries, s: EnrollmentState, a: Attempt)
    requires s.challenge.Some?
    ensures Challenged(lib, s, a) == Opening([], Ok(s))
  {
  }

  // ---- completing ----

  /** The certificate is one to a mebibyte of DER, behind a chain that holds, for this key. */
  predicate CertificateFits(lib: Libraries, secret: seq<byte>, c: Completed) {
    0 < |c.der| <= 1_048_576 && lib.validChain(c.chain) && lib.validCertificate(c.der, lib.publicKey(secret), c)
  }

  /** The PEM file a TLS client loads: certificate, chain, one line end, key. */
  function ClientPem(lib: Libraries, c: Completed, secret: seq<byte>): string {
    lib.certificatePem(c.der) + (if c.chain != "" && c.chain[|c.chain| - 1] == '\n' then c.chain else c.chain + "\n") + lib.keyPem(secret)
  }

  /** The signed proof is sent once. An acceptable answer is installed, and then transaction and bootstrap document
      are gone; with any other the transaction stays as it is. */
  lemma CompletionEnds(lib: Libraries, disk: Files, s: EnrollmentState, secret: seq<byte>, a: Attempt)
    requires s.challenge.Some? && TranscriptFields(lib, s, s.challenge.value).Some?
    ensures var p := Completion(lib, s, secret, a); var c := lib.answer(s.completionRequestId, a.nonce);
            var transcript := Fields(TranscriptFields(lib, s, s.challenge.value).value, 2);
            var sent := [Complete(s.challenge.value.challengeId, s.completionRequestId, lib.encode(lib.sign(secret, transcript)))];
            if a.completes && CertificateFits(lib, secret, c) then
              && p.result == Ok(())
              && Does(disk, p.effects, sent,
                      disk[CERTIFICATE_DER := Raw(c.der)][CERTIFICATE_PEM := PemText(lib.certificatePem(c.der))]
                          [CHAIN := PemText(c.chain)][MTLS := PemText(ClientPem(lib, c, secret))]
                          [IDENTITY := IdentityDoc(DeviceIdentity(
                             s.cloudAddress, s.challenge.value.organizationId, s.tenantId, s.siteId, s.displayName,
                             c.deviceId, c.deviceKeyId, c.notAfter))]
                      - {STATE} - {BOOTSTRAP})
            else p.result == Err(CompletionFailed) && Does(disk, p.effects, sent, disk)
  {
    hide TranscriptFields, Fields, ApplyAll, Messages;
    var c := lib.answer(s.completionRequestId, a.nonce);
    var transcript := Fields(TranscriptFields(lib, s, s.challenge.value).value, 2);
    var e0: Effect<Content, Message> :=
      Send(Complete(s.challenge.value.challengeId, s.completionRequestId, lib.encode(lib.sign(secret, transcript))));
    var es := Installation(lib, s, secret, c);
    Nothing(disk);
    Then(disk, [], e0);
    assert [] + [e0] == [e0];
    if a.completes && CertificateFits(lib, secret, c) {
      Then(disk, [e0], es[0]);
      Then(disk, [e0] + [es[0]], es[1]);
      Then(disk, [e0] + [es[0]] + [es[1]], es[2]);
      Then(disk, [e0] + [es[0]] + [es[1]] + [es[2]], es[3]);
      Then(disk, [e0] + [es[0]] + [es[1]] + [es[2]] + [es[3]], es[4]);
      Then(disk, [e0] + [es[0]] + [es[1]] + [es[2]] + [es[3]] + [es[4]], es[5]);
      Then(disk, [e0] + [es[0]] + [es[1]] + [es[2]] + [es[3]] + [es[4]] + [es[5]], es[6]);
      assert Completion(lib, s, secret, a).effects
          == [e0] + [es[0]] + [es[1]] + [es[2]] + [es[3]] + [es[4]] + [es[5]] + [es[6]];
    }
  }

  /** A transcript needs 32 bytes of nonce, keys and hashes; without them nothing is sent. */
  lemma TranscriptNeeded(lib: Libraries, s: EnrollmentState, secret: seq<byte>, a: Attempt)
    requires s.challenge.Some?
    ensures TranscriptFields(lib, s, s.challenge.value).None? ==> Completion(lib, s, secret, a) == Plan([], Err(TranscriptFailed))
    ensures TranscriptFields(lib, s, s.challenge.value).None? <==>
              exists text :: text in [s.challenge.value.serverNonce, s.rootPublicKey, s.operationalPublicKey, s.metadataHash, s.attestationHash]
                             && (lib.decode(text).None? || |lib.decode(text).value| != 32)
  {
    hide Fields;
    var texts := [s.challenge.value.serverNonce, s.rootPublicKey, s.operationalPublicKey, s.metadataHash, s.attestationHash];
    assert texts[0] in texts && texts[1] in texts && texts[2] in texts && texts[3] in texts && texts[4] in texts;
  }

  /** The parts follow each other: opening, the challenge, the completion, each on what the one before left. */
  lemma InTurn(lib: Libraries, disk: Files, a: Attempt)
    requires BOOTSTRAP in disk && disk[BOOTSTRAP].BootstrapDoc? && (STATE in disk || IDENTITY !in disk)
    requires var o := Open(lib, disk, disk[BOOTSTRAP].cloudAddress, a);
             && o.state.Ok? && ValidInstanceId(o.state.value.instanceId)
             && KeysFit(lib, ApplyAll(disk, o.effects), o.state.value)
    ensures var o := Open(lib, disk, disk[BOOTSTRAP].cloudAddress, a); var keys := ApplyAll(disk, o.effects);
            var c := Challenged(lib, o.state.value, a); var p := Enrolled(lib, disk, a);
            if c.state.Err? then p == Plan(o.effects + c.effects, Err(c.state.error))
            else if c.state.value.challenge.None? then p == Plan(o.effects + c.effects, Err(ChallengeFailed))
            else
              var last := Completion(lib, c.state.value, keys[OPERATIONAL_KEY].secret, a);
              p == Plan(o.effects + (c.effects + last.effects), last.result)
  {
    hide ValidInstanceId, Challenged, Completion, Open, ApplyAll;
  }
}
