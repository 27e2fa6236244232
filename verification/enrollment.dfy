/** Device enrollment as a resumable protocol: keys, then the transaction state, then the exchange
    with the Cloud, then the certificate files and, last, the identity document. */
module Enrollment {
  import opened Bytes
  import opened Framing
  import opened Host
  import opened Text
  import opened Wrappers

  const STATE := "enrollment-v1.json"
  const INSTANCE := "installation-instance-id"
  const ROOT_KEY := "root-key.pem"
  const OPERATIONAL_KEY := "operational-key.pem"
  const CERTIFICATE_DER := "device-cert.der"
  const CERTIFICATE_PEM := "device-cert.pem"
  const CHAIN := "device-chain.pem"
  const MTLS := "device-mtls.pem"
  const IDENTITY := "device-identity-v1.json"
  const BOOTSTRAP := "bootstrap"

  const MAX_RESPONSE_BYTES: nat := 1024 * 1024

  datatype ChallengeState = ChallengeState(
    challengeId: Bytes16, organizationId: Bytes16, serverNonce: string, expiresAt: string)

  datatype EnrollmentState = EnrollmentState(
    schemaVersion: nat, cloudAddress: string, instanceId: string, displayName: string,
    tenantId: Option<Bytes16>, siteId: Option<Bytes16>, challengeRequestId: string, completionRequestId: string,
    rootPublicKey: string, operationalPublicKey: string, metadataHash: string, attestationHash: string,
    challenge: Option<ChallengeState>)

  datatype DeviceIdentity = DeviceIdentity(
    cloudAddress: string, organizationId: Bytes16, tenantId: Option<Bytes16>, siteId: Option<Bytes16>,
    displayName: string, deviceId: Bytes16, deviceKeyId: Bytes16, notAfter: string)

  datatype Content =
    | StateDoc(state: EnrollmentState)
    | InstanceDoc(id: string)
    | PrivateKey(secret: seq<byte>)
    | Raw(bytes: seq<byte>)
    | PemText(text: string)
    | IdentityDoc(identity: DeviceIdentity)
    | BootstrapDoc(cloudAddress: string)
    | Garbage

  datatype Message =
    | Exchange(instanceId: string)
    | Challenge(requestId: string, instanceId: string, displayName: string, rootPublicKey: string,
                operationalPublicKey: string, metadataHash: string, attestationHash: string)
    | Complete(challengeId: Bytes16, requestId: string, proof: string)

  datatype Manifest = Manifest(displayName: string, tenantId: Bytes16, siteId: Bytes16)

  datatype Completed = Completed(
    deviceId: Bytes16, deviceKeyId: Bytes16, der: seq<byte>, chain: string, notAfter: string)

  /** Cryptography, UTF-8, base64url, X.509 checks, and how the Cloud answers a completion; `nonce` lets two
      answers to one request differ. */
  datatype Libraries = Libraries(
    sha: seq<byte> -> Bytes32,
    utf8: string -> seq<byte>,
    encode: seq<byte> -> string,
    decode: string -> Option<seq<byte>>,
    publicKey: seq<byte> -> seq<byte>,
    sign: (seq<byte>, seq<byte>) -> seq<byte>,
    keyPem: seq<byte> -> string,
    certificatePem: seq<byte> -> string,
    validChain: string -> bool,
    validCertificate: (seq<byte>, seq<byte>, Completed) -> bool,
    answer: (string, nat) -> Completed)
  {
    /** Texts are encoded without loss, ASCII as itself. */
    ghost predicate EncodesText() {
      && (forall s, t :: utf8(s) == utf8(t) ==> s == t)
      && forall s :: IsAscii(s) ==> utf8(s) == Ascii(s)
    }
  }

  /** One invocation: its arguments, fresh random values and the replies that arrive. */
  datatype Attempt = Attempt(
    displayName: string, rootSecret: seq<byte>, operationalSecret: seq<byte>,
    instanceUuid: string, challengeUuid: string, completionUuid: string,
    manifest: Option<Manifest>, challenge: Option<ChallengeState>, completes: bool, nonce: nat)

  datatype Failure =
    | NoBootstrap | AlreadyRegistered | UnreadableState | InvalidInstance | OtherCloud | InvalidName | MissingKey
    | KeyMismatch | ExchangeFailed | ChallengeFailed | TranscriptFailed | CompletionFailed

  type Files = Disk<Content>
  type Trace = seq<Effect<Content, Message>>

  datatype Plan = Plan(effects: Trace, result: Result<(), Failure>)

  // ---- derived values ----

  const TRANSCRIPT_DOMAIN := "candy/device-enrollment/v1"
  const METADATA_DOMAIN := "candy/device-enrollment-metadata/v1"
  const ATTESTATION_DOMAIN := "candy/device-software-attestation/unavailable/v1"

  function HashFields(lib: Libraries, fs: seq<seq<byte>>): Bytes32 {
    lib.sha(Fields(fs, 8))
  }

  function MetadataFields(lib: Libraries, instanceId: string, displayName: string): seq<seq<byte>> {
    [Ascii(METADATA_DOMAIN), lib.utf8(instanceId), lib.utf8(displayName)]
  }

  function MetadataHash(lib: Libraries, instanceId: string, displayName: string): string {
    lib.encode(HashFields(lib, MetadataFields(lib, instanceId, displayName)))
  }

  function AttestationHash(lib: Libraries, instanceId: string): string {
    lib.encode(HashFields(lib, [Ascii(ATTESTATION_DOMAIN), lib.utf8(instanceId)]))
  }

  function PublicKeyText(lib: Libraries, secret: seq<byte>): string {
    lib.encode(lib.publicKey(secret))
  }

  /** `char::is_control`. */
  predicate IsControl(c: char) {
    c as int < 32 || 127 <= c as int < 160
  }

  /** One to 200 bytes of UTF-8 without control characters. */
  predicate ValidDisplayName(lib: Libraries, name: string) {
    0 < |name| && |lib.utf8(name)| <= 200 && forall i :: 0 <= i < |name| ==> !IsControl(name[i])
  }

  predicate ValidInstanceId(id: string) {
    && 0 < |id| <= 120
    && forall i :: 0 <= i < |id| ==>
         '0' <= id[i] <= '9' || 'a' <= id[i] <= 'z' || 'A' <= id[i] <= 'Z' || id[i] in ['.', '_', ':', '-']
  }

  function Decode32(lib: Libraries, text: string): Option<seq<byte>> {
    if lib.decode(text).Some? && |lib.decode(text).value| == 32 then lib.decode(text) else None
  }

  /** The eight fields the device signs. */
  function TranscriptFields(lib: Libraries, s: EnrollmentState, c: ChallengeState): Option<seq<seq<byte>>> {
    var nonce, root, operational := Decode32(lib, c.serverNonce), Decode32(lib, s.rootPublicKey),
                                    Decode32(lib, s.operationalPublicKey);
    var metadata, attestation := Decode32(lib, s.metadataHash), Decode32(lib, s.attestationHash);
    if nonce.None? || root.None? || operational.None? || metadata.None? || attestation.None? then None
    else Some([Ascii(TRANSCRIPT_DOMAIN), c.challengeId, nonce.value, root.value, operational.value, c.organizationId,
               metadata.value, attestation.value])
  }

  method EncodeTranscript(lib: Libraries, s: EnrollmentState, c: ChallengeState) returns (t: Option<seq<byte>>)
    ensures t == match TranscriptFields(lib, s, c) case Some(fs) => Some(Fields(fs, 2)) case None => None
  {
    var fields := TranscriptFields(lib, s, c);
    if fields.None? {
      return None;
    }
    var bytes := WriteFields(fields.value, 2);
    t := Some(bytes);
  }

  /** The signed transcript determines every field: the challenge, the nonce, both keys, the
      organization and both hashes. */
  lemma TranscriptInjective(lib: Libraries, s: EnrollmentState, c: ChallengeState, r: EnrollmentState, d: ChallengeState)
    requires TranscriptFields(lib, s, c).Some? && TranscriptFields(lib, r, d).Some?
    requires Fields(TranscriptFields(lib, s, c).value, 2) == Fields(TranscriptFields(lib, r, d).value, 2)
    ensures c.challengeId == d.challengeId && c.organizationId == d.organizationId
    ensures lib.decode(c.serverNonce) == lib.decode(d.serverNonce)
    ensures lib.decode(s.rootPublicKey) == lib.decode(r.rootPublicKey)
    ensures lib.decode(s.operationalPublicKey) == lib.decode(r.operationalPublicKey)
    ensures lib.decode(s.metadataHash) == lib.decode(r.metadataHash)
    ensures lib.decode(s.attestationHash) == lib.decode(r.attestationHash)
  {
    hide Fields;
    Widths();
    var a, b := TranscriptFields(lib, s, c).value, TranscriptFields(lib, r, d).value;
    FieldsInjective(a, b, 2);
    assert a[1] == b[1] && a[2] == b[2] && a[3] == b[3] && a[4] == b[4];
    assert a[5] == b[5] && a[6] == b[6] && a[7] == b[7];
  }

  lemma InstanceIdIsAscii(id: string)
    requires ValidInstanceId(id)
    ensures IsAscii(id) && |Ascii(id)| <= 120
  {
  }

  /** The metadata hash binds the instance id and the display name, whatever script the name is in. */
  lemma {:induction false} MetadataInjective(lib: Libraries, a: string, x: string, b: string, y: string)
    requires lib.EncodesText() && forall p, q :: lib.encode(p) == lib.encode(q) ==> p == q
    requires NoCollision(lib.sha, Fields(MetadataFields(lib, a, x), 8), Fields(MetadataFields(lib, b, y), 8))
    requires ValidInstanceId(a) && ValidInstanceId(b) && ValidDisplayName(lib, x) && ValidDisplayName(lib, y)
    requires MetadataHash(lib, a, x) == MetadataHash(lib, b, y)
    ensures a == b && x == y
  {
    hide Fields, Ascii, ValidInstanceId, IsAscii;
    Widths();
    InstanceIdIsAscii(a);
    InstanceIdIsAscii(b);
    var f, g := MetadataFields(lib, a, x), MetadataFields(lib, b, y);
    assert forall i :: 0 <= i < 3 ==> |f[i]| < Pow256(8) && |g[i]| < Pow256(8);
    FieldsInjective(f, g, 8);
    assert f[1] == g[1] && f[2] == g[2];
  }

  // ---- one invocation ----

  function InstanceOf(disk: Files, a: Attempt): Option<string> {
    if INSTANCE !in disk then Some("candy-" + a.instanceUuid)
    else if disk[INSTANCE].InstanceDoc? && ValidInstanceId(disk[INSTANCE].id) then Some(disk[INSTANCE].id)
    else None
  }

  function NewState(lib: Libraries, cloud: string, instanceId: string, a: Attempt): EnrollmentState {
    EnrollmentState(
      1, cloud, instanceId, a.displayName, None, None, "challenge-" + a.challengeUuid, "complete-" + a.completionUuid,
      PublicKeyText(lib, a.rootSecret), PublicKeyText(lib, a.operationalSecret),
      MetadataHash(lib, instanceId, a.displayName), AttestationHash(lib, instanceId), None)
  }

  /** Starting or resuming the transaction: what is written, and the state it continues with. */
  datatype Opening = Opening(effects: Trace, state: Result<EnrollmentState, Failure>)

  function Open(lib: Libraries, disk: Files, cloud: string, a: Attempt): Opening {
    if STATE in disk then
      if !disk[STATE].StateDoc? then Opening([], Err(UnreadableState))
      else
        var s := disk[STATE].state;
        if !ValidInstanceId(s.instanceId) then Opening([], Err(InvalidInstance))
        else if INSTANCE in disk && disk[INSTANCE] != InstanceDoc(s.instanceId) then Opening([], Err(InvalidInstance))
        else
          var kept := if INSTANCE in disk then [] else [Replace(INSTANCE, InstanceDoc(s.instanceId))];
          Opening(kept, if s.cloudAddress != cloud then Err(OtherCloud) else Ok(s))
    else if !ValidDisplayName(lib, a.displayName) then Opening([], Err(InvalidName))
    else
      var keys := [Replace(ROOT_KEY, PrivateKey(a.rootSecret)), Replace(OPERATIONAL_KEY, PrivateKey(a.operationalSecret))];
      match InstanceOf(disk, a)
      case None => Opening(keys, Err(InvalidInstance))
      case Some(id) =>
        var s := NewState(lib, cloud, id, a);
        Opening(keys + ((if INSTANCE in disk then [] else [Replace(INSTANCE, InstanceDoc(id))])
                        + [Replace(STATE, StateDoc(s))]), Ok(s))
  }

  predicate KeysMatch(lib: Libraries, disk: Files, s: EnrollmentState) {
    && ROOT_KEY in disk && disk[ROOT_KEY].PrivateKey? && PublicKeyText(lib, disk[ROOT_KEY].secret) == s.rootPublicKey
    && OPERATIONAL_KEY in disk && disk[OPERATIONAL_KEY].PrivateKey?
    && PublicKeyText(lib, disk[OPERATIONAL_KEY].secret) == s.operationalPublicKey
  }

  function Renamed(lib: Libraries, s: EnrollmentState, m: Manifest): EnrollmentState {
    s.(displayName := m.displayName, tenantId := Some(m.tenantId), siteId := Some(m.siteId),
       metadataHash := MetadataHash(lib, s.instanceId, m.displayName))
  }

  function ChallengeFor(s: EnrollmentState): Message {
    Challenge(s.challengeRequestId, s.instanceId, s.displayName, s.rootPublicKey, s.operationalPublicKey,
              s.metadataHash, s.attestationHash)
  }

  /** Obtaining the challenge, if the state does not hold one yet. */
  function Challenged(lib: Libraries, s: EnrollmentState, a: Attempt): Opening {
    if s.challenge.Some? then Opening([], Ok(s))
    else
      var asked := [Send(Exchange(s.instanceId))];
      if a.manifest.None? || !ValidDisplayName(lib, a.manifest.value.displayName) then Opening(asked, Err(ExchangeFailed))
      else
        var named := Renamed(lib, s, a.manifest.value);
        var challenged := asked + [Replace(STATE, StateDoc(named)), Send(ChallengeFor(named))];
        if a.challenge.None? || Decode32(lib, a.challenge.value.serverNonce).None?
        then Opening(challenged, Err(ChallengeFailed))
        else
          var done := named.(challenge := a.challenge);
          Opening(challenged + [Replace(STATE, StateDoc(done))], Ok(done))
  }

  function WithNewline(text: string): string {
    if text != "" && text[|text| - 1] == '\n' then text else text + "\n"
  }

  function MtlsText(lib: Libraries, c: Completed, secret: seq<byte>): string {
    lib.certificatePem(c.der) + WithNewline(c.chain) + lib.keyPem(secret)
  }

  function IdentityFor(s: EnrollmentState, c: Completed): DeviceIdentity
    requires s.challenge.Some?
  {
    DeviceIdentity(s.cloudAddress, s.challenge.value.organizationId, s.tenantId, s.siteId, s.displayName,
                   c.deviceId, c.deviceKeyId, c.notAfter)
  }

  predicate Acceptable(lib: Libraries, secret: seq<byte>, c: Completed) {
    0 < |c.der| <= MAX_RESPONSE_BYTES && lib.validChain(c.chain)
    && lib.validCertificate(c.der, lib.publicKey(secret), c)
  }

  /** The certificate files, the identity document, and the end of the transaction. */
  function Installation(lib: Libraries, s: EnrollmentState, secret: seq<byte>, c: Completed): Trace
    requires s.challenge.Some?
  {
    [Replace(CERTIFICATE_DER, Raw(c.der)), Replace(CERTIFICATE_PEM, PemText(lib.certificatePem(c.der))),
     Replace(CHAIN, PemText(c.chain)), Replace(MTLS, PemText(MtlsText(lib, c, secret))),
     Replace(IDENTITY, IdentityDoc(IdentityFor(s, c))), Remove(STATE), Remove(BOOTSTRAP)]
  }

  function Completion(lib: Libraries, s: EnrollmentState, secret: seq<byte>, a: Attempt): Plan
    requires s.challenge.Some?
  {
    var fields := TranscriptFields(lib, s, s.challenge.value);
    if fields.None? then Plan([], Err(TranscriptFailed))
    else
      var proof := lib.encode(lib.sign(secret, Fields(fields.value, 2)));
      var asked := [Send(Complete(s.challenge.value.challengeId, s.completionRequestId, proof))];
      var c := lib.answer(s.completionRequestId, a.nonce);
      if !a.completes || !Acceptable(lib, secret, c) then Plan(asked, Err(CompletionFailed))
      else Plan(asked + Installation(lib, s, secret, c), Ok(()))
  }

  /** From the opened transaction on. `keys` holds the private keys as they are now on disk. */
  function Continued(lib: Libraries, keys: Files, s: EnrollmentState, a: Attempt): Plan {
    if ROOT_KEY !in keys || !keys[ROOT_KEY].PrivateKey? || OPERATIONAL_KEY !in keys || !keys[OPERATIONAL_KEY].PrivateKey?
    then Plan([], Err(MissingKey))
    else if !KeysMatch(lib, keys, s) then Plan([], Err(KeyMismatch))
    else if !ValidInstanceId(s.instanceId) then Plan([], Err(InvalidInstance))
    else
      var challenged := Challenged(lib, s, a);
      match challenged.state
      case Err(e) => Plan(challenged.effects, Err(e))
      case Ok(t) =>
        if t.challenge.None? then Plan(challenged.effects, Err(ChallengeFailed))
        else
          var rest := Completion(lib, t, keys[OPERATIONAL_KEY].secret, a);
          Plan(challenged.effects + rest.effects, rest.result)
  }

  function Enrolled(lib: Libraries, disk: Files, a: Attempt): Plan {
    if BOOTSTRAP !in disk || !disk[BOOTSTRAP].BootstrapDoc? then Plan([], Err(NoBootstrap))
    else if STATE !in disk && IDENTITY in disk then Plan([], Err(AlreadyRegistered))
    else
      var opening := Open(lib, disk, disk[BOOTSTRAP].cloudAddress, a);
      match opening.state
      case Err(e) => Plan(opening.effects, Err(e))
      case Ok(s) =>
        var rest := Continued(lib, ApplyAll(disk, opening.effects), s, a);
        Plan(opening.effects + rest.effects, rest.result)
  }

  // ---- the program ----

  /** Where a machine stands after appending effects. */
  lemma Reached(boot: Files, before: Trace, es: Trace)
    ensures ApplyAll(boot, before + es) == ApplyAll(ApplyAll(boot, before), es)
  {
    ApplyInTurn(boot, before, es);
  }

  method LoadOrCreateInstanceId(machine: Machine<Content, Message>, a: Attempt) returns (id: Option<string>)
    requires machine.Valid()
    modifies machine
    ensures machine.Valid() && id == InstanceOf(old(machine.disk), a)
    ensures machine.trace == old(machine.trace)
              + if INSTANCE in old(machine.disk) then [] else [Replace(INSTANCE, InstanceDoc("candy-" + a.instanceUuid))]
  {
    hide ApplyAll, ValidInstanceId;
    if INSTANCE in machine.disk {
      match machine.disk[INSTANCE] {
        case InstanceDoc(value) => return if ValidInstanceId(value) then Some(value) else None;
        case _ => return None;
      }
    }
    var value := "candy-" + a.instanceUuid;
    machine.Write(INSTANCE, InstanceDoc(value));
    id := Some(value);
  }

  method PersistInstanceId(machine: Machine<Content, Message>, expected: string) returns (ok: bool)
    requires machine.Valid()
    modifies machine
    ensures machine.Valid()
    ensures var disk := old(machine.disk);
            && (ok <==> ValidInstanceId(expected) && (INSTANCE in disk ==> disk[INSTANCE] == InstanceDoc(expected)))
            && machine.trace == old(machine.trace)
                 + if ok && INSTANCE !in disk then [Replace(INSTANCE, InstanceDoc(expected))] else []
  {
    hide ApplyAll, ValidInstanceId;
    if !ValidInstanceId(expected) {
      return false;
    }
    if INSTANCE in machine.disk {
      var doc := machine.disk[INSTANCE];
      return doc.InstanceDoc? && ValidInstanceId(doc.id) && doc.id == expected;
    }
    machine.Write(INSTANCE, InstanceDoc(expected));
    ok := true;
  }

  method OpenTransaction(lib: Libraries, machine: Machine<Content, Message>, cloud: string, a: Attempt)
    returns (state: Result<EnrollmentState, Failure>)
    requires machine.Valid()
    modifies machine
    ensures machine.Valid()
    ensures var o := Open(lib, old(machine.disk), cloud, a);
            state == o.state && machine.trace == old(machine.trace) + o.effects
  {
    hide ApplyAll, ValidInstanceId, ValidDisplayName, NewState;
    if STATE in machine.disk {
      if !machine.disk[STATE].StateDoc? {
        return Err(UnreadableState);
      }
      var existing := machine.disk[STATE].state;
      var ok := PersistInstanceId(machine, existing.instanceId);
      if !ok {
        return Err(InvalidInstance);
      }
      return if existing.cloudAddress != cloud then Err(OtherCloud) else Ok(existing);
    }
    if !ValidDisplayName(lib, a.displayName) {
      return Err(InvalidName);
    }
    state := CreateTransaction(lib, machine, cloud, a);
  }

  method CreateTransaction(lib: Libraries, machine: Machine<Content, Message>, cloud: string, a: Attempt)
    returns (state: Result<EnrollmentState, Failure>)
    requires machine.Valid() && STATE !in machine.disk && ValidDisplayName(lib, a.displayName)
    modifies machine
    ensures machine.Valid()
    ensures var o := Open(lib, old(machine.disk), cloud, a);
            state == o.state && machine.trace == old(machine.trace) + o.effects
  {
    hide ApplyAll, ValidInstanceId, ValidDisplayName, NewState;
    machine.Write(ROOT_KEY, PrivateKey(a.rootSecret));
    machine.Write(OPERATIONAL_KEY, PrivateKey(a.operationalSecret));
    assert INSTANCE != ROOT_KEY && INSTANCE != OPERATIONAL_KEY;
    assert InstanceOf(machine.disk, a) == InstanceOf(old(machine.disk), a);
    var id := LoadOrCreateInstanceId(machine, a);
    if id.None? {
      return Err(InvalidInstance);
    }
    var created := NewState(lib, cloud, id.value, a);
    machine.Write(STATE, StateDoc(created));
    state := Ok(created);
  }

  method ObtainChallenge(lib: Libraries, machine: Machine<Content, Message>, s: EnrollmentState, a: Attempt)
    returns (state: Result<EnrollmentState, Failure>)
    requires machine.Valid()
    modifies machine
    ensures machine.Valid()
    ensures var o := Challenged(lib, s, a); state == o.state && machine.trace == old(machine.trace) + o.effects
    ensures ROOT_KEY in old(machine.disk) ==> ROOT_KEY in machine.disk && machine.disk[ROOT_KEY] == old(machine.disk)[ROOT_KEY]
    ensures OPERATIONAL_KEY in old(machine.disk) ==>
              OPERATIONAL_KEY in machine.disk && machine.disk[OPERATIONAL_KEY] == old(machine.disk)[OPERATIONAL_KEY]
  {
    hide ApplyAll, ValidDisplayName, MetadataHash, Decode32;
    if s.challenge.Some? {
      return Ok(s);
    }
    machine.Emit(Exchange(s.instanceId));
    if a.manifest.None? || !ValidDisplayName(lib, a.manifest.value.displayName) {
      return Err(ExchangeFailed);
    }
    var m := a.manifest.value;
    var named := s.(displayName := m.displayName, tenantId := Some(m.tenantId), siteId := Some(m.siteId),
                    metadataHash := MetadataHash(lib, s.instanceId, m.displayName));
    machine.Write(STATE, StateDoc(named));
    machine.Emit(ChallengeFor(named));
    if a.challenge.None? || Decode32(lib, a.challenge.value.serverNonce).None? {
      return Err(ChallengeFailed);
    }
    var challenged := named.(challenge := a.challenge);
    machine.Write(STATE, StateDoc(challenged));
    state := Ok(challenged);
  }

  method SubmitCompletion(lib: Libraries, machine: Machine<Content, Message>, s: EnrollmentState, a: Attempt)
    returns (result: Result<(), Failure>)
    requires machine.Valid() && s.challenge.Some?
    requires OPERATIONAL_KEY in machine.disk && machine.disk[OPERATIONAL_KEY].PrivateKey?
    modifies machine
    ensures machine.Valid()
    ensures var p := Completion(lib, s, old(machine.disk)[OPERATIONAL_KEY].secret, a);
            result == p.result && machine.trace == old(machine.trace) + p.effects
  {
    hide ApplyAll, TranscriptFields, Acceptable, Fields, MtlsText, IdentityFor;
    var secret := machine.disk[OPERATIONAL_KEY].secret;
    var transcript := EncodeTranscript(lib, s, s.challenge.value);
    if transcript.None? {
      return Err(TranscriptFailed);
    }
    var proof := lib.encode(lib.sign(secret, transcript.value));
    machine.Emit(Complete(s.challenge.value.challengeId, s.completionRequestId, proof));
    var completed := lib.answer(s.completionRequestId, a.nonce);
    if !a.completes || !Acceptable(lib, secret, completed) {
      return Err(CompletionFailed);
    }
    Install(lib, machine, s, completed);
    result := Ok(());
  }

  method Install(lib: Libraries, machine: Machine<Content, Message>, s: EnrollmentState, completed: Completed)
    requires machine.Valid() && s.challenge.Some?
    requires OPERATIONAL_KEY in machine.disk && machine.disk[OPERATIONAL_KEY].PrivateKey?
    modifies machine
    ensures machine.Valid()
    ensures machine.trace
         == old(machine.trace) + Installation(lib, s, old(machine.disk)[OPERATIONAL_KEY].secret, completed)
  {
    hide ApplyAll, IdentityFor, WithNewline;
    ghost var secret := machine.disk[OPERATIONAL_KEY].secret;
    machine.Write(CERTIFICATE_DER, Raw(completed.der));
    machine.Write(CERTIFICATE_PEM, PemText(lib.certificatePem(completed.der)));
    machine.Write(CHAIN, PemText(completed.chain));
    assert OPERATIONAL_KEY !in {CERTIFICATE_DER, CERTIFICATE_PEM, CHAIN};
    assert machine.disk[OPERATIONAL_KEY] == PrivateKey(secret);
    var mtls := lib.certificatePem(completed.der) + WithNewline(completed.chain)
                + lib.keyPem(machine.disk[OPERATIONAL_KEY].secret);
    machine.Write(MTLS, PemText(mtls));
    machine.Write(IDENTITY, IdentityDoc(IdentityFor(s, completed)));
    machine.Delete(STATE);
    machine.Delete(BOOTSTRAP);
  }

  method Continue(lib: Libraries, machine: Machine<Content, Message>, s: EnrollmentState, a: Attempt)
    returns (result: Result<(), Failure>)
    requires machine.Valid()
    modifies machine
    ensures machine.Valid()
    ensures var p := Continued(lib, old(machine.disk), s, a);
            result == p.result && machine.trace == old(machine.trace) + p.effects
  {
    hide ApplyAll, PublicKeyText, ValidInstanceId, Challenged, Completion;
    if OPERATIONAL_KEY !in machine.disk || !machine.disk[OPERATIONAL_KEY].PrivateKey?
       || ROOT_KEY !in machine.disk || !machine.disk[ROOT_KEY].PrivateKey? {
      return Err(MissingKey);
    }
    if PublicKeyText(lib, machine.disk[ROOT_KEY].secret) != s.rootPublicKey {
      return Err(KeyMismatch);
    }
    if PublicKeyText(lib, machine.disk[OPERATIONAL_KEY].secret) != s.operationalPublicKey {
      return Err(KeyMismatch);
    }
    if !ValidInstanceId(s.instanceId) {
      return Err(InvalidInstance);
    }
    var state := ObtainChallenge(lib, machine, s, a);
    if state.Err? {
      return Err(state.error);
    }
    if state.value.challenge.None? {
      return Err(ChallengeFailed);
    }
    ghost var first := machine.trace;
    result := SubmitCompletion(lib, machine, state.value, a);
    Assoc(old(machine.trace), Challenged(lib, s, a).effects, machine.trace[|first|..]);
  }

  method Enroll(lib: Libraries, machine: Machine<Content, Message>, a: Attempt) returns (result: Result<(), Failure>)
    requires machine.Valid()
    modifies machine
    ensures machine.Valid()
    ensures var p := Enrolled(lib, old(machine.disk), a);
            result == p.result && machine.trace == old(machine.trace) + p.effects
  {
    hide ApplyAll, Open, Continued;
    if BOOTSTRAP !in machine.disk || !machine.disk[BOOTSTRAP].BootstrapDoc? {
      return Err(NoBootstrap);
    }
    if STATE !in machine.disk && IDENTITY in machine.disk {
      return Err(AlreadyRegistered);
    }
    ghost var disk, before := machine.disk, machine.trace;
    var cloud := machine.disk[BOOTSTRAP].cloudAddress;
    var state := OpenTransaction(lib, machine, cloud, a);
    if state.Err? {
      return Err(state.error);
    }
    ghost var opening := Open(lib, disk, cloud, a);
    Reached(machine.boot, before, opening.effects);
    result := Continue(lib, machine, state.value, a);
    Assoc(before, opening.effects, Continued(lib, ApplyAll(disk, opening.effects), state.value, a).effects);
  }
}
