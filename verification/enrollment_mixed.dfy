/** A retry that mixes two certificates: when it happens, and a machine on which it does. */
module EnrollmentMixed {
  import opened Bytes
  import opened Enrollment
  import opened EnrollmentIdentity
  import opened EnrollmentRuns
  import opened Host
  import opened Text
  import opened Wrappers

  /** A new certificate changes two files at least. */
  lemma NewCertificateChangesTwo(lib: Libraries, s: EnrollmentState, secret: seq<byte>, c: Completed, d: Completed)
    requires s.challenge.Some? && lib.certificatePem(c.der) != lib.certificatePem(d.der)
    ensures !AtMostOneDiffers(PartsOf(lib, s, secret, c), PartsOf(lib, s, secret, d))
  {
    hide MtlsText, IdentityFor;
    var p, q := PartsOf(lib, s, secret, c), PartsOf(lib, s, secret, d);
    assert p[0] != q[0] && p[1] != q[1];
  }

  /** A retry answered with a new certificate and cut after its first file leaves the new certificate's
      DER file beside the old PEM file. */
  lemma NewCertificateIsMixed(lib: Libraries, cloud: string, a: Attempt, b: Attempt)
    requires Fresh(Try(a)) && Enrolled(lib, map[BOOTSTRAP := BootstrapDoc(cloud)], a).result.Ok?
    requires Completes(lib, ApplyAll(map[], Run(lib, map[], FirstAttempt(lib, cloud, a))), b)
    requires var s := StateIn(ApplyAll(map[], Run(lib, map[], FirstAttempt(lib, cloud, a)))).value;
             lib.certificatePem(lib.answer(s.completionRequestId, a.nonce).der)
             != lib.certificatePem(lib.answer(s.completionRequestId, b.nonce).der)
    ensures var disk := ApplyAll(map[], Run(lib, map[], FirstAttempt(lib, cloud, a)));
            var s, secret := StateIn(disk).value, disk[OPERATIONAL_KEY].secret;
            var c, d := lib.answer(s.completionRequestId, a.nonce), lib.answer(s.completionRequestId, b.nonce);
            var after := Retried(lib, cloud, a, b, 2);
            && CERTIFICATE_DER in after && after[CERTIFICATE_DER] == Raw(d.der) != Raw(c.der)
            && CERTIFICATE_PEM in after
            && after[CERTIFICATE_PEM] == PemText(lib.certificatePem(c.der)) != PemText(lib.certificatePem(d.der))
            && !Whole(after, PartsOf(lib, s, secret, c), PartsOf(lib, s, secret, d))
  {
    hide Finishing, Completes, Effects, Enrolled, FirstAttempt, Run, After, Fresh, Retried, ApplyAll;
    var disk := ApplyAll(map[], Run(lib, map[], FirstAttempt(lib, cloud, a)));
    FirstAttemptFinishes(lib, cloud, a);
    var s, secret := Situation(lib, disk, b);
    FinishingHolds(lib, disk, a);
    RetriedIsAfter(lib, cloud, a, b, 2);
    AfterOneFile(lib, disk, b);
    var c, d := lib.answer(s.completionRequestId, a.nonce), lib.answer(s.completionRequestId, b.nonce);
    FirstOfNew(disk, PartsOf(lib, s, secret, c), PartsOf(lib, s, secret, d));
  }

  lemma AfterOneFile(lib: Libraries, disk: Files, b: Attempt)
    requires Completes(lib, disk, b)
    ensures var s, secret := StateIn(disk).value, disk[OPERATIONAL_KEY].secret;
            After(lib, disk, b, 2) == Over(disk, PartsOf(lib, s, secret, lib.answer(s.completionRequestId, b.nonce)), 1)
  {
    hide PartsOf, Over, Effects, Completes, ApplyAll;
    AfterCut(lib, disk, b, 2);
  }

  lemma FirstOfNew(disk: Files, former: Parts, latter: Parts)
    requires Holds(disk, former) && former[0] != latter[0] && former[1] != latter[1]
    ensures var after := Over(disk, latter, 1);
            && CERTIFICATE_DER in after && after[CERTIFICATE_DER] == latter[0]
            && CERTIFICATE_PEM in after && after[CERTIFICATE_PEM] == former[1]
            && !Whole(after, former, latter)
  {
    assert Name(0) == CERTIFICATE_DER && Name(1) == CERTIFICATE_PEM;
    assert Over(disk, latter, 1) == Over(disk, latter, 0)[Name(0) := latter[0]];
  }

  /** Everything a first attempt needs from its replies and from the libraries. */
  predicate Succeeds(lib: Libraries, a: Attempt) {
    && Fresh(Try(a)) && ValidDisplayName(lib, a.displayName)
    && a.manifest.Some? && ValidDisplayName(lib, a.manifest.value.displayName)
    && a.challenge.Some? && Decode32(lib, a.challenge.value.serverNonce).Some?
    && a.completes && Acceptable(lib, a.operationalSecret, lib.answer("complete-" + a.completionUuid, a.nonce))
    && |lib.publicKey(a.rootSecret)| == 32 && |lib.publicKey(a.operationalSecret)| == 32
  }

  ghost predicate DecodesItself(lib: Libraries) {
    forall b: seq<byte> :: |b| == 32 ==> Decode32(lib, lib.encode(b)).Some?
  }

  /** Such an attempt enrolls an empty machine. */
  lemma AttemptEnrolls(lib: Libraries, cloud: string, a: Attempt)
    requires Succeeds(lib, a) && DecodesItself(lib)
    ensures Enrolled(lib, map[BOOTSTRAP := BootstrapDoc(cloud)], a).result.Ok?
    ensures var disk: Files := map[BOOTSTRAP := BootstrapDoc(cloud)];
            var o := Open(lib, disk, cloud, a);
            o.state.Ok? && o.state.value.completionRequestId == "complete-" + a.completionUuid
  {
    hide ValidDisplayName, Acceptable, ValidInstanceId, HashFields;
    var disk: Files := map[BOOTSTRAP := BootstrapDoc(cloud)];
    assert STATE !in disk && INSTANCE !in disk;
    var o := Open(lib, disk, cloud, a);
    KeysAreThere(disk, o.effects, a, o.state.value);
    assert KeysMatch(lib, ApplyAll(disk, o.effects), o.state.value);
    var t := Challenged(lib, o.state.value, a).state.value;
    assert TranscriptFields(lib, t, t.challenge.value).Some?;
  }

  lemma KeysAreThere(disk: Files, es: Trace, a: Attempt, s: EnrollmentState)
    requires |es| == 4 && es[0] == Replace(ROOT_KEY, PrivateKey(a.rootSecret))
    requires es[1] == Replace(OPERATIONAL_KEY, PrivateKey(a.operationalSecret))
    requires es[2].Replace? && es[2].name == INSTANCE && es[3] == Replace(STATE, StateDoc(s))
    ensures var after := ApplyAll(disk, es);
            && ROOT_KEY in after && after[ROOT_KEY] == PrivateKey(a.rootSecret)
            && OPERATIONAL_KEY in after && after[OPERATIONAL_KEY] == PrivateKey(a.operationalSecret)
  {
    hide ApplyAll;
    assert es == (([es[0]] + [es[1]]) + [es[2]]) + [es[3]];
    ApplyOne(disk, es[0]);
    ApplyOneMore(disk, [es[0]], es[1]);
    ApplyOneMore(disk, [es[0]] + [es[1]], es[2]);
    ApplyOneMore(disk, ([es[0]] + [es[1]]) + [es[2]], es[3]);
  }

  // ---- a machine ----

  const ID: Bytes16 := [1, 1, 1, 1, 1, 1, 1, 1, 1, 1, 1, 1, 1, 1, 1, 1]

  const DIGEST: Bytes32 := ID + ID

  /** One character for each byte. */
  function Latin(b: seq<byte>): (s: string)
    ensures |s| == |b|
  {
    seq(|b|, i requires 0 <= i < |b| => b[i] as int as char)
  }

  /** Texts hold one byte a character, keys are their own public halves, and every answer brings a new
      one-byte certificate. */
  function Plain(): Libraries {
    Libraries(
      (b: seq<byte>) => DIGEST, (s: string) => Ascii(s), (b: seq<byte>) => Latin(b), (s: string) => Some(Ascii(s)),
      (secret: seq<byte>) => secret, (secret: seq<byte>, text: seq<byte>) => DIGEST, (secret: seq<byte>) => Latin(secret),
      (der: seq<byte>) => Latin(der), (chain: string) => true, (der: seq<byte>, key: seq<byte>, c: Completed) => true,
      (id: string, nonce: nat) => Completed(ID, ID, [(nonce % 256) as byte], "chain", "2030"))
  }

  function Trying(nonce: nat): Attempt {
    Attempt("node", DIGEST, DIGEST, "1", "1", "1", Some(Manifest("node", ID, ID)),
            Some(ChallengeState(ID, ID, Latin(DIGEST), "2030")), true, nonce)
  }

  lemma PlainAnswers(id: string, n: nat)
    ensures Plain().answer(id, n).der == [(n % 256) as byte]
    ensures Plain().certificatePem(Plain().answer(id, n).der) == Latin([(n % 256) as byte])
  {
  }

  lemma PlainDecodes()
    ensures DecodesItself(Plain())
  {
    var lib := Plain();
    forall b: seq<byte> | |b| == 32 ensures Decode32(lib, lib.encode(b)).Some? {
      assert lib.encode(b) == Latin(b);
    }
  }

  lemma PlainAccepts()
    ensures forall secret, id, n :: Acceptable(Plain(), secret, Plain().answer(id, n))
  {
  }

  lemma NodeIsValid()
    ensures ValidDisplayName(Plain(), "node") && ValidInstanceId("candy-" + "1")
  {
    assert Plain().utf8("node") == Ascii("node");
    assert "candy-" + "1" == "candy-1";
  }

  lemma PlainWorks()
    ensures DecodesItself(Plain()) && Succeeds(Plain(), Trying(0)) && Trying(1).completes
    ensures forall secret, id, n :: Acceptable(Plain(), secret, Plain().answer(id, n))
  {
    hide DecodesItself, Acceptable, ValidDisplayName, ValidInstanceId, Decode32;
    PlainDecodes();
    PlainAccepts();
    NodeIsValid();
    assert Plain().encode(DIGEST) == Latin(DIGEST);
    assert Decode32(Plain(), Plain().encode(DIGEST)).Some? by {
      DecodesAny(Plain(), DIGEST);
    }
  }

  lemma DecodesAny(lib: Libraries, b: seq<byte>)
    requires DecodesItself(lib) && |b| == 32
    ensures Decode32(lib, lib.encode(b)).Some?
  {
  }

  /** Two attempts on this machine, the second cut after one file: neither installation is whole. */
  lemma MachineIsMixed(cloud: string)
    ensures var lib, a, b := Plain(), Trying(0), Trying(1);
            && Enrolled(lib, map[BOOTSTRAP := BootstrapDoc(cloud)], a).result.Ok?
            && var after := Retried(lib, cloud, a, b, 2);
            && CERTIFICATE_DER in after && after[CERTIFICATE_DER] == Raw([1])
            && CERTIFICATE_PEM in after && after[CERTIFICATE_PEM] == PemText(Latin([0]))
  {
    hide Succeeds, DecodesItself, Enrolled, Finishing, Completes, FirstAttempt, Run, Retried, ApplyAll, Acceptable, Whole,
         Fresh;
    var lib, a, b := Plain(), Trying(0), Trying(1);
    PlainWorks();
    AttemptEnrolls(lib, cloud, a);
    SucceedsIsFresh(lib, a);
    FirstAttemptFinishes(lib, cloud, a);
    var disk := ApplyAll(map[], Run(lib, map[], FirstAttempt(lib, cloud, a)));
    FinishingHolds(lib, disk, a);
    CompletesToo(lib, disk, a, b);
    var s, secret := Situation(lib, disk, b);
    PlainAnswers(s.completionRequestId, 0);
    PlainAnswers(s.completionRequestId, 1);
    assert Latin([0])[0] != Latin([1])[0];
    NewCertificateIsMixed(lib, cloud, a, b);
  }

  lemma SucceedsIsFresh(lib: Libraries, a: Attempt)
    requires Succeeds(lib, a)
    ensures Fresh(Try(a))
  {
  }

  lemma {:induction false} CompletesToo(lib: Libraries, disk: Files, a: Attempt, b: Attempt)
    requires Completes(lib, disk, a) && b.completes
    requires forall secret, id, n :: Acceptable(lib, secret, lib.answer(id, n))
    ensures Completes(lib, disk, b)
  {
    hide Acceptable, Coherent, TranscriptFields;
  }
}
