/** When an attempt asks for a certificate, and how one that is not cut short ends. */
module RenewalOutcomes {
  import opened Bytes
  import opened Host
  import opened IdentityBundle
  import opened Renewal
  import opened Wrappers

  function Messages(es: Trace): seq<Message> {
    if es == [] then [] else Messages(es[..|es| - 1]) + if es[|es| - 1].Send? then [es[|es| - 1].message] else []
  }

  lemma {:induction false} MessagesAdd(a: Trace, b: Trace)
    ensures Messages(a + b) == Messages(a) + Messages(b)
  {
    if b == [] {
      assert a + b == a;
    } else {
      assert (a + b)[..|a + b| - 1] == a + b[..|b| - 1];
      MessagesAdd(a, b[..|b| - 1]);
    }
  }

  lemma One(e: Effect<seq<byte>, Message>)
    ensures Messages([e]) == if e.Send? then [e.message] else []
    ensures Messages([]) == []
  {
    assert [e][..0] == [];
  }

  lemma {:induction false} NoMessages(es: Trace)
    requires forall i :: 0 <= i < |es| ==> !es[i].Send?
    ensures Messages(es) == []
  {
    if es != [] {
      NoMessages(es[..|es| - 1]);
    }
  }

  /** A document of the given size that parses. */
  predicate Parses<T(==)>(disk: Files, name: string, maximum: nat, parse: seq<byte> -> Option<T>, value: T) {
    name in disk && 0 < |disk[name]| <= maximum && parse(disk[name]) == Some(value)
  }

  /** The device has a certificate that expires within three days, and the transaction it has or begins is in
      order and not paused. */
  predicate Due(lib: Libraries, disk: Files, a: Attempt, current: Identity, s: State) {
    && Parses(disk, "device-identity-v1.json", 65_536, lib.parseIdentity, current)
    && current.notAfter - a.clock <= 259_200
    && (if "certificate-renewal-v1.json" in disk then Parses(disk, "certificate-renewal-v1.json", 16_384, lib.parseState, s)
        else s == State(1, a.freshId, 0, 0))
    && s.schemaVersion == 1 && (exists i :: 0 <= i < 16 && s.requestId[i] != 0) && s.nextAttempt <= a.now
  }

  lemma NilIsZeros(id: Bytes16)
    ensures id != NIL <==> exists i :: 0 <= i < 16 && id[i] != 0
  {
    if id != NIL {
      var i :| 0 <= i < 16 && id[i] != NIL[i];
    }
  }

  /** An attempt asks the Cloud exactly when it is due and the request gets out, and then once, under the id of
      the transaction. */
  lemma AsksExactly(lib: Libraries, disk: Files, a: Attempt)
    ensures var m := Messages(Renewing(lib, disk, a).effects);
            && (forall current, s :: Due(lib, disk, a, current, s) ==> m == if a.reaches then [RenewalRequest(s.requestId)] else [])
            && ((forall current, s :: !Due(lib, disk, a, current, s)) ==> m == [])
  {
    hide Requested, Messages, Replacing, Replacements;
    NamesApart();
    One(Remove(STATE));
    if exists current, s :: Due(lib, disk, a, current, s) {
      var current, s :| Due(lib, disk, a, current, s);
      DueProceeds(lib, disk, a, current, s);
      var kept := disk[STATE := lib.encodeState(s)];
      RequestMessages(lib, kept, current, s, a);
      var write: Effect<seq<byte>, Message> := Replace(STATE, lib.encodeState(s));
      MessagesAdd([write], Requested(lib, kept, current, s, a).effects);
      One(write);
    } else {
      NotDueStops(lib, disk, a);
    }
  }

  lemma DueProceeds(lib: Libraries, disk: Files, a: Attempt, current: Identity, s: State)
    requires Due(lib, disk, a, current, s)
    ensures var rest := Requested(lib, disk[STATE := lib.encodeState(s)], current, s, a);
            Renewing(lib, disk, a) == Course([Replace(STATE, lib.encodeState(s))] + rest.effects, rest.result)
    ensures forall c, x :: Due(lib, disk, a, c, x) ==> c == current && x == s
  {
    hide Requested;
    NilIsZeros(s.requestId);
  }

  lemma {:induction false} NotDueStops(lib: Libraries, disk: Files, a: Attempt)
    requires forall current, s :: !Due(lib, disk, a, current, s)
    ensures Renewing(lib, disk, a).effects in [[], [Remove(STATE)]]
  {
    hide Requested;
    if IdentityOn(lib, disk).Some? && (STATE in disk ==> StateOn(lib, disk).Some?) {
      var s := if STATE in disk then StateOn(lib, disk).value else State(1, a.freshId, 0, 0);
      NilIsZeros(s.requestId);
      assert !Due(lib, disk, a, IdentityOn(lib, disk).value, s);
    }
  }

  lemma RequestMessages(lib: Libraries, disk: Files, current: Identity, s: State, a: Attempt)
    ensures Messages(Requested(lib, disk, current, s, a).effects) == if a.reaches then [RenewalRequest(s.requestId)] else []
  {
    hide Messages, Installed, AfterFailure;
    var asked: Trace := if a.reaches then [Send(RenewalRequest(s.requestId))] else [];
    One(Send(RenewalRequest(s.requestId)));
    One(Replace(STATE, lib.encodeState(AfterFailure(s, a.now))));
    MessagesAdd(asked, [Replace(STATE, lib.encodeState(AfterFailure(s, a.now)))]);
    if a.reply.Some? {
      InstallIsSilent(lib, disk, current, a.reply.value, a);
      MessagesAdd(asked, Installed(lib, disk, current, a.reply.value, a).effects);
    }
  }

  lemma InstallIsSilent(lib: Libraries, disk: Files, current: Identity, r: Renewed, a: Attempt)
    ensures Messages(Installed(lib, disk, current, r, a).effects) == []
  {
    hide Replacing, Replacements, OfBundle;
    ReplacementIsOfBundle(lib, disk, current, r, a.faults);
    BundleWrites(lib, disk, current, r, a);
    NoMessages(Installed(lib, disk, current, r, a).effects);
  }

  lemma BundleWrites(lib: Libraries, disk: Files, current: Identity, r: Renewed, a: Attempt)
    requires AllOfBundle(Replacing(disk, Replacements(lib, current, r), a.faults).effects,
                         lib.encodeIdentity(current.(notAfter := r.notAfter)))
    ensures forall i :: 0 <= i < |Installed(lib, disk, current, r, a).effects| ==> !Installed(lib, disk, current, r, a).effects[i].Send?
  {
    hide Replacing, Replacements;
  }

  /** With more than three days left nothing is asked, and a transaction left behind is dropped. */
  lemma NotYetDue(lib: Libraries, disk: Files, a: Attempt, current: Identity)
    requires Parses(disk, "device-identity-v1.json", 65_536, lib.parseIdentity, current) && current.notAfter - a.clock > 259_200
    ensures Renewing(lib, disk, a) == Course([Remove("certificate-renewal-v1.json")], Ok(false))
  {
  }

  /** Within a pause nothing happens. */
  lemma Paused(lib: Libraries, disk: Files, a: Attempt, current: Identity, s: State)
    requires Due(lib, disk, a.(now := s.nextAttempt), current, s) && a.now < s.nextAttempt
    ensures Renewing(lib, disk, a) == Course([], Ok(false))
  {
    NilIsZeros(s.requestId);
  }

  /** The certificate that came back can replace the present one. */
  predicate Replaces(lib: Libraries, disk: Files, a: Attempt, current: Identity, r: Renewed) {
    && r.notAfter > current.notAfter && r.notAfter > a.installClock
    && "operational-key.pem" in disk && 0 < |disk["operational-key.pem"]| <= 65_536
    && lib.certificateMatches(disk["operational-key.pem"], current, r)
  }

  /** A due attempt succeeds exactly when its request is answered with a certificate that can replace the present
      one and every file of the bundle is written; then all five files are those of the new certificate and
      the transaction is over. */
  lemma SucceedsExactly(lib: Libraries, disk: Files, a: Attempt, current: Identity, s: State)
    requires Due(lib, disk, a, current, s)
    ensures var p := Renewing(lib, disk, a); var after := ApplyAll(disk, p.effects);
            && (p.result == Ok(true) <==>
                  a.reaches && a.reply.Some? && Replaces(lib, disk, a, current, a.reply.value) && Written(lib, disk, a, current, s))
            && (p.result == Ok(true) ==>
                  var r := a.reply.value;
                  && "certificate-renewal-v1.json" !in after
                  && FileIs(after, "device-cert.der", r.der) && FileIs(after, "device-cert.pem", r.pem)
                  && FileIs(after, "device-chain.pem", r.chain) && FileIs(after, "device-mtls.pem", r.mtls)
                  && FileIs(after, "device-identity-v1.json", lib.encodeIdentity(current.(notAfter := r.notAfter))))
            && p.result != Ok(false)
  {
    hide Requested, Replacing, ApplyAll, Written, AfterFailure, FileIs;
    DueProceeds(lib, disk, a, current, s);
    var kept := disk[STATE := lib.encodeState(s)];
    NamesApart();
    KeyApart();
    RequestEnds(lib, disk, a, current, s);
    if a.reply.Some? && Requested(lib, kept, current, s, a).result == Ok(true) {
      InstalledFiles(lib, disk, a, current, s);
    }
  }

  predicate FileIs(disk: Files, name: string, bytes: seq<byte>) {
    name in disk && disk[name] == bytes
  }

  /** The bundle replacement went through. */
  predicate Written(lib: Libraries, disk: Files, a: Attempt, current: Identity, s: State)
    requires a.reply.Some?
  {
    Replacing(disk[STATE := lib.encodeState(s)], Replacements(lib, current, a.reply.value), a.faults).outcome.Replaced?
  }

  lemma KeyApart()
    ensures KEY != STATE
  {
    assert |KEY| == 19 && |STATE| == 27;
  }

  lemma RequestEnds(lib: Libraries, disk: Files, a: Attempt, current: Identity, s: State)
    ensures var kept := disk[STATE := lib.encodeState(s)]; var p := Requested(lib, kept, current, s, a);
            && (p.result == Ok(true) <==>
                  a.reaches && a.reply.Some? && Replaces(lib, disk, a, current, a.reply.value) && Written(lib, disk, a, current, s))
            && p.result != Ok(false)
  {
    hide Replacing, Replacements, AfterFailure;
    KeyApart();
  }

  lemma InstalledFiles(lib: Libraries, disk: Files, a: Attempt, current: Identity, s: State)
    requires a.reaches && a.reply.Some? && Replaces(lib, disk, a, current, a.reply.value) && Written(lib, disk, a, current, s)
    requires "device-identity-v1.json" in disk
    ensures var r := a.reply.value; var kept := disk[STATE := lib.encodeState(s)];
            var after := ApplyAll(disk, [Replace(STATE, lib.encodeState(s))] + Requested(lib, kept, current, s, a).effects);
            && STATE !in after
            && FileIs(after, "device-cert.der", r.der) && FileIs(after, "device-cert.pem", r.pem)
            && FileIs(after, "device-chain.pem", r.chain) && FileIs(after, "device-mtls.pem", r.mtls)
            && FileIs(after, "device-identity-v1.json", lib.encodeIdentity(current.(notAfter := r.notAfter)))
  {
    hide Replacing, ApplyAll, AfterFailure;
    var r := a.reply.value;
    var kept := disk[STATE := lib.encodeState(s)];
    var rs := Replacements(lib, current, r);
    var write: Effect<seq<byte>, Message> := Replace(STATE, lib.encodeState(s));
    var asked: Effect<seq<byte>, Message> := Send(RenewalRequest(s.requestId));
    var bundle := Replacing(kept, rs, a.faults).effects;
    KeyApart();
    NamesApart();
    FilesApart(lib, current, r);
    ReplacedMeansAllNew(kept, rs, a.faults);
    var rest := Requested(lib, kept, current, s, a).effects;
    assert rest == [asked] + (bundle + [Remove(STATE)]);
    ApplyInTurn(disk, [write], rest);
    ApplyOne(disk, write);
    ApplyInTurn(kept, [asked], bundle + [Remove(STATE)]);
    ApplyOne(kept, asked);
    ApplyOneMore(kept, bundle, Remove(STATE));
    assert rs[0].name == BUNDLE[0] && rs[1].name == BUNDLE[1] && rs[2].name == BUNDLE[2] && rs[3].name == BUNDLE[3] && rs[4].name == IDENTITY;
  }

  lemma FilesApart(lib: Libraries, current: Identity, r: Renewed)
    ensures DistinctNames(Replacements(lib, current, r))
  {
    assert |BUNDLE[0]| == 15 && |BUNDLE[1]| == 15 && |BUNDLE[2]| == 16 && |BUNDLE[3]| == 15 && |IDENTITY| == 23;
    assert BUNDLE[0][12] == 'd' && BUNDLE[1][12] == 'p' && BUNDLE[0][7] == 'c' && BUNDLE[3][7] == 'm' && BUNDLE[1][7] == 'c';
  }

  /** Thirty seconds after the first failure, twice as long after each further one, and never more than six
      hours. */
  lemma BackoffDoubles(failures: u32)
    ensures Backoff(0) == 30 && Backoff(1) == 30
    ensures failures > 0 && failures < 0xFFFF_FFFF ==>
              Backoff(failures + 1) == if 2 * Backoff(failures) < 21_600 then 2 * Backoff(failures) else 21_600
  {
    assert Pow2(0) == 1;
    if 10 <= failures {
      TenDoublings(failures);
    }
  }

  lemma TenDoublings(failures: u32)
    requires 10 <= failures
    ensures Backoff(failures) >= 15_360
    ensures 11 <= failures ==> Backoff(failures) == 21_600
  {
    assert Pow2(9) == 512;
    var exponent := if failures - 1 < 12 then failures - 1 else 12;
    PowerGrows(9, exponent);
    if 11 <= failures {
      assert Pow2(10) == 1024;
      PowerGrows(10, exponent);
    }
  }
}
