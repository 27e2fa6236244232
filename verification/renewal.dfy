/** Renewing the device certificate: one request id from the first attempt to the installed bundle,
    with a pause after each failed request. */
module Renewal {
  import opened Bytes
  import opened Host
  import opened IdentityBundle
  import opened Wrappers

  const MAX_STATE_BYTES: nat := 16 * 1024
  const MAX_IDENTITY_BYTES: nat := 64 * 1024
  const MAX_KEY_BYTES: nat := 64 * 1024
  const STATE := "certificate-renewal-v1.json"
  const IDENTITY := "device-identity-v1.json"
  const KEY := "operational-key.pem"
  const BUNDLE := ["device-cert.der", "device-cert.pem", "device-chain.pem", "device-mtls.pem"]

  const WINDOW: int := 3 * 24 * 60 * 60
  const MAX_BACKOFF: nat := 6 * 60 * 60
  const U32_MAX: nat := 0xFFFF_FFFF
  const U64_MAX: nat := 0xFFFF_FFFF_FFFF_FFFF
  const NIL: Bytes16 := [0, 0, 0, 0, 0, 0, 0, 0, 0, 0, 0, 0, 0, 0, 0, 0]

  datatype State = State(schemaVersion: byte, requestId: Bytes16, failures: u32, nextAttempt: u64)

  /** The expiry in seconds, and everything a renewal keeps. */
  datatype Identity = Identity(notAfter: int, device: seq<byte>)

  datatype Renewed = Renewed(notAfter: int, der: seq<byte>, pem: seq<byte>, chain: seq<byte>, mtls: seq<byte>)

  /** JSON and the certificate checks. */
  datatype Libraries = Libraries(
    parseState: seq<byte> -> Option<State>, encodeState: State -> seq<byte>,
    parseIdentity: seq<byte> -> Option<Identity>, encodeIdentity: Identity -> seq<byte>,
    certificateMatches: (seq<byte>, Identity, Renewed) -> bool)
  {
    /** Documents are read back as written, and a state document is small. */
    ghost predicate RoundTrips() {
      && (forall s :: parseState(encodeState(s)) == Some(s) && 0 < |encodeState(s)| <= MAX_STATE_BYTES)
      && forall i :: parseIdentity(encodeIdentity(i)) == Some(i)
    }
  }

  /** One attempt: the clocks it reads, a fresh id, how far the request gets, and the file faults. */
  datatype Attempt = Attempt(
    clock: int, now: u64, freshId: Bytes16, reaches: bool, reply: Option<Renewed>, installClock: int, faults: Faults)

  datatype Failure = NoIdentity | UnreadableState | InvalidState | RequestFailed | NotExtended | NotMatching | InstallFailed

  datatype Course = Course(effects: Trace, result: Result<bool, Failure>)

  // ---- backoff ----

  /** Thirty seconds, doubled per failure up to six hours. */
  function Backoff(failures: u32): nat {
    var exponent := if failures == 0 then 0 else if failures - 1 < 12 then failures - 1 else 12;
    var delay := 30 * Pow2(exponent);
    if delay < MAX_BACKOFF then delay else MAX_BACKOFF
  }

  lemma {:induction false} PowerGrows(a: nat, b: nat)
    requires a <= b
    ensures Pow2(a) <= Pow2(b)
  {
    if a < b {
      PowerGrows(a, b - 1);
    }
  }

  /** The pause never shrinks with more failures and stays between half a minute and six hours. */
  lemma BackoffGrows(a: u32, b: u32)
    requires a <= b
    ensures 30 <= Backoff(a) <= Backoff(b) <= MAX_BACKOFF
  {
    var x := if a == 0 then 0 else if a - 1 < 12 then a - 1 else 12;
    var y := if b == 0 then 0 else if b - 1 < 12 then b - 1 else 12;
    PowerGrows(0, x);
    PowerGrows(x, y);
  }

  // ---- one attempt ----

  predicate Bounded(disk: Files, name: string, maximum: nat) {
    name in disk && 0 < |disk[name]| <= maximum
  }

  function IdentityOn(lib: Libraries, disk: Files): Option<Identity> {
    if Bounded(disk, IDENTITY, MAX_IDENTITY_BYTES) then lib.parseIdentity(disk[IDENTITY]) else None
  }

  function StateOn(lib: Libraries, disk: Files): Option<State> {
    if Bounded(disk, STATE, MAX_STATE_BYTES) then lib.parseState(disk[STATE]) else None
  }

  function Replacements(lib: Libraries, current: Identity, r: Renewed): seq<Replacement> {
    [Replacement(BUNDLE[0], r.der), Replacement(BUNDLE[1], r.pem), Replacement(BUNDLE[2], r.chain),
     Replacement(BUNDLE[3], r.mtls), Replacement(IDENTITY, lib.encodeIdentity(current.(notAfter := r.notAfter)))]
  }

  /** Checking the reply and replacing the bundle. */
  function Installed(lib: Libraries, disk: Files, current: Identity, r: Renewed, a: Attempt): Course {
    if r.notAfter <= current.notAfter || r.notAfter <= a.installClock then Course([], Err(NotExtended))
    else if !Bounded(disk, KEY, MAX_KEY_BYTES) || !lib.certificateMatches(disk[KEY], current, r) then Course([], Err(NotMatching))
    else
      var p := Replacing(disk, Replacements(lib, current, r), a.faults);
      if p.outcome.Replaced? then Course(p.effects + [Remove(STATE)], Ok(true)) else Course(p.effects, Err(InstallFailed))
  }

  function Sum(a: u64, b: nat): u64 {
    if a + b < U64_MAX then a + b else U64_MAX
  }

  function AfterFailure(s: State, now: u64): State {
    var failures := if s.failures < U32_MAX then s.failures + 1 else U32_MAX;
    s.(failures := failures, nextAttempt := Sum(now, Backoff(failures)))
  }

  function Requested(lib: Libraries, disk: Files, current: Identity, s: State, a: Attempt): Course {
    var asked: Trace := if a.reaches then [Send(RenewalRequest(s.requestId))] else [];
    if !a.reaches || a.reply.None? then
      Course(asked + [Replace(STATE, lib.encodeState(AfterFailure(s, a.now)))], Err(RequestFailed))
    else
      var p := Installed(lib, disk, current, a.reply.value, a);
      Course(asked + p.effects, p.result)
  }

  function Renewing(lib: Libraries, disk: Files, a: Attempt): Course {
    var current := IdentityOn(lib, disk);
    if current.None? then Course([], Err(NoIdentity))
    else if current.value.notAfter - a.clock > WINDOW then Course([Remove(STATE)], Ok(false))
    else if STATE in disk && StateOn(lib, disk).None? then Course([], Err(UnreadableState))
    else
      var s := if STATE in disk then StateOn(lib, disk).value else State(1, a.freshId, 0, 0);
      if s.schemaVersion != 1 || s.requestId == NIL then Course([], Err(InvalidState))
      else if a.now < s.nextAttempt then Course([], Ok(false))
      else
        var kept := disk[STATE := lib.encodeState(s)];
        var rest := Requested(lib, kept, current.value, s, a);
        Course([Replace(STATE, lib.encodeState(s))] + rest.effects, rest.result)
  }

  method MaybeRenew(lib: Libraries, machine: Machine<seq<byte>, Message>, a: Attempt) returns (result: Result<bool, Failure>)
    requires machine.Valid()
    modifies machine
    ensures machine.Valid()
    ensures var p := Renewing(lib, old(machine.disk), a);
            result == p.result && machine.trace == old(machine.trace) + p.effects
  {
    hide ApplyAll, Backoff, Replacing, Replacements;
    var current := IdentityOn(lib, machine.disk);
    if current.None? {
      return Err(NoIdentity);
    }
    if current.value.notAfter - a.clock > WINDOW {
      machine.Delete(STATE);
      return Ok(false);
    }
    var state := State(1, a.freshId, 0, 0);
    if STATE in machine.disk {
      if StateOn(lib, machine.disk).None? {
        return Err(UnreadableState);
      }
      state := StateOn(lib, machine.disk).value;
    }
    if state.schemaVersion != 1 || state.requestId == NIL {
      return Err(InvalidState);
    }
    if a.now < state.nextAttempt {
      return Ok(false);
    }
    machine.Write(STATE, lib.encodeState(state));
    ghost var disk := machine.disk;
    result := Request(lib, machine, current.value, state, a);
    Assoc(old(machine.trace), [Replace(STATE, lib.encodeState(state))], Requested(lib, disk, current.value, state, a).effects);
  }

  method Request(lib: Libraries, machine: Machine<seq<byte>, Message>, current: Identity, state: State, a: Attempt)
    returns (result: Result<bool, Failure>)
    requires machine.Valid()
    modifies machine
    ensures machine.Valid()
    ensures var p := Requested(lib, old(machine.disk), current, state, a);
            result == p.result && machine.trace == old(machine.trace) + p.effects
  {
    hide ApplyAll, Backoff, Replacing, Replacements, Installed;
    ghost var asked: Trace := if a.reaches then [Send(RenewalRequest(state.requestId))] else [];
    if a.reaches {
      machine.Emit(RenewalRequest(state.requestId));
    }
    if !a.reaches || a.reply.None? {
      var failures: u32 := if state.failures < U32_MAX then state.failures + 1 else U32_MAX;
      var delay := Backoff(failures);
      var failed := state.(failures := failures).(nextAttempt := Sum(a.now, delay));
      machine.Write(STATE, lib.encodeState(failed));
      return Err(RequestFailed);
    }
    ghost var disk := machine.disk;
    result := Install(lib, machine, current, a.reply.value, a);
    Assoc(old(machine.trace), asked, Installed(lib, disk, current, a.reply.value, a).effects);
  }

  method Install(lib: Libraries, machine: Machine<seq<byte>, Message>, current: Identity, r: Renewed, a: Attempt)
    returns (result: Result<bool, Failure>)
    requires machine.Valid()
    modifies machine
    ensures machine.Valid()
    ensures var p := Installed(lib, old(machine.disk), current, r, a);
            result == p.result && machine.trace == old(machine.trace) + p.effects
  {
    hide ApplyAll, Replacing, Replacements;
    if r.notAfter <= current.notAfter || r.notAfter <= a.installClock {
      return Err(NotExtended);
    }
    if !Bounded(machine.disk, KEY, MAX_KEY_BYTES) || !lib.certificateMatches(machine.disk[KEY], current, r) {
      return Err(NotMatching);
    }
    ghost var disk := machine.disk;
    var outcome := ReplaceIdentityBundle(machine, Replacements(lib, current, r), a.faults);
    if !outcome.Replaced? {
      return Err(InstallFailed);
    }
    machine.Delete(STATE);
    result := Ok(true);
  }

  // ---- runs ----

  /** One attempt, and after how many of its effects power fails. */
  datatype Step = Step(attempt: Attempt, cut: nat)

  function Run(lib: Libraries, boot: Files, steps: seq<Step>): Trace {
    if steps == [] then [] else
      var before := Run(lib, boot, steps[..|steps| - 1]);
      var last := steps[|steps| - 1];
      before + UpTo(Renewing(lib, ApplyAll(boot, before), last.attempt).effects, last.cut)
  }

  /** What each effect keeps: the pending request id while the state exists, and an identity of the
      same device that never expires earlier. */
  ghost predicate Keeps(lib: Libraries, disk: Files, e: Effect<seq<byte>, Message>) {
    match e
    case Send(m) => StateOn(lib, disk).Some? && StateOn(lib, disk).value.requestId == m.requestId
    case Remove(name) => name == STATE
    case Replace(name, content) =>
      if name == STATE then
        && 0 < |content| <= MAX_STATE_BYTES && lib.parseState(content).Some?
        && (STATE in disk ==>
              StateOn(lib, disk).Some?
              && lib.parseState(content).value.requestId == StateOn(lib, disk).value.requestId)
      else if name == IDENTITY then
        && IDENTITY in disk && lib.parseIdentity(disk[IDENTITY]).Some? && lib.parseIdentity(content).Some?
        && lib.parseIdentity(disk[IDENTITY]).value.notAfter <= lib.parseIdentity(content).value.notAfter
        && lib.parseIdentity(disk[IDENTITY]).value.device == lib.parseIdentity(content).value.device
      else name in BUNDLE
  }

  ghost predicate AllKeep(lib: Libraries, disk: Files, es: Trace) {
    es == [] || (AllKeep(lib, disk, es[..|es| - 1]) && Keeps(lib, ApplyAll(disk, es[..|es| - 1]), es[|es| - 1]))
  }

  lemma {:induction false} KeepInTurn(lib: Libraries, disk: Files, a: Trace, b: Trace)
    requires AllKeep(lib, disk, a) && AllKeep(lib, ApplyAll(disk, a), b)
    ensures AllKeep(lib, disk, a + b)
  {
    hide Keeps;
    if b == [] {
      assert a + b == a;
    } else {
      var init := b[..|b| - 1];
      KeepInTurn(lib, disk, a, init);
      assert (a + b)[..|a + b| - 1] == a + init;
      ApplyInTurn(disk, a, init);
    }
  }

  lemma {:induction false} KeepPrefix(lib: Libraries, disk: Files, es: Trace, k: nat)
    requires AllKeep(lib, disk, es) && k <= |es|
    ensures AllKeep(lib, disk, es[..k])
  {
    hide Keeps;
    if k == |es| {
      assert es[..k] == es;
    } else {
      assert es[..|es| - 1][..k] == es[..k];
      KeepPrefix(lib, disk, es[..|es| - 1], k);
    }
  }

  lemma OneKeeps(lib: Libraries, disk: Files, e: Effect<seq<byte>, Message>)
    requires Keeps(lib, disk, e)
    ensures AllKeep(lib, disk, [e]) && ApplyAll(disk, [e]) == Apply(disk, e)
  {
    hide Keeps;
    ApplyOne(disk, e);
    assert [e][..0] == [];
    assert ApplyAll<seq<byte>, Message>(disk, []) == disk;
  }

  /** An effect of the bundle replacement: one of the certificate files, or the new identity. */
  predicate OfBundle(e: Effect<seq<byte>, Message>, identity: seq<byte>) {
    e.Replace? && (e.name in BUNDLE || (e.name == IDENTITY && e.content == identity))
  }

  predicate AllOfBundle(es: Trace, identity: seq<byte>) {
    forall i :: 0 <= i < |es| ==> OfBundle(es[i], identity)
  }

  lemma {:induction false} WritesOfBundle(rs: seq<Replacement>, k: nat, identity: seq<byte>)
    requires k <= |rs| && forall i :: 0 <= i < |rs| ==> OfBundle(Replace(rs[i].name, rs[i].bytes), identity)
    ensures AllOfBundle(Writes(rs, k), identity)
  {
    hide OfBundle;
    if k > 0 {
      WritesOfBundle(rs, k - 1, identity);
    }
  }

  lemma {:induction false} RestoresOfBundle(disk: Files, rs: seq<Replacement>, back: nat -> WriteOutcome, k: nat,
                                            identity: seq<byte>)
    requires k < |rs| && AllReadable(disk, rs) && forall i :: 0 <= i < |rs| - 1 ==> rs[i].name in BUNDLE
    ensures AllOfBundle(Restores(disk, rs, back, k), identity)
  {
    hide AllReadable;
    if k > 0 {
      RestoresOfBundle(disk, rs, back, k - 1, identity);
    }
  }

  lemma BundleNames(lib: Libraries, current: Identity, r: Renewed)
    ensures var rs := Replacements(lib, current, r);
            var identity := lib.encodeIdentity(current.(notAfter := r.notAfter));
            && |rs| == 5 && (forall i :: 0 <= i < |rs| - 1 ==> rs[i].name in BUNDLE)
            && forall i :: 0 <= i < |rs| ==> OfBundle(Replace(rs[i].name, rs[i].bytes), identity)
  {
  }

  lemma ReplacementIsOfBundle(lib: Libraries, disk: Files, current: Identity, r: Renewed, faults: Faults)
    ensures AllOfBundle(Replacing(disk, Replacements(lib, current, r), faults).effects,
                        lib.encodeIdentity(current.(notAfter := r.notAfter)))
  {
    hide Replacements, OfBundle, Writes, Restores, AllReadable, RollbackWritten;
    var rs := Replacements(lib, current, r);
    var identity := lib.encodeIdentity(current.(notAfter := r.notAfter));
    BundleNames(lib, current, r);
    if AllReadable(disk, rs) {
      var k := FirstFailure(faults.forward, |rs|, 0);
      if k == |rs| {
        WritesOfBundle(rs, k, identity);
      } else {
        WritesOfBundle(rs, if faults.forward(k).WrittenUnsynced? then k + 1 else k, identity);
        RestoresOfBundle(disk, rs, faults.back, k, identity);
      }
    }
  }

  predicate IdentityWithin(lib: Libraries, disk: Files, device: seq<byte>, latest: int) {
    IDENTITY in disk && lib.parseIdentity(disk[IDENTITY]).Some?
    && lib.parseIdentity(disk[IDENTITY]).value.device == device && lib.parseIdentity(disk[IDENTITY]).value.notAfter <= latest
  }

  lemma {:induction false} BundleKeeps(lib: Libraries, disk: Files, es: Trace, current: Identity, latest: int)
    requires lib.RoundTrips() && AllOfBundle(es, lib.encodeIdentity(current.(notAfter := latest)))
    requires IdentityWithin(lib, disk, current.device, latest)
    ensures AllKeep(lib, disk, es) && IdentityWithin(lib, ApplyAll(disk, es), current.device, latest)
  {
    if es != [] {
      var init, last := es[..|es| - 1], es[|es| - 1];
      assert AllOfBundle(init, lib.encodeIdentity(current.(notAfter := latest)));
      BundleKeeps(lib, disk, init, current, latest);
      OneOfBundleKeeps(lib, ApplyAll(disk, init), last, current, latest);
    }
  }

  lemma OneOfBundleKeeps(lib: Libraries, disk: Files, e: Effect<seq<byte>, Message>, current: Identity, latest: int)
    requires lib.RoundTrips() && OfBundle(e, lib.encodeIdentity(current.(notAfter := latest)))
    requires IdentityWithin(lib, disk, current.device, latest)
    ensures Keeps(lib, disk, e) && IdentityWithin(lib, Apply(disk, e), current.device, latest)
  {
    NamesApart();
    var renewed := current.(notAfter := latest);
    assert lib.parseIdentity(lib.encodeIdentity(renewed)) == Some(renewed);
  }

  lemma NamesApart()
    ensures STATE !in BUNDLE && IDENTITY !in BUNDLE && STATE != IDENTITY
  {
    assert |STATE| == 27 && |IDENTITY| == 23;
    assert |BUNDLE[0]| == 15 && |BUNDLE[1]| == 15 && |BUNDLE[2]| == 16 && |BUNDLE[3]| == 15;
  }

  lemma InstallKeeps(lib: Libraries, disk: Files, current: Identity, r: Renewed, a: Attempt)
    requires lib.RoundTrips() && IDENTITY in disk && lib.parseIdentity(disk[IDENTITY]) == Some(current)
    ensures AllKeep(lib, disk, Installed(lib, disk, current, r, a).effects)
  {
    hide Replacing, Replacements, Keeps, ApplyAll, AllKeep, AllOfBundle;
    NothingKeeps(lib, disk);
    if r.notAfter > current.notAfter {
      var p := Replacing(disk, Replacements(lib, current, r), a.faults);
      ReplacementIsOfBundle(lib, disk, current, r, a.faults);
      BundleKeeps(lib, disk, p.effects, current, r.notAfter);
      RemovalKeeps(lib, ApplyAll(disk, p.effects));
      KeepInTurn(lib, disk, p.effects, [Remove(STATE)]);
    }
  }

  lemma NothingKeeps(lib: Libraries, disk: Files)
    ensures AllKeep(lib, disk, [])
  {
  }

  lemma RemovalKeeps(lib: Libraries, disk: Files)
    ensures AllKeep(lib, disk, [Remove(STATE)])
  {
    OneKeeps(lib, disk, Remove(STATE));
  }

  lemma RequestKeeps(lib: Libraries, disk: Files, current: Identity, s: State, a: Attempt)
    requires lib.RoundTrips() && StateOn(lib, disk) == Some(s)
    requires IDENTITY in disk && lib.parseIdentity(disk[IDENTITY]) == Some(current)
    ensures AllKeep(lib, disk, Requested(lib, disk, current, s, a).effects)
  {
    hide Installed, ApplyAll, AllKeep, Backoff;
    var send := Send(RenewalRequest(s.requestId));
    var asked: Trace := if a.reaches then [send] else [];
    NothingKeeps(lib, disk);
    OneKeeps(lib, disk, send);
    NothingDone(disk);
    assert ApplyAll(disk, asked) == disk && AllKeep(lib, disk, asked);
    if !a.reaches || a.reply.None? {
      var failed := AfterFailure(s, a.now);
      assert lib.parseState(lib.encodeState(failed)) == Some(failed);
      OneKeeps(lib, disk, Replace(STATE, lib.encodeState(failed)));
      KeepInTurn(lib, disk, asked, [Replace(STATE, lib.encodeState(failed))]);
    } else {
      InstallKeeps(lib, disk, current, a.reply.value, a);
      KeepInTurn(lib, disk, asked, Installed(lib, disk, current, a.reply.value, a).effects);
    }
  }

  lemma NothingDone(disk: Files)
    ensures ApplyAll<seq<byte>, Message>(disk, []) == disk
  {
  }

  lemma AttemptKeeps(lib: Libraries, disk: Files, a: Attempt)
    requires lib.RoundTrips()
    ensures AllKeep(lib, disk, Renewing(lib, disk, a).effects)
  {
    hide Requested, ApplyAll, AllKeep;
    NothingKeeps(lib, disk);
    RemovalKeeps(lib, disk);
    NamesApart();
    var p := Renewing(lib, disk, a);
    if p.effects != [] && p.effects != [Remove(STATE)] {
      var current := IdentityOn(lib, disk).value;
      var s := if STATE in disk then StateOn(lib, disk).value else State(1, a.freshId, 0, 0);
      var write := Replace(STATE, lib.encodeState(s));
      assert lib.parseState(lib.encodeState(s)) == Some(s);
      var kept := disk[STATE := lib.encodeState(s)];
      OneKeeps(lib, disk, write);
      RequestKeeps(lib, kept, current, s, a);
      KeepInTurn(lib, disk, [write], Requested(lib, kept, current, s, a).effects);
    }
  }

  lemma {:induction false} RunAllKeep(lib: Libraries, boot: Files, steps: seq<Step>)
    requires lib.RoundTrips()
    ensures AllKeep(lib, boot, Run(lib, boot, steps))
  {
    hide Renewing, ApplyAll, AllKeep;
    if steps == [] {
      NothingKeeps(lib, boot);
    } else {
      var before := Run(lib, boot, steps[..|steps| - 1]);
      var last := steps[|steps| - 1];
      RunAllKeep(lib, boot, steps[..|steps| - 1]);
      var disk := ApplyAll(boot, before);
      var es := Renewing(lib, disk, last.attempt).effects;
      AttemptKeeps(lib, disk, last.attempt);
      var done := UpTo(es, last.cut);
      KeepPrefix(lib, disk, es, |done|);
      assert es[..|done|] == done;
      KeepInTurn(lib, boot, before, done);
    }
  }

  // ---- what every run keeps ----

  lemma {:induction false} PendingStays(lib: Libraries, disk: Files, es: Trace)
    requires AllKeep(lib, disk, es) && StateOn(lib, disk).Some?
    requires forall i :: 0 <= i < |es| ==> es[i] != Remove(STATE)
    ensures StateOn(lib, ApplyAll(disk, es)).Some?
    ensures StateOn(lib, ApplyAll(disk, es)).value.requestId == StateOn(lib, disk).value.requestId
  {
    if es != [] {
      PendingStays(lib, disk, es[..|es| - 1]);
      OnePending(lib, ApplyAll(disk, es[..|es| - 1]), es[|es| - 1]);
    }
  }

  lemma OnePending(lib: Libraries, disk: Files, e: Effect<seq<byte>, Message>)
    requires Keeps(lib, disk, e) && StateOn(lib, disk).Some? && e != Remove(STATE)
    ensures StateOn(lib, Apply(disk, e)).Some?
    ensures StateOn(lib, Apply(disk, e)).value.requestId == StateOn(lib, disk).value.requestId
  {
    NamesApart();
  }

  lemma {:induction false} KeepSuffix(lib: Libraries, disk: Files, es: Trace, i: nat)
    requires AllKeep(lib, disk, es) && i <= |es|
    ensures AllKeep(lib, ApplyAll(disk, es[..i]), es[i..])
    decreases |es|
  {
    hide Keeps;
    if i < |es| {
      var init := es[..|es| - 1];
      KeepSuffix(lib, disk, init, i);
      assert init[..i] == es[..i] && es[i..][..|es[i..]| - 1] == init[i..];
      ApplyInTurn(disk, es[..i], init[i..]);
      assert es[..i] + init[i..] == init;
    }
  }

  lemma KeepsAt(lib: Libraries, disk: Files, es: Trace, i: nat)
    requires AllKeep(lib, disk, es) && i < |es|
    ensures Keeps(lib, ApplyAll(disk, es[..i]), es[i])
  {
    hide Keeps;
    KeepPrefix(lib, disk, es, i + 1);
    assert es[..i + 1][..i] == es[..i];
  }

  /** Until the transaction ends every request carries the id of the first one, whatever was cut short
      and however often it failed. */
  lemma {:induction false} SameRequestUntilInstalled(lib: Libraries, boot: Files, steps: seq<Step>, i: nat, j: nat)
    requires lib.RoundTrips()
    requires var t := Run(lib, boot, steps);
             i < j < |t| && t[i].Send? && t[j].Send? && forall k :: i < k < j ==> t[k] != Remove(STATE)
    ensures Run(lib, boot, steps)[i] == Run(lib, boot, steps)[j]
  {
    hide AllKeep, Run, ApplyAll, StateOn;
    var t := Run(lib, boot, steps);
    RunAllKeep(lib, boot, steps);
    KeepsAt(lib, boot, t, i);
    KeepsAt(lib, boot, t, j);
    Stretch(lib, boot, steps, i, j);
    var d, between := ApplyAll(boot, t[..i]), t[i..j];
    forall k | 0 <= k < |between| ensures between[k] != Remove(STATE) {
      assert between[k] == t[i + k];
    }
    PendingStays(lib, d, between);
  }

  lemma {:induction false} KeptExpiry(lib: Libraries, disk: Files, es: Trace)
    requires AllKeep(lib, disk, es) && IDENTITY in disk && lib.parseIdentity(disk[IDENTITY]).Some?
    ensures var after := ApplyAll(disk, es);
            && IDENTITY in after && lib.parseIdentity(after[IDENTITY]).Some?
            && lib.parseIdentity(after[IDENTITY]).value.device == lib.parseIdentity(disk[IDENTITY]).value.device
            && lib.parseIdentity(after[IDENTITY]).value.notAfter >= lib.parseIdentity(disk[IDENTITY]).value.notAfter
  {
    if es != [] {
      KeptExpiry(lib, disk, es[..|es| - 1]);
      OneExpiry(lib, ApplyAll(disk, es[..|es| - 1]), es[|es| - 1]);
    }
  }

  /** A run from position `i` to position `j`. */
  lemma Stretch(lib: Libraries, boot: Files, steps: seq<Step>, i: nat, j: nat)
    requires lib.RoundTrips() && i <= j <= |Run(lib, boot, steps)|
    ensures var t := Run(lib, boot, steps); var at := ApplyAll(boot, t[..i]);
            AllKeep(lib, at, t[i..j]) && ApplyAll(boot, t[..j]) == ApplyAll(at, t[i..j])
  {
    hide AllKeep, Run, ApplyAll;
    var t := Run(lib, boot, steps);
    RunAllKeep(lib, boot, steps);
    KeepPrefix(lib, boot, t, j);
    KeepSuffix(lib, boot, t[..j], i);
    assert t[..j][..i] == t[..i] && t[..j][i..] == t[i..j];
    assert t[..j] == t[..i] + t[i..j];
    ApplyInTurn(boot, t[..i], t[i..j]);
  }

  /** Over every run, between any two crash points, the identity document keeps its device and never goes
      back to an earlier expiry, even when a rollback mixes old and new certificate files. */
  lemma ExpiryNeverGoesBack(lib: Libraries, boot: Files, steps: seq<Step>, i: nat, j: nat)
    requires lib.RoundTrips() && i <= j <= |Run(lib, boot, steps)|
    requires var before := ApplyAll(boot, Run(lib, boot, steps)[..i]);
             IDENTITY in before && lib.parseIdentity(before[IDENTITY]).Some?
    ensures var before := ApplyAll(boot, Run(lib, boot, steps)[..i]);
            var after := ApplyAll(boot, Run(lib, boot, steps)[..j]);
            && IDENTITY in after && lib.parseIdentity(after[IDENTITY]).Some?
            && lib.parseIdentity(after[IDENTITY]).value.device == lib.parseIdentity(before[IDENTITY]).value.device
            && lib.parseIdentity(after[IDENTITY]).value.notAfter >= lib.parseIdentity(before[IDENTITY]).value.notAfter
  {
    hide AllKeep, Run, ApplyAll;
    Stretch(lib, boot, steps, i, j);
    KeptExpiry(lib, ApplyAll(boot, Run(lib, boot, steps)[..i]), Run(lib, boot, steps)[i..j]);
  }

  lemma OneExpiry(lib: Libraries, disk: Files, e: Effect<seq<byte>, Message>)
    requires Keeps(lib, disk, e) && IDENTITY in disk && lib.parseIdentity(disk[IDENTITY]).Some?
    ensures var after := Apply(disk, e);
            && IDENTITY in after && lib.parseIdentity(after[IDENTITY]).Some?
            && lib.parseIdentity(after[IDENTITY]).value.device == lib.parseIdentity(disk[IDENTITY]).value.device
            && lib.parseIdentity(after[IDENTITY]).value.notAfter >= lib.parseIdentity(disk[IDENTITY]).value.notAfter
  {
    NamesApart();
  }

  // ---- pauses ----

  /** The state an attempt continues with. */
  function Continuing(lib: Libraries, disk: Files, a: Attempt): State {
    if StateOn(lib, disk).Some? then StateOn(lib, disk).value else State(1, a.freshId, 0, 0)
  }

  lemma LastReplaceStays(disk: Files, es: Trace, name: string, content: seq<byte>)
    ensures var after := ApplyAll(disk, es + [Replace(name, content)]); name in after && after[name] == content
  {
    ApplyOneMore(disk, es, Replace(name, content));
  }

  /** A failed request leaves its id with one more failure and the time before which nothing is tried. */
  lemma FailureIsRecorded(lib: Libraries, disk: Files, a: Attempt)
    requires lib.RoundTrips() && Renewing(lib, disk, a).result == Err(RequestFailed)
    ensures StateOn(lib, ApplyAll(disk, Renewing(lib, disk, a).effects))
         == Some(AfterFailure(Continuing(lib, disk, a), a.now))
  {
    hide ApplyAll, Backoff, Installed, AfterFailure;
    var s := Continuing(lib, disk, a);
    NotARequestFailure(lib, disk, a);
    var first := [Replace(STATE, lib.encodeState(s))] + if a.reaches then [Send(RenewalRequest(s.requestId))] else [];
    var failed := AfterFailure(s, a.now);
    assert Renewing(lib, disk, a).effects == first + [Replace(STATE, lib.encodeState(failed))];
    LastReplaceStays(disk, first, STATE, lib.encodeState(failed));
    assert lib.parseState(lib.encodeState(failed)) == Some(failed);
  }

  lemma NotARequestFailure(lib: Libraries, disk: Files, a: Attempt)
    ensures forall d: Files, current: Identity, r: Renewed ::
              Installed(lib, d, current, r, a).result != Err(RequestFailed)
  {
    hide Replacing, Replacements;
  }

  /** While the recorded pause lasts an attempt does nothing, unless it finds the certificate renewed and
      removes the state. */
  lemma OneAttemptPauses(lib: Libraries, disk: Files, b: Attempt)
    requires StateOn(lib, disk).Some? && b.now < StateOn(lib, disk).value.nextAttempt
    ensures Renewing(lib, disk, b).effects == [] || Renewing(lib, disk, b).effects == [Remove(STATE)]
  {
    hide Requested;
  }

  /** No request leaves before the state is removed. */
  ghost predicate Quiet(t: Trace) {
    forall j :: 0 <= j < |t| && t[j].Send? ==> exists k :: 0 <= k < j && t[k] == Remove(STATE)
  }

  lemma {:induction false} QuietOneMore(t: Trace, es: Trace)
    requires Quiet(t) && (Remove(STATE) in t || forall i :: 0 <= i < |es| ==> !es[i].Send?)
    ensures Quiet(t + es)
  {
    var all := t + es;
    forall j | 0 <= j < |all| && all[j].Send? ensures exists k :: 0 <= k < j && all[k] == Remove(STATE) {
      if j < |t| {
        var k :| 0 <= k < j && t[k] == Remove(STATE);
        assert all[k] == t[k];
      } else {
        assert es[j - |t|] == all[j];
        var k :| 0 <= k < |t| && t[k] == Remove(STATE);
        assert all[k] == t[k];
      }
    }
  }

  predicate AllBefore(steps: seq<Step>, time: u64) {
    forall k :: 0 <= k < |steps| ==> steps[k].attempt.now < time
  }

  lemma {:induction false} PausedRun(lib: Libraries, disk: Files, steps: seq<Step>)
    requires StateOn(lib, disk).Some? && AllBefore(steps, StateOn(lib, disk).value.nextAttempt)
    ensures var t := Run(lib, disk, steps);
            Quiet(t) && (Remove(STATE) in t || StateOn(lib, ApplyAll(disk, t)) == StateOn(lib, disk))
  {
    hide StateOn, Renewing, Quiet;
    if steps == [] {
      EmptyIsQuiet();
    } else {
      var before := Run(lib, disk, steps[..|steps| - 1]);
      var last := steps[|steps| - 1];
      PausedRun(lib, disk, steps[..|steps| - 1]);
      var now := ApplyAll(disk, before);
      var es := UpTo(Renewing(lib, now, last.attempt).effects, last.cut);
      if Remove(STATE) !in before {
        OneAttemptPauses(lib, now, last.attempt);
        assert es == [] || es == [Remove(STATE)];
        if es == [] {
          assert before + es == before;
        } else {
          assert (before + es)[|before|] == Remove(STATE);
        }
      } else {
        var k :| 0 <= k < |before| && before[k] == Remove(STATE);
        assert (before + es)[k] == Remove(STATE);
      }
      QuietOneMore(before, es);
    }
  }

  lemma EmptyIsQuiet()
    ensures Quiet([])
  {
  }

  lemma {:induction false} RunInTurn(lib: Libraries, boot: Files, first: seq<Step>, next: seq<Step>)
    ensures Run(lib, boot, first + next) == Run(lib, boot, first) + Run(lib, ApplyAll(boot, Run(lib, boot, first)), next)
  {
    hide Renewing, ApplyAll;
    var before := Run(lib, boot, first);
    if next == [] {
      assert first + next == first && before + [] == before;
    } else {
      var init, last := next[..|next| - 1], next[|next| - 1];
      RunInTurn(lib, boot, first, init);
      assert (first + next)[..|first + next| - 1] == first + init;
      var rest := Run(lib, ApplyAll(boot, before), init);
      ApplyInTurn(boot, before, rest);
      Assoc(before, rest, UpTo(Renewing(lib, ApplyAll(boot, before + rest), last.attempt).effects, last.cut));
    }
  }

  /** Over every run: after a failed request at time `t`, no request leaves the machine before the clock
      reaches `t` plus the pause for that many failures, unless the state is removed first. */
  lemma PauseIsKept(lib: Libraries, boot: Files, first: seq<Step>, a: Attempt, cut: nat, next: seq<Step>)
    requires lib.RoundTrips()
    requires var disk := ApplyAll(boot, Run(lib, boot, first));
             && Renewing(lib, disk, a).result == Err(RequestFailed) && cut >= |Renewing(lib, disk, a).effects|
             && var failures := AfterFailure(Continuing(lib, disk, a), a.now).failures;
                AllBefore(next, Sum(a.now, Backoff(failures)))
    ensures var n := |Run(lib, boot, first + [Step(a, cut)])|; var t := Run(lib, boot, first + [Step(a, cut)] + next);
            forall j :: n <= j < |t| && t[j].Send? ==> exists k :: n <= k < j && t[k] == Remove(STATE)
  {
    hide Renewing, Run, ApplyAll, StateOn, Backoff, Continuing, Quiet;
    var disk := ApplyAll(boot, Run(lib, boot, first));
    var upTo := first + [Step(a, cut)];
    FailureIsRecorded(lib, disk, a);
    WholeStep(lib, boot, first, a, cut);
    RunInTurn(lib, boot, upTo, next);
    var after := ApplyAll(boot, Run(lib, boot, upTo));
    PausedRun(lib, after, next);
    var before, rest := Run(lib, boot, upTo), Run(lib, after, next);
    QuietAfter(before, rest);
  }

  lemma WholeStep(lib: Libraries, boot: Files, first: seq<Step>, a: Attempt, cut: nat)
    requires cut >= |Renewing(lib, ApplyAll(boot, Run(lib, boot, first)), a).effects|
    ensures var disk := ApplyAll(boot, Run(lib, boot, first));
            ApplyAll(boot, Run(lib, boot, first + [Step(a, cut)])) == ApplyAll(disk, Renewing(lib, disk, a).effects)
  {
    hide Renewing, ApplyAll;
    var before := Run(lib, boot, first);
    var es := Renewing(lib, ApplyAll(boot, before), a).effects;
    assert (first + [Step(a, cut)])[..|first|] == first;
    assert UpTo(es, cut) == es;
    ApplyInTurn(boot, before, es);
  }

  lemma QuietAfter(before: Trace, rest: Trace)
    requires Quiet(rest)
    ensures var t := before + rest;
            forall j :: |before| <= j < |t| && t[j].Send? ==> exists k :: |before| <= k < j && t[k] == Remove(STATE)
  {
    var t := before + rest;
    forall j | |before| <= j < |t| && t[j].Send? ensures exists k :: |before| <= k < j && t[k] == Remove(STATE) {
      assert rest[j - |before|] == t[j];
      var k :| 0 <= k < j - |before| && rest[k] == Remove(STATE);
      assert t[|before| + k] == rest[k];
    }
  }

  /** Only a request that got no usable answer is counted: when the reply cannot be installed, the state
      still allows an attempt at the same time. */
  lemma InstallFailureIsNotPaused(lib: Libraries, disk: Files, a: Attempt)
    requires lib.RoundTrips() && Renewing(lib, disk, a).result in {Err(NotExtended), Err(NotMatching), Err(InstallFailed)}
    ensures StateOn(lib, ApplyAll(disk, Renewing(lib, disk, a).effects)) == Some(Continuing(lib, disk, a))
    ensures Continuing(lib, disk, a).nextAttempt <= a.now
  {
    hide ApplyAll, Backoff, Replacing, Replacements, AfterFailure, OfBundle;
    var s, current := Continuing(lib, disk, a), IdentityOn(lib, disk).value;
    var kept := disk[STATE := lib.encodeState(s)];
    var write, send := Replace(STATE, lib.encodeState(s)), Send(RenewalRequest(s.requestId));
    var rest := Installed(lib, kept, current, a.reply.value, a).effects;
    assert Renewing(lib, disk, a).effects == [write, send] + rest;
    ApplyInTurn(disk, [write, send], rest);
    assert [write] + [send] == [write, send];
    ApplyInTurn(disk, [write], [send]);
    ApplyOne(disk, write);
    ApplyOne(kept, send);
    ReplacementIsOfBundle(lib, kept, current, a.reply.value, a.faults);
    var identity := lib.encodeIdentity(current.(notAfter := a.reply.value.notAfter));
    BundleLeavesState(kept, rest, identity);
    assert lib.parseState(lib.encodeState(s)) == Some(s);
  }

  lemma {:induction false} BundleLeavesState(disk: Files, es: Trace, identity: seq<byte>)
    requires STATE in disk && AllOfBundle(es, identity)
    ensures STATE in ApplyAll(disk, es) && ApplyAll(disk, es)[STATE] == disk[STATE]
  {
    NamesApart();
    if es != [] {
      var init := es[..|es| - 1];
      assert forall i :: 0 <= i < |init| ==> init[i] == es[i];
      assert OfBundle(es[|es| - 1], identity);
      BundleLeavesState(disk, init, identity);
    }
  }
}
