/** How a call on the transport-identity outbox ends when it is not cut short, acknowledged or not. */
module TransportOutcomes {
  import opened Bytes
  import opened Host
  import opened Text
  import opened TransportIdentity
  import opened Wrappers

  function Puts(es: seq<Effect<StateFile, Put>>): seq<Put> {
    if es == [] then [] else Puts(es[..|es| - 1]) + if es[|es| - 1].Send? then [es[|es| - 1].message] else []
  }

  /** The state file as it stands for this identity: another identity's, or one without an identity, counts as
      none. */
  function Standing(disk: Disk<StateFile>, identity: IdentityBinding): ReconcileState {
    if STATE_FILE in disk && disk[STATE_FILE].Parsed? && disk[STATE_FILE].state.schemaVersion == 2
       && disk[STATE_FILE].state.identity == Some(identity)
    then disk[STATE_FILE].state else ReconcileState(2, Some(identity), None, None)
  }

  /** A registration the outbox takes: one to eight concrete endpoints with certificate hashes, under the id
      that its content gives. */
  predicate Takes(lib: Libraries, r: Request) {
    && r.schemaVersion == 1 && 0 < |r.endpoints| <= 8
    && r.requestId == "transport-v1-" + Digest(lib, r.endpoints)
    && (forall i :: 0 <= i < |r.endpoints| ==> lib.concreteAddress(r.endpoints[i].endpoint))
    && (forall i :: 0 <= i < |r.endpoints| ==> CanonicalHex(r.endpoints[i].serverCertSha256, 32))
  }

  /** A state file that can be trusted: of the first form without an identity, or of the second with one; with
      well-formed digests, and a pending registration that the outbox would take. */
  predicate Trusted(lib: Libraries, s: ReconcileState) {
    && (s.identity.None? ==> s.schemaVersion == 1)
    && (s.identity.Some? ==> s.schemaVersion == 2 && Named(s.identity.value))
    && (s.appliedDigest.Some? ==> CanonicalHex(s.appliedDigest.value, 32))
    && (s.pending.Some? ==>
          Takes(lib, s.pending.value.request) && s.pending.value.digest == Digest(lib, s.pending.value.request.endpoints))
  }

  predicate Named(identity: IdentityBinding) {
    && (exists i :: 0 <= i < 16 && identity.deviceId[i] != 0)
    && (exists i :: 0 <= i < 16 && identity.deviceKeyId[i] != 0)
  }

  lemma NamedIsValid(identity: IdentityBinding)
    ensures Named(identity) <==> ValidIdentity(identity)
  {
    var zeros: seq<byte> := seq(16, _ => 0);
    if identity.deviceId != zeros {
      var i :| 0 <= i < 16 && identity.deviceId[i] != zeros[i];
    }
    if identity.deviceKeyId != zeros {
      var i :| 0 <= i < 16 && identity.deviceKeyId[i] != zeros[i];
    }
  }

  /** What is refused before anything is written or sent, in this order. */
  lemma RefusesExactly(lib: Libraries, disk: Disk<StateFile>, identity: IdentityBinding, desired: Request, acknowledged: bool)
    ensures var plan := Reconciled(lib, disk, identity, Some(desired), acknowledged);
            && (plan == Plan([], Err(InvalidRequest)) <==> !Takes(lib, desired))
            && (plan == Plan([], Err(InvalidIdentity)) <==> Takes(lib, desired) && !Named(identity))
            && (plan == Plan([], Err(InvalidState)) <==>
                  && Takes(lib, desired) && Named(identity) && STATE_FILE in disk
                  && (disk[STATE_FILE].Malformed? || !Trusted(lib, disk[STATE_FILE].state)))
    ensures Reconciled(lib, disk, identity, None, acknowledged) == Plan([], Ok(NoExplicitEndpoints))
  {
    hide Digest, CanonicalHex, Named, ValidIdentity;
    NamedIsValid(identity);
    if STATE_FILE in disk && disk[STATE_FILE].Parsed? && disk[STATE_FILE].state.identity.Some? {
      NamedIsValid(disk[STATE_FILE].state.identity.value);
    }
  }

  /** The wish is settled: applied for this identity, with nothing pending. */
  predicate Done(lib: Libraries, disk: Disk<StateFile>, identity: IdentityBinding, desired: Request) {
    Standing(disk, identity).appliedDigest == Some(Digest(lib, desired.endpoints)) && Standing(disk, identity).pending.None?
  }

  /** The request that is sent: the one already pending if it has the same content, else the desired one. */
  function Sent(lib: Libraries, disk: Disk<StateFile>, identity: IdentityBinding, desired: Request): Request {
    var pending := Standing(disk, identity).pending;
    if pending.Some? && pending.value.digest == Digest(lib, desired.endpoints) then pending.value.request else desired
  }

  function Whole(lib: Libraries, disk: Disk<StateFile>, identity: IdentityBinding, desired: Request, acknowledged: bool)
    : seq<Effect<StateFile, Put>>
  {
    Reconciled(lib, disk, identity, Some(desired), acknowledged).effects
  }

  predicate Accepted(lib: Libraries, disk: Disk<StateFile>, identity: IdentityBinding, desired: Request) {
    ValidRequest(lib, desired) && ValidIdentity(identity) && Loadable(lib, disk)
  }

  lemma PutsOf(a: Effect<StateFile, Put>, b: Effect<StateFile, Put>, c: Effect<StateFile, Put>)
    ensures var one, two, three := [a], [a, b], [a, b, c];
            && Puts(one) == (if a.Send? then [a.message] else [])
            && Puts(two) == Puts(one) + (if b.Send? then [b.message] else [])
            && Puts(three) == Puts(two) + (if c.Send? then [c.message] else [])
  {
    assert [a][..0] == [] && [a, b][..1] == [a] && [a, b, c][..2] == [a, b];
  }

  /** A settled wish costs nothing. Any other is sent once; acknowledged, it is the only thing the file knows
      afterwards; unacknowledged, it stays pending and the answer is an error. */
  lemma CallEnds(lib: Libraries, disk: Disk<StateFile>, identity: IdentityBinding, desired: Request, acknowledged: bool)
    requires Accepted(lib, disk, identity, desired)
    ensures var es := Whole(lib, disk, identity, desired, acknowledged);
            var result := Reconciled(lib, disk, identity, Some(desired), acknowledged).result;
            var after := ApplyAll(disk, es); var digest := Digest(lib, desired.endpoints);
            if Done(lib, disk, identity, desired) then es == [] && result == Ok(Unchanged)
            else
              && Puts(es) == [Put(identity, Sent(lib, disk, identity, desired), acknowledged)]
              && STATE_FILE in after && after[STATE_FILE].Parsed?
              && if acknowledged then
                   result == Ok(Applied) && after[STATE_FILE].state == ReconcileState(2, Some(identity), Some(digest), None)
                 else
                   && result == Err(PutFailed)
                   && after[STATE_FILE].state
                      == ReconcileState(2, Some(identity), Standing(disk, identity).appliedDigest,
                                        Some(PendingRegistration(digest, Sent(lib, disk, identity, desired))))
  {
    hide ValidRequest, Digest, CanonicalHex, ValidIdentity, ApplyAll, Puts, ValidState;
    var es := Whole(lib, disk, identity, desired, acknowledged);
    if !Done(lib, disk, identity, desired) {
      assert |es| >= 1;
      var a, b, c := es[0], es[|es| / 2], es[|es| - 1];
      PutsOf(a, b, c);
      PutsOf(a, c, c);
      ApplyOne(disk, a);
      if |es| == 1 {
        assert es == [a];
      } else if |es| == 2 {
        assert es == [a] + [c];
        assert es == [a, c];
        ApplyOneMore(disk, [a], c);
      } else {
        assert es == [a, b] + [c];
        assert [a, b] == [a] + [b];
        assert es == [a, b, c];
        ApplyOneMore(disk, [a], b);
        ApplyOneMore(disk, [a] + [b], c);
      }
    }
  }

  /** After a call without an acknowledgement the same wish sends the same registration again, without writing
      it first. */
  lemma RetryRepeats(lib: Libraries, disk: Disk<StateFile>, identity: IdentityBinding, desired: Request, acknowledged: bool)
    requires Accepted(lib, disk, identity, desired) && !Done(lib, disk, identity, desired)
    ensures var after := ApplyAll(disk, Whole(lib, disk, identity, desired, false));
            && Accepted(lib, after, identity, desired) && !Done(lib, after, identity, desired)
            && Sent(lib, after, identity, desired) == Sent(lib, disk, identity, desired)
            && Whole(lib, after, identity, desired, acknowledged) != []
            && Whole(lib, after, identity, desired, acknowledged)[0]
               == Send(Put(identity, Sent(lib, disk, identity, desired), acknowledged))
  {
    hide ValidRequest, Digest, CanonicalHex, ValidIdentity, ApplyAll, Whole, Puts;
    CallEnds(lib, disk, identity, desired, false);
    var after := ApplyAll(disk, Whole(lib, disk, identity, desired, false));
    WholeOf(lib, after, identity, desired, acknowledged);
  }

  lemma WholeOf(lib: Libraries, disk: Disk<StateFile>, identity: IdentityBinding, desired: Request, acknowledged: bool)
    requires Accepted(lib, disk, identity, desired) && !Done(lib, disk, identity, desired)
    requires Standing(disk, identity).pending.Some? && Standing(disk, identity).pending.value.digest == Digest(lib, desired.endpoints)
    ensures var es := Whole(lib, disk, identity, desired, acknowledged);
            es != [] && es[0] == Send(Put(identity, Sent(lib, disk, identity, desired), acknowledged))
  {
    hide ValidRequest, Digest, CanonicalHex, ValidIdentity;
  }
}
