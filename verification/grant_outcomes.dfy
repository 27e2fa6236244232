/** How a renewal that is not cut short ends: the stored state, the messages sent and the answer, for every
    state it finds and everything it meets. */
module GrantOutcomes {
  import opened Bytes
  import opened Grant
  import opened GrantRuns
  import opened Host
  import opened Text
  import opened Wrappers

  function Whole(lib: Libraries, disk: Disk<GrantFile>, s: Subject, a: Attempt): seq<Effect<GrantFile, Message>> {
    Renewal(lib, disk, s, a).Effects(StatePath(lib, s))
  }

  function Left(lib: Libraries, disk: Disk<GrantFile>, s: Subject, a: Attempt): GrantState {
    Stored(lib, ApplyAll(disk, Whole(lib, disk, s, a)), s)
  }

  function Messages(es: seq<Effect<GrantFile, Message>>): seq<Message> {
    if es == [] then [] else Messages(es[..|es| - 1]) + if es[|es| - 1].Send? then [es[|es| - 1].message] else []
  }

  // ---- what the call goes by ----

  /** The stored grant is inside its window and well formed. */
  predicate Holding(lib: Libraries, state: GrantState, now: u64) {
    && state.active.Some? && state.active.value.verification.notBefore <= now < state.active.value.expiresAt
    && ValidAccessGrant(lib, state.active.value.accessGrant)
  }

  /** A renewal is asked for: nothing revoked, no grant that can wait, and a sequence left to use. */
  predicate Asking(lib: Libraries, state: GrantState, now: u64) {
    && state.revokedAt.None?
    && !(Holding(lib, state, now) && now < state.active.value.verification.refreshAfter)
    && (state.pending.Some? || state.completedSequence < 0xFFFF_FFFF_FFFF_FFFF)
  }

  /** The transaction that is pending while the Cloud is asked. */
  function Pending(lib: Libraries, state: GrantState, s: Subject, now: u64): PendingIssuance
    requires state.pending.None? ==> state.completedSequence < 0xFFFF_FFFF_FFFF_FFFF
  {
    if state.pending.Some? then state.pending.value
    else PendingIssuance(state.completedSequence + 1, RequestId(lib, s, state.completedSequence + 1), if now == 0 then 1 else now)
  }

  /** The Cloud's response and what Core says about it fit the authorization, each other and the clock. */
  predicate Fitting(lib: Libraries, s: Subject, x: Response, r: Report, clock: u64) {
    && x.grantId != NIL && 0 < |x.accessGrant| <= 10_924
    && lib.base64(x.accessGrant).Some? && 0 < |lib.base64(x.accessGrant).value| <= 8192
    && r.schemaVersion == 1 && r.ok
    && r.tenantId == s.tenantId && r.deviceId == s.deviceId && r.deviceKeyId == s.deviceKeyId
    && r.nodePoolId == s.nodePoolId && r.servicePermission == "private.tun.connect"
    && r.routePolicyId == s.projectionId && r.routePolicyGeneration == s.projectionGeneration
    && r.routePolicyContentHash == s.projectionContentHash
    && r.grantId == x.grantId && r.expiresAt == x.expiresAt && r.refreshAfter == x.refreshAfter
    && 0 < r.notBefore <= r.refreshAfter < r.expiresAt && r.notBefore <= clock < r.expiresAt
  }

  // ---- what is refused at once ----

  predicate Named(id: Bytes16) {
    exists i :: 0 <= i < 16 && id[i] != 0
  }

  lemma NilIsZeros(id: Bytes16)
    ensures id != NIL <==> Named(id)
  {
    if id != NIL {
      var i :| 0 <= i < 16 && id[i] != NIL[i];
    }
  }

  /** Every id of the authorization is there, and so are its generation and content hash. */
  predicate Complete(s: Subject) {
    && Named(s.nodePoolId) && Named(s.tenantId) && Named(s.deviceId) && Named(s.deviceKeyId) && Named(s.projectionId)
    && s.projectionGeneration != 0 && CanonicalHex(s.projectionContentHash, 32)
  }

  /** The grant of this sequence for this authorization, as Core vouched for it. */
  predicate Held(lib: Libraries, s: Subject, g: CachedGrant, sequence: u64) {
    && g.sequence == sequence != 0 && g.requestId == RequestId(lib, s, sequence) && Named(g.grantId)
    && 0 < g.fetchedAt < g.expiresAt && 0 < |g.accessGrant| <= 10_924
    && lib.base64(g.accessGrant).Some? && 0 < |lib.base64(g.accessGrant).value| <= 8192
    && var r := g.verification;
       && r.schemaVersion == 1 && r.ok && r.grantId == g.grantId && r.expiresAt == g.expiresAt
       && r.tenantId == s.tenantId && r.deviceId == s.deviceId && r.deviceKeyId == s.deviceKeyId
       && r.nodePoolId == s.nodePoolId && r.servicePermission == "private.tun.connect"
       && r.routePolicyId == s.projectionId && r.routePolicyGeneration == s.projectionGeneration
       && r.routePolicyContentHash == s.projectionContentHash
       && 0 < r.notBefore <= r.refreshAfter < r.expiresAt
  }

  /** A state file of this authorization: its grant is the last one completed, and what is pending is the next. */
  predicate Consistent(lib: Libraries, s: Subject, state: GrantState) {
    && state.schemaVersion == 2 && state.subject == s
    && (state.active.Some? ==> Held(lib, s, state.active.value, state.completedSequence) && state.revokedAt.None?)
    && (state.active.None? ==> state.completedSequence == 0)
    && (state.pending.Some? ==>
          && state.pending.value.sequence as int == state.completedSequence + 1
          && state.pending.value.requestId == RequestId(lib, s, state.pending.value.sequence)
          && state.pending.value.createdAt != 0)
  }

  /** An incomplete authorization is refused first, then a state file that is not a consistent one of it; nothing
      else is refused without a look at what is stored. */
  lemma RefusesExactly(lib: Libraries, disk: Disk<GrantFile>, s: Subject, a: Attempt)
    ensures var plan := Renewal(lib, disk, s, a); var path := StatePath(lib, s);
            && (plan.result == Err(SubjectInvalid) <==> !Complete(s))
            && (plan.result == Err(StateLoadFailed) <==>
                  Complete(s) && path in disk && !(disk[path].State? && Consistent(lib, s, disk[path].state)))
            && (plan.result in [Err(SubjectInvalid), Err(StateLoadFailed)] ==> plan.Effects(path) == [])
  {
    hide CanonicalHex, RequestId, ValidRequestId, StatePath, PlanFetch, StateUsable, RefreshDue, Waiting, ValidFor, Named, Consistent;
    NilIsZeros(s.nodePoolId);
    NilIsZeros(s.tenantId);
    NilIsZeros(s.deviceId);
    NilIsZeros(s.deviceKeyId);
    NilIsZeros(s.projectionId);
    var path := StatePath(lib, s);
    if Complete(s) && path in disk && disk[path].State? {
      ConsistentIsValid(lib, s, disk[path].state);
    }
    FetchIsNoRefusal(lib, s, a);
  }

  lemma FetchIsNoRefusal(lib: Libraries, s: Subject, a: Attempt)
    ensures forall w: GrantState, opening :: w.pending.Some? ==>
              PlanFetch(lib, s, w, opening, a).result !in [Err(SubjectInvalid), Err(StateLoadFailed)]
  {
    hide ValidFor, Accepts, ValidResponse, StateUsable;
  }

  lemma ConsistentIsValid(lib: Libraries, s: Subject, state: GrantState)
    requires ValidSubject(s)
    ensures ValidFor(lib, state, s) <==> Consistent(lib, s, state)
  {
    hide RequestId, ValidRequestId, CanonicalHex, Named;
    if state.active.Some? {
      NilIsZeros(state.active.value.grantId);
      NilIsZeros(state.active.value.verification.grantId);
    }
    if state.pending.Some? {
      RequestIdIsValid(lib, s, state.pending.value.sequence);
    }
  }

  // ---- what it leaves ----

  /** The state file holds what was written last. */
  lemma LeftIsWritten(lib: Libraries, disk: Disk<GrantFile>, s: Subject, a: Attempt)
    requires ValidSubject(s) && Loadable(lib, disk, s)
    ensures var plan := Renewal(lib, disk, s, a);
            Left(lib, disk, s, a) == if plan.closing.Some? then plan.closing.value
                                     else if plan.opening.Some? then plan.opening.value else Stored(lib, disk, s)
  {
    hide StatePath, ValidSubject, Renewal, ValidFor, RequestId, Completions, ApplyAll;
    var plan := Renewal(lib, disk, s, a);
    PlanFollows(lib, disk, s, a);
    MiddleLeavesStates(lib, disk, s, a, s);
    var p := Part(plan.opening, plan.middle, plan.closing);
    PartResult(disk, StatePath(lib, s), p);
  }

  lemma {:induction false} MessagesAdd(a: seq<Effect<GrantFile, Message>>, b: seq<Effect<GrantFile, Message>>)
    ensures Messages(a + b) == Messages(a) + Messages(b)
  {
    if b == [] {
      assert a + b == a;
    } else {
      assert (a + b)[..|a + b| - 1] == a + b[..|b| - 1];
      MessagesAdd(a, b[..|b| - 1]);
    }
  }

  lemma WritingIsSilent(path: string, state: Option<GrantState>)
    ensures Messages(Writing(path, state)) == []
  {
    if state.Some? {
      assert Writing(path, state)[..0] == [];
    }
  }

  lemma SentInTheMiddle(lib: Libraries, disk: Disk<GrantFile>, s: Subject, a: Attempt)
    ensures Messages(Whole(lib, disk, s, a)) == Messages(Renewal(lib, disk, s, a).middle)
  {
    hide Renewal, StatePath, Writing, Messages;
    var plan, path := Renewal(lib, disk, s, a), StatePath(lib, s);
    MessagesAdd(Writing(path, plan.opening) + plan.middle, Writing(path, plan.closing));
    MessagesAdd(Writing(path, plan.opening), plan.middle);
    WritingIsSilent(path, plan.opening);
    WritingIsSilent(path, plan.closing);
  }

  lemma NoMessages()
    ensures Messages([]) == []
  {
  }

  lemma OneMessage(m: Message)
    ensures Messages([Send(m)]) == [m]
  {
    var sent: seq<Effect<GrantFile, Message>> := [Send(m)];
    assert sent[..0] == [];
    NoMessages();
  }

  /** Without a renewal to ask for nothing happens: a revoked authorization stays refused, a grant that can
      wait is handed out, and the last sequence is the last. */
  lemma QuietCall(lib: Libraries, disk: Disk<GrantFile>, s: Subject, a: Attempt)
    requires ValidSubject(s) && Loadable(lib, disk, s) && !Asking(lib, Stored(lib, disk, s), a.now)
    ensures var state := Stored(lib, disk, s); var result := Renewal(lib, disk, s, a).result;
            && Whole(lib, disk, s, a) == []
            && (state.revokedAt.Some? ==> result == Err(Revoked))
            && (state.revokedAt.None? ==>
                  result == if Holding(lib, state, a.now) && a.now < state.active.value.verification.refreshAfter
                            then Ok(Current(state.active.value)) else Err(SequenceOverflow))
  {
    hide ValidFor, ValidSubject, PlanFetch, StatePath, ValidAccessGrant, RequestId;
  }

  /** A call that asks, up to the Cloud's answer. */
  lemma AskingPlan(lib: Libraries, disk: Disk<GrantFile>, s: Subject, a: Attempt)
    requires ValidSubject(s) && Loadable(lib, disk, s) && Asking(lib, Stored(lib, disk, s), a.now)
    ensures var state := Stored(lib, disk, s); var p := Pending(lib, state, s, a.now);
            var w := state.(pending := Some(p)); var plan := Renewal(lib, disk, s, a);
            && ValidFor(lib, w, s) && p.sequence as int == state.completedSequence + 1
            && p.requestId == RequestId(lib, s, state.completedSequence + 1)
            && plan == PlanFetch(lib, s, w, plan.opening, a)
            && (if plan.opening.Some? then plan.opening.value else state) == w
  {
    hide ValidSubject, PlanFetch, StatePath, ValidAccessGrant, RequestId, ValidFor;
    LoadableIsLive(lib, disk, s);
    var state := Stored(lib, disk, s);
    WaitingIsValid(lib, state, s, a.now);
    PendingIsNext(lib, state, s);
    var w := state.(pending := Some(Pending(lib, state, s, a.now)));
    if state.pending.Some? {
      assert w == state;
      assert Renewal(lib, disk, s, a) == PlanFetch(lib, s, w, None, a);
    } else {
      assert Waiting(lib, state, s, a.now) == w;
      assert Renewal(lib, disk, s, a) == PlanFetch(lib, s, w, Some(w), a);
    }
    assert Renewal(lib, disk, s, a).opening == if state.pending.Some? then None else Some(w) by {
      FetchKeepsOpening(lib, s, w, a);
    }
  }

  lemma FetchKeepsOpening(lib: Libraries, s: Subject, w: GrantState, a: Attempt)
    requires w.pending.Some?
    ensures PlanFetch(lib, s, w, None, a).opening == None && PlanFetch(lib, s, w, Some(w), a).opening == Some(w)
  {
    hide ValidFor, PlanIssued, StateUsable;
  }

  lemma PendingIsNext(lib: Libraries, state: GrantState, s: Subject)
    requires ValidFor(lib, state, s)
    ensures state.schemaVersion == 2 && state.subject == s
    ensures state.pending.Some? ==>
              && state.pending.value.sequence as int == state.completedSequence + 1
              && state.pending.value.requestId == RequestId(lib, s, state.completedSequence + 1)
  {
    hide GrantValidFor, ValidSubject, RequestId;
  }

  /** A fetch that fails for the moment, or that wants another policy first, leaves the pending transaction
      and the grant; the grant is handed out again as long as it is usable, after the former only. */
  lemma UnansweredCall(lib: Libraries, disk: Disk<GrantFile>, s: Subject, a: Attempt)
    requires ValidSubject(s) && Loadable(lib, disk, s) && Asking(lib, Stored(lib, disk, s), a.now)
    requires a.fetched.Transient? || a.fetched.PolicyResyncRequired?
    ensures var state := Stored(lib, disk, s); var p := Pending(lib, state, s, a.now);
            && Messages(Whole(lib, disk, s, a)) == [Fetch(s, state.completedSequence + 1, RequestId(lib, s, state.completedSequence + 1))]
            && Left(lib, disk, s, a) == state.(pending := Some(p))
            && Renewal(lib, disk, s, a).result
               == if a.fetched.PolicyResyncRequired? then Err(PolicyResync)
                  else if Holding(lib, state, a.now) then Ok(RetainedAfterTransientFailure(state.active.value))
                  else Err(FetchFailed)
  {
    hide ValidSubject, StatePath, ValidAccessGrant, RequestId, ValidFor, Renewal, Messages, Whole, Left;
    AskingPlan(lib, disk, s, a);
    LeftIsWritten(lib, disk, s, a);
    SentInTheMiddle(lib, disk, s, a);
    var state := Stored(lib, disk, s);
    OneMessage(Fetch(s, state.completedSequence + 1, RequestId(lib, s, state.completedSequence + 1)));
  }

  /** A denial revokes: the grant and the pending transaction are gone, and the time is recorded. */
  lemma DenialRevokes(lib: Libraries, disk: Disk<GrantFile>, s: Subject, a: Attempt)
    requires ValidSubject(s) && Loadable(lib, disk, s) && Asking(lib, Stored(lib, disk, s), a.now) && a.fetched.Denied?
    ensures var state := Stored(lib, disk, s);
            && Messages(Whole(lib, disk, s, a)) == [Fetch(s, state.completedSequence + 1, RequestId(lib, s, state.completedSequence + 1))]
            && Left(lib, disk, s, a) == GrantState(2, s, 0, None, None, Some(if a.now == 0 then 1 else a.now))
            && RevokedOn(lib, ApplyAll(disk, Whole(lib, disk, s, a)), s)
            && Renewal(lib, disk, s, a).result == Err(AuthorizationDenied)
  {
    hide ValidSubject, StatePath, ValidAccessGrant, RequestId, ValidFor, Renewal, Messages, ApplyAll;
    AskingPlan(lib, disk, s, a);
    LeftIsWritten(lib, disk, s, a);
    SentInTheMiddle(lib, disk, s, a);
    var state := Stored(lib, disk, s);
    OneMessage(Fetch(s, state.completedSequence + 1, RequestId(lib, s, state.completedSequence + 1)));
    var w := state.(pending := Some(Pending(lib, state, s, a.now)));
    RevokedIsValid(lib, w, s, a.now);
    PendingIsNext(lib, w, s);
    StaysLoadable(lib, disk, s, a);
  }

  lemma StaysLoadable(lib: Libraries, disk: Disk<GrantFile>, s: Subject, a: Attempt)
    requires ValidSubject(s) && Loadable(lib, disk, s)
    ensures Loadable(lib, ApplyAll(disk, Whole(lib, disk, s, a)), s)
  {
    hide ValidSubject, StatePath, ValidFor, Renewal, ApplyAll, Loadable;
    var es := Whole(lib, disk, s, a);
    var c := Call(s, a, |es|);
    assert Steps(lib, disk, c) == es;
    StepsFollow(lib, disk, c);
  }

  /** From a denial on, whatever calls follow, nothing is fetched for the authorization and every call for it
      fails. */
  lemma DenialIsFinal(lib: Libraries, disk: Disk<GrantFile>, s: Subject, denied: Attempt, calls: seq<Call>, a: Attempt)
    requires ValidSubject(s) && Loadable(lib, disk, s) && Asking(lib, Stored(lib, disk, s), denied.now) && denied.fetched.Denied?
    requires AllApart(lib, calls, s)
    ensures var after := ApplyAll(disk, Whole(lib, disk, s, denied)); var t := Run(lib, after, calls);
            && (forall i :: 0 <= i < |t| && t[i].Send? && t[i].message.Fetch? ==> t[i].message.subject != s)
            && Renewal(lib, ApplyAll(after, t), s, a).result == Err(Revoked)
  {
    hide ValidSubject, StatePath, ValidFor, Whole, Renewal, ApplyAll, Asking, Loadable, Apart;
    DenialRevokes(lib, disk, s, denied);
    RevocationIsFinal(lib, ApplyAll(disk, Whole(lib, disk, s, denied)), calls, s, a);
  }

  /** A response completes the renewal exactly when Core vouches for it and everything fits; the new grant is
      then stored and handed out. Otherwise the transaction stays pending and the old grant stays. */
  lemma IssuedCall(lib: Libraries, disk: Disk<GrantFile>, s: Subject, a: Attempt)
    requires ValidSubject(s) && Loadable(lib, disk, s) && Asking(lib, Stored(lib, disk, s), a.now) && a.fetched.Issued?
    ensures var state := Stored(lib, disk, s); var x := a.fetched.response; var n := state.completedSequence + 1;
            var result := Renewal(lib, disk, s, a).result;
            && (result.Ok? <==> a.verified.Some? && a.cleaned && a.clock.Some? && Fitting(lib, s, x, a.verified.value, a.clock.value))
            && (result.Ok? ==>
                  var g := CachedGrant(n, RequestId(lib, s, n), x.grantId, a.clock.value, x.expiresAt, x.accessGrant, a.verified.value);
                  result == Ok(Refreshed(g)) && Left(lib, disk, s, a) == GrantState(2, s, n, None, Some(g), None))
            && (result.Err? ==> Left(lib, disk, s, a) == state.(pending := Some(Pending(lib, state, s, a.now))))
  {
    hide ValidSubject, StatePath, ValidAccessGrant, RequestId, ValidFor, Renewal, Whole, Left, StagingPath;
    AskingPlan(lib, disk, s, a);
    LeftIsWritten(lib, disk, s, a);
    var state := Stored(lib, disk, s);
    var p := Pending(lib, state, s, a.now);
    var w := state.(pending := Some(p));
    PendingIsNext(lib, w, s);
    RequestIdIsValid(lib, s, p.sequence);
    if a.verified.Some? && a.clock.Some? {
      FittingIsAccepted(lib, s, p, a.fetched.response, a.verified.value, a.clock.value);
      if Accepts(lib, s, p, a.fetched.response, a.verified.value, a.clock.value) {
        CompletedIsValid(lib, w, s, a.fetched.response, a.verified.value, a.clock.value);
      }
    }
  }

  lemma FittingIsAccepted(lib: Libraries, s: Subject, p: PendingIssuance, x: Response, r: Report, clock: u64)
    requires ValidRequestId(p.requestId) && p.sequence != 0 && p.requestId == RequestId(lib, s, p.sequence)
    ensures Accepts(lib, s, p, x, r, clock) <==> Fitting(lib, s, x, r, clock)
    ensures Accepts(lib, s, p, x, r, clock) ==> ValidResponse(lib, x)
  {
    hide ValidRequestId, RequestId;
  }

  /** The envelope is staged for Core, once, and only when it decodes. */
  lemma IssuedMessages(lib: Libraries, disk: Disk<GrantFile>, s: Subject, a: Attempt)
    requires ValidSubject(s) && Loadable(lib, disk, s) && Asking(lib, Stored(lib, disk, s), a.now) && a.fetched.Issued?
    ensures var state := Stored(lib, disk, s); var n := state.completedSequence + 1;
            Messages(Whole(lib, disk, s, a))
            == [Fetch(s, n, RequestId(lib, s, n))] + if ValidResponse(lib, a.fetched.response) then [Verify(StagingPath(a.uuid))] else []
  {
    hide ValidSubject, StatePath, ValidAccessGrant, RequestId, ValidFor, Renewal, Messages, Whole, StagingPath;
    AskingPlan(lib, disk, s, a);
    SentInTheMiddle(lib, disk, s, a);
    var state := Stored(lib, disk, s);
    var m := Fetch(s, state.completedSequence + 1, RequestId(lib, s, state.completedSequence + 1));
    var w := state.(pending := Some(Pending(lib, state, s, a.now)));
    OneMessage(m);
    MessagesAdd([Send(m)], PlanIssued(lib, s, w, a.fetched.response, a).middle);
    NoMessages();
    if ValidResponse(lib, a.fetched.response) {
      Decodes(lib, a.fetched.response);
      StagedMessages(StagingPath(a.uuid), lib.base64(a.fetched.response.accessGrant).value);
    }
  }

  lemma StagedMessages(staging: string, envelope: seq<byte>)
    ensures var staged := [Replace(staging, Staged(envelope)), Send(Verify(staging))];
            Messages(staged) == [Verify(staging)] && Messages(staged + [Remove(staging)]) == [Verify(staging)]
  {
    var staged: seq<Effect<GrantFile, Message>> := [Replace(staging, Staged(envelope)), Send(Verify(staging))];
    assert staged[..1] == [Replace(staging, Staged(envelope))];
    assert staged[..1][..0] == [];
    NoMessages();
    assert Messages(staged[..1]) == [];
    assert Messages(staged) == [] + [Verify(staging)];
    assert (staged + [Remove(staging)])[..2] == staged;
  }

  /** The staging file of an envelope is gone once it was cleaned up, and otherwise still holds the envelope. */
  lemma StagingEnds(lib: Libraries, disk: Disk<GrantFile>, s: Subject, a: Attempt)
    requires ValidSubject(s) && Loadable(lib, disk, s) && Asking(lib, Stored(lib, disk, s), a.now) && a.fetched.Issued?
    requires ValidResponse(lib, a.fetched.response)
    ensures lib.base64(a.fetched.response.accessGrant).Some?
    ensures var after := ApplyAll(disk, Whole(lib, disk, s, a)); var staging := StagingPath(a.uuid);
            if a.cleaned then staging !in after
            else staging in after && after[staging] == Staged(lib.base64(a.fetched.response.accessGrant).value)
  {
    hide ValidSubject, ValidAccessGrant, RequestId, ValidFor, Renewal, ApplyAll, StatePath, StagingPath, ValidResponse, Accepts;
    AskingPlan(lib, disk, s, a);
    Decodes(lib, a.fetched.response);
    StagingIsApart(lib, s, a.uuid);
    var plan, path, staging := Renewal(lib, disk, s, a), StatePath(lib, s), StagingPath(a.uuid);
    var state := Stored(lib, disk, s);
    var w := state.(pending := Some(Pending(lib, state, s, a.now)));
    var put: Effect<GrantFile, Message> := Replace(staging, Staged(lib.base64(a.fetched.response.accessGrant).value));
    var fetch: Effect<GrantFile, Message> := Send(Fetch(s, w.pending.value.sequence, w.pending.value.requestId));
    var verify: Effect<GrantFile, Message> := Send(Verify(staging));
    var first := Writing(path, plan.opening) + [fetch];
    var staged := first + [put] + [verify];
    assert plan.middle == [fetch] + (if a.cleaned then [put, verify] + [Remove(staging)] else [put, verify]);
    assert Writing(path, plan.opening) + plan.middle == if a.cleaned then staged + [Remove(staging)] else staged;
    ApplyOneMore(disk, first, put);
    ApplyOneMore(disk, first + [put], verify);
    ApplyOneMore(disk, staged, Remove(staging));
    LastWrite(ApplyAll(disk, Writing(path, plan.opening) + plan.middle), path, plan.closing);
    ApplyInTurn(disk, Writing(path, plan.opening) + plan.middle, Writing(path, plan.closing));
  }

  lemma LastWrite(disk: Disk<GrantFile>, path: string, state: Option<GrantState>)
    ensures ApplyAll(disk, Writing(path, state)) == if state.Some? then disk[path := State(state.value)] else disk
  {
    OneWrite(disk, path, state);
  }
}
