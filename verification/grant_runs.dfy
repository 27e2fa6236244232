/** What renewal guarantees over any sequence of calls, for any number of authorizations, with any
    answers from the Cloud and Core and with power failing after any effect. */
module GrantRuns {
  import opened Bytes
  import opened Grant
  import opened Host
  import opened Text
  import opened Wrappers

  // ---- names ----

  lemma SubjectBytesInjective(a: Subject, x: seq<byte>, b: Subject, y: seq<byte>)
    requires ValidSubject(a) && ValidSubject(b) && SubjectBytes(a) + x == SubjectBytes(b) + y
    ensures a == b && x == y
  {
    var ha, hb := Ascii(a.projectionContentHash), Ascii(b.projectionContentHash);
    var a5, b5 := BigEndian(a.projectionGeneration, 8) + ha, BigEndian(b.projectionGeneration, 8) + hb;
    var a4, b4 := a.projectionId + a5, b.projectionId + b5;
    var a3, b3 := a.deviceKeyId + a4, b.deviceKeyId + b4;
    var a2, b2 := a.deviceId + a3, b.deviceId + b3;
    var a1, b1 := a.tenantId + a2, b.tenantId + b2;
    SameHeads(SubjectBytes(a), x, SubjectBytes(b), y);
    SameHeads(a.nodePoolId, a1, b.nodePoolId, b1);
    SameHeads(a.tenantId, a2, b.tenantId, b2);
    SameHeads(a.deviceId, a3, b.deviceId, b3);
    SameHeads(a.deviceKeyId, a4, b.deviceKeyId, b4);
    SameHeads(a.projectionId, a5, b.projectionId, b5);
    SameHeads(BigEndian(a.projectionGeneration, 8), ha, BigEndian(b.projectionGeneration, 8), hb);
    Widths();
    BigEndianRoundTrip(a.projectionGeneration, 8);
    BigEndianRoundTrip(b.projectionGeneration, 8);
    HexIsAscii(a.projectionContentHash, 32);
    HexIsAscii(b.projectionContentHash, 32);
    AsciiInjective(a.projectionContentHash, b.projectionContentHash);
  }

  /** The hash tells the file names of these two authorizations apart. */
  ghost predicate Apart(lib: Libraries, a: Subject, b: Subject) {
    NoCollision(lib.sha, StorageBytes(a), StorageBytes(b))
  }

  /** Different authorizations are kept in different files. */
  lemma StatePathInjective(lib: Libraries, a: Subject, b: Subject)
    requires Apart(lib, a, b) && ValidSubject(a) && ValidSubject(b)
    ensures StatePath(lib, a) == StatePath(lib, b) ==> a == b
  {
    hide SubjectBytes, ValidSubject, Hex;
    if StatePath(lib, a) == StatePath(lib, b) {
      var x, y := StorageId(lib, a), StorageId(lib, b);
      var p := "grants/";
      assert StatePath(lib, a)[|p|..|p| + 64] == x && StatePath(lib, b)[|p|..|p| + 64] == y;
      var domain := Ascii(STATE_DOMAIN);
      HexInjective(lib.sha(domain + SubjectBytes(a)), lib.sha(domain + SubjectBytes(b)));
      SameHeads(domain, SubjectBytes(a), domain, SubjectBytes(b));
      assert SubjectBytes(a) + [] == SubjectBytes(b) + [];
      SubjectBytesInjective(a, [], b, []);
    }
  }

  /** No staging file is taken for a state file. */
  lemma StagingIsApart(lib: Libraries, s: Subject, uuid: string)
    ensures StagingPath(uuid) != StatePath(lib, s)
  {
    hide SubjectBytes, Hex;
    var id := StorageId(lib, s);
    HexIsCanonical(lib.sha(StorageBytes(s)));
    assert StatePath(lib, s)[7] == id[0];
    assert StagingPath(uuid)[7] == '.';
  }

  /** A request id names one renewal of one authorization, so a retried request is recognised and a
      new renewal is never taken for a retry. */
  lemma RequestIdInjective(lib: Libraries, a: Subject, i: u64, b: Subject, j: u64)
    requires NoCollision(lib.sha, RequestBytes(a, i), RequestBytes(b, j)) && ValidSubject(a) && ValidSubject(b)
    requires RequestId(lib, a, i) == RequestId(lib, b, j)
    ensures a == b && i == j
  {
    hide SubjectBytes, ValidSubject, Hex;
    var domain := Ascii(REQUEST_DOMAIN);
    var x, y := SubjectBytes(a) + BigEndian(i, 8), SubjectBytes(b) + BigEndian(j, 8);
    var p := "sdwan-v2-";
    assert RequestId(lib, a, i)[|p|..] == Hex(lib.sha(domain + x));
    assert RequestId(lib, b, j)[|p|..] == Hex(lib.sha(domain + y));
    HexInjective(lib.sha(domain + x), lib.sha(domain + y));
    SameHeads(domain, x, domain, y);
    SubjectBytesInjective(a, BigEndian(i, 8), b, BigEndian(j, 8));
    Widths();
    BigEndianRoundTrip(i, 8);
    BigEndianRoundTrip(j, 8);
  }

  lemma RequestIdIsValid(lib: Libraries, s: Subject, sequence: u64)
    ensures ValidRequestId(RequestId(lib, s, sequence))
  {
    hide SubjectBytes, Hex;
    var digest := lib.sha(RequestBytes(s, sequence));
    HexIsCanonical(digest);
    var p := "sdwan-v2-";
    var id := RequestId(lib, s, sequence);
    assert id == p + Hex(digest);
    assert forall i :: |p| <= i < |id| ==> id[i] == Hex(digest)[i - |p|];
  }

  // ---- one call ----

  lemma WaitingIsValid(lib: Libraries, state: GrantState, s: Subject, now: u64)
    requires ValidFor(lib, state, s) && state.revokedAt.None?
    requires state.pending.None? ==> state.completedSequence < U64_MAX
    ensures var w := Waiting(lib, state, s, now);
            && ValidFor(lib, w, s) && w.pending.value.sequence as int == state.completedSequence + 1
            && w.active == state.active && w.completedSequence == state.completedSequence && w.revokedAt.None?
  {
    hide GrantValidFor, ValidSubject, RequestId, ValidRequestId;
    if state.pending.None? {
      RequestIdIsValid(lib, s, state.completedSequence + 1);
    }
  }

  lemma NewStateIsValid(lib: Libraries, s: Subject)
    requires ValidSubject(s)
    ensures ValidFor(lib, NewState(s), s)
  {
  }

  lemma RevokedIsValid(lib: Libraries, state: GrantState, s: Subject, now: u64)
    requires ValidFor(lib, state, s)
    ensures ValidFor(lib, RevokedState(state, now), s)
  {
  }

  /** A grant made from an accepted response is one the state file may hold: its clock is never zero,
      because Core's validity window never starts at zero. */
  lemma CompletedIsValid(lib: Libraries, waiting: GrantState, s: Subject, response: Response, report: Report, now: u64)
    requires ValidFor(lib, waiting, s) && waiting.pending.Some?
    requires Accepts(lib, s, waiting.pending.value, response, report, now)
    ensures var g := NewGrant(waiting.pending.value, response, report, now);
            && GrantValidFor(lib, g, s) && ValidFor(lib, CompletedState(waiting, g), s) && UsableAt(lib, g, now)
  {
    hide ValidAccessGrant, RequestId, ValidSubject;
  }

  /** The state a call works from, and what holds of it. */
  ghost predicate Live(lib: Libraries, disk: Disk<GrantFile>, s: Subject) {
    ValidSubject(s) && Loadable(lib, disk, s) && ValidFor(lib, Stored(lib, disk, s), s)
  }

  lemma LoadableIsLive(lib: Libraries, disk: Disk<GrantFile>, s: Subject)
    requires ValidSubject(s) && Loadable(lib, disk, s)
    ensures Live(lib, disk, s)
  {
    NewStateIsValid(lib, s);
  }

  /** Self-consistency: a call starting from a readable state never builds one its own check refuses. */
  lemma NeverRejected(lib: Libraries, disk: Disk<GrantFile>, s: Subject, a: Attempt)
    ensures Renewal(lib, disk, s, a).result != Err(StateRejected)
  {
    hide ValidFor, ValidSubject, Accepts, ValidResponse, UsableAt, StagingPath, RequestId, StatePath;
    if ValidSubject(s) && Loadable(lib, disk, s) {
      LoadableIsLive(lib, disk, s);
      var state := Stored(lib, disk, s);
      if state.revokedAt.None? && (state.pending.None? ==> state.completedSequence < U64_MAX) {
        WaitingIsValid(lib, state, s, a.now);
        var w := Waiting(lib, state, s, a.now);
        FetchNeverRejected(lib, s, w, None, a);
        FetchNeverRejected(lib, s, w, Some(w), a);
      }
    }
  }

  lemma FetchNeverRejected(lib: Libraries, s: Subject, w: GrantState, opening: Option<GrantState>, a: Attempt)
    requires ValidFor(lib, w, s) && w.pending.Some?
    ensures PlanFetch(lib, s, w, opening, a).result != Err(StateRejected)
  {
    hide ValidFor, Accepts, ValidResponse, UsableAt, StagingPath, RequestId;
    RevokedIsValid(lib, w, s, a.now);
    if a.fetched.Issued? && a.verified.Some? && a.clock.Some?
       && Accepts(lib, s, w.pending.value, a.fetched.response, a.verified.value, a.clock.value)
    {
      CompletedIsValid(lib, w, s, a.fetched.response, a.verified.value, a.clock.value);
    }
  }

  /** Every grant handed out is usable: at the start of the call for a cached one, at the clock read
      after verification for a fresh one. */
  lemma ReturnedGrantIsUsable(lib: Libraries, disk: Disk<GrantFile>, s: Subject, a: Attempt)
    ensures match Renewal(lib, disk, s, a).result
            case Ok(Current(g)) => UsableAt(lib, g, a.now) && !RefreshDue(lib, g, a.now)
            case Ok(RetainedAfterTransientFailure(g)) => UsableAt(lib, g, a.now)
            case Ok(Refreshed(g)) => a.clock.Some? && UsableAt(lib, g, a.clock.value) && GrantValidFor(lib, g, s)
            case Err(_) => true
  {
    hide ValidFor, ValidSubject, Accepts, ValidResponse, UsableAt, StagingPath, RequestId, StatePath, GrantValidFor;
    if ValidSubject(s) && Loadable(lib, disk, s) {
      LoadableIsLive(lib, disk, s);
      var state := Stored(lib, disk, s);
      if state.revokedAt.None? && (state.pending.None? ==> state.completedSequence < U64_MAX) {
        WaitingIsValid(lib, state, s, a.now);
        var w := Waiting(lib, state, s, a.now);
        if a.fetched.Issued? && a.verified.Some? && a.clock.Some?
           && Accepts(lib, s, w.pending.value, a.fetched.response, a.verified.value, a.clock.value)
        {
          CompletedIsValid(lib, w, s, a.fetched.response, a.verified.value, a.clock.value);
        }
      }
    }
  }

  // ---- effects on one state file ----

  predicate Touches(e: Effect<GrantFile, Message>, path: string) {
    (e.Replace? || e.Remove?) && e.name == path
  }

  predicate Completes(e: Effect<GrantFile, Message>, path: string) {
    && Touches(e, path) && e.Replace? && e.content.State?
    && e.content.state.active.Some? && e.content.state.pending.None?
  }

  /** How many renewals of this file have completed. */
  function Completions(es: seq<Effect<GrantFile, Message>>, path: string): nat {
    if es == [] then 0
    else Completions(es[..|es| - 1], path) + if Completes(es[|es| - 1], path) then 1 else 0
  }

  lemma {:induction false} CompletionsAdd(a: seq<Effect<GrantFile, Message>>, b: seq<Effect<GrantFile, Message>>,
                                          path: string)
    ensures Completions(a + b, path) == Completions(a, path) + Completions(b, path)
  {
    if b == [] {
      assert a + b == a;
    } else {
      assert (a + b)[..|a + b| - 1] == a + b[..|b| - 1];
      CompletionsAdd(a, b[..|b| - 1], path);
    }
  }

  predicate SameFile(a: Disk<GrantFile>, b: Disk<GrantFile>, path: string) {
    (path in a <==> path in b) && (path in a ==> a[path] == b[path])
  }

  lemma {:induction false} UntouchedStays(disk: Disk<GrantFile>, es: seq<Effect<GrantFile, Message>>, path: string)
    requires forall i :: 0 <= i < |es| ==> !Touches(es[i], path)
    ensures SameFile(disk, ApplyAll(disk, es), path) && Completions(es, path) == 0
  {
    if es != [] {
      var init := es[..|es| - 1];
      assert forall i :: 0 <= i < |init| ==> init[i] == es[i];
      UntouchedStays(disk, init, path);
    }
  }

  /** The middle of a plan only sends messages and handles the staging file. */
  lemma MiddleLeavesStates(lib: Libraries, disk: Disk<GrantFile>, s: Subject, a: Attempt, other: Subject)
    ensures forall i :: 0 <= i < |Renewal(lib, disk, s, a).middle| ==>
              !Touches(Renewal(lib, disk, s, a).middle[i], StatePath(lib, other))
  {
    hide ValidFor, ValidSubject, Accepts, ValidResponse, UsableAt, RequestId, StatePath, StagingPath;
    StagingIsApart(lib, other, a.uuid);
  }

  /** A plan cut short: a beginning of the middle, with the writes around it done or not. */
  datatype Part = Part(
    opening: Option<GrantState>, middle: seq<Effect<GrantFile, Message>>, closing: Option<GrantState>)

  ghost predicate IsPart(plan: Plan, p: Part) {
    && p.middle <= plan.middle
    && (p.opening == plan.opening || (p.opening.None? && p.middle == []))
    && (p.closing.Some? ==> p.closing == plan.closing && p.opening == plan.opening)
  }

  function PartEffects(path: string, p: Part): seq<Effect<GrantFile, Message>> {
    Writing(path, p.opening) + p.middle + Writing(path, p.closing)
  }

  lemma CutIsPart(plan: Plan, path: string, cut: nat) returns (p: Part)
    ensures IsPart(plan, p) && UpTo(plan.Effects(path), cut) == PartEffects(path, p)
  {
    var w, m := Writing(path, plan.opening), plan.middle;
    var es := plan.Effects(path);
    if cut < |w| {
      p := Part(None, [], None);
    } else if cut <= |w| + |m| {
      p := Part(plan.opening, m[..cut - |w|], None);
      assert es[..cut] == w + m[..cut - |w|];
    } else {
      p := Part(plan.opening, m, plan.closing);
      assert UpTo(es, cut) == es;
    }
  }

  /** What a part leaves in the state file: the last state it wrote, if any. */
  lemma {:induction false} PartResult(disk: Disk<GrantFile>, path: string, p: Part)
    requires forall i :: 0 <= i < |p.middle| ==> !Touches(p.middle[i], path)
    requires p.opening.Some? ==> p.opening.value.pending.Some?
    ensures var es := PartEffects(path, p); var after := ApplyAll(disk, es);
            && (p.closing.Some? ==> path in after && after[path] == State(p.closing.value))
            && (p.closing.None? && p.opening.Some? ==> path in after && after[path] == State(p.opening.value))
            && (p.closing.None? && p.opening.None? ==> SameFile(disk, after, path))
            && Completions(es, path) ==
               if p.closing.Some? && p.closing.value.active.Some? && p.closing.value.pending.None? then 1 else 0
  {
    var w, c := Writing(path, p.opening), Writing(path, p.closing);
    ApplyInTurn(disk, w + p.middle, c);
    ApplyInTurn(disk, w, p.middle);
    CompletionsAdd(w + p.middle, c, path);
    CompletionsAdd(w, p.middle, path);
    UntouchedStays(ApplyAll(disk, w), p.middle, path);
    OneWrite(disk, path, p.opening);
    OneWrite(ApplyAll(disk, w + p.middle), path, p.closing);
  }

  lemma OneWrite(disk: Disk<GrantFile>, path: string, state: Option<GrantState>)
    ensures ApplyAll(disk, Writing(path, state)) == if state.Some? then disk[path := State(state.value)] else disk
    ensures Completions(Writing(path, state), path) ==
            if state.Some? && state.value.active.Some? && state.value.pending.None? then 1 else 0
  {
    if state.Some? {
      var e: Effect<GrantFile, Message> := Replace(path, State(state.value));
      ApplyOne(disk, e);
      assert [e][..0] == [];
    }
  }

  /** Nothing in a part of another authorization's plan touches this file. */
  lemma {:induction false} OtherPartStays(lib: Libraries, disk: Disk<GrantFile>, path: string, other: string, p: Part)
    requires path != other && forall i :: 0 <= i < |p.middle| ==> !Touches(p.middle[i], path)
    ensures var es := PartEffects(other, p);
            SameFile(disk, ApplyAll(disk, es), path) && Completions(es, path) == 0
  {
    UntouchedStays(disk, PartEffects(other, p), path);
  }

  // ---- one call's plan, in terms of the state it found ----

  /** How the states a call may write follow from the one it found. */
  ghost predicate Follows(lib: Libraries, before: GrantState, plan: Plan, s: Subject, a: Attempt) {
    && (plan.opening.Some? ==>
          && ValidFor(lib, plan.opening.value, s) && plan.opening.value.pending.Some?
          && plan.opening.value.revokedAt.None?
          && plan.opening.value.completedSequence == before.completedSequence
          && plan.opening.value.active == before.active)
    && (plan.closing.Some? ==>
          && ValidFor(lib, plan.closing.value, s) && plan.closing.value.pending.None?
          && if a.fetched.Denied? then plan.closing.value.revokedAt.Some? && plan.closing.value.active.None?
             else plan.closing.value.revokedAt.None? && plan.closing.value.active.Some?
                  && plan.closing.value.completedSequence == before.completedSequence + 1)
    && (forall i :: 0 <= i < |plan.middle| && plan.middle[i].Send? && plan.middle[i].message.Fetch? ==>
          && i == 0 && before.revokedAt.None?
          && before.completedSequence < U64_MAX
          && plan.middle[i].message
             == Fetch(s, before.completedSequence + 1, RequestId(lib, s, before.completedSequence + 1)))
    && (before.revokedAt.Some? ==> plan == Nothing(Revoked))
  }

  lemma PlanFollows(lib: Libraries, disk: Disk<GrantFile>, s: Subject, a: Attempt)
    requires ValidSubject(s) && Loadable(lib, disk, s)
    ensures Follows(lib, Stored(lib, disk, s), Renewal(lib, disk, s, a), s, a)
  {
    hide ValidFor, ValidSubject, Accepts, ValidResponse, UsableAt, StagingPath, StatePath, PlanFetch, RequestId;
    LoadableIsLive(lib, disk, s);
    var state := Stored(lib, disk, s);
    if state.revokedAt.None? && (state.pending.None? ==> state.completedSequence < U64_MAX) {
      WaitingIsValid(lib, state, s, a.now);
      var w := Waiting(lib, state, s, a.now);
      FetchFollows(lib, s, state, w, a);
      PlanFetchOpening(lib, s, w, Some(w), a);
    }
  }

  lemma FetchFollows(lib: Libraries, s: Subject, before: GrantState, w: GrantState, a: Attempt)
    requires ValidFor(lib, w, s) && w.pending.Some? && w.revokedAt.None? && before.revokedAt.None?
    requires w.completedSequence == before.completedSequence
    ensures Follows(lib, before, PlanFetch(lib, s, w, None, a), s, a)
  {
    hide ValidSubject, Accepts, ValidResponse, UsableAt, StagingPath, GrantValidFor, RequestId, ValidRequestId;
  }

  // ---- runs ----

  datatype Call = Call(subject: Subject, attempt: Attempt, cut: nat)

  function Steps(lib: Libraries, disk: Disk<GrantFile>, c: Call): seq<Effect<GrantFile, Message>> {
    UpTo(Renewal(lib, disk, c.subject, c.attempt).Effects(StatePath(lib, c.subject)), c.cut)
  }

  function Run(lib: Libraries, boot: Disk<GrantFile>, calls: seq<Call>): seq<Effect<GrantFile, Message>> {
    if calls == [] then [] else
      var before := Run(lib, boot, calls[..|calls| - 1]);
      before + Steps(lib, ApplyAll(boot, before), calls[|calls| - 1])
  }

  /** The file is readable and its sequence counts the renewals completed so far. */
  ghost predicate Tracks(lib: Libraries, disk: Disk<GrantFile>, trace: seq<Effect<GrantFile, Message>>, s: Subject) {
    && Loadable(lib, disk, s)
    && var state := Stored(lib, disk, s);
       state.revokedAt.None? ==> state.completedSequence == Completions(trace, StatePath(lib, s))
  }

  lemma StepsLeaveOthers(lib: Libraries, disk: Disk<GrantFile>, c: Call, s: Subject)
    requires Apart(lib, c.subject, s) && ValidSubject(s) && c.subject != s
    ensures var es := Steps(lib, disk, c);
            SameFile(disk, ApplyAll(disk, es), StatePath(lib, s)) && Completions(es, StatePath(lib, s)) == 0
  {
    hide StatePath, ValidSubject, Renewal, Completions, SameFile, Apart;
    var plan := Renewal(lib, disk, c.subject, c.attempt);
    if !ValidSubject(c.subject) {
      NoPlan(lib, disk, c.subject, c.attempt);
      UntouchedStays(disk, [], StatePath(lib, s));
    } else {
      StatePathInjective(lib, c.subject, s);
      MiddleLeavesStates(lib, disk, c.subject, c.attempt, s);
      var p := CutIsPart(plan, StatePath(lib, c.subject), c.cut);
      assert forall i :: 0 <= i < |p.middle| ==> p.middle[i] == plan.middle[i];
      OtherPartStays(lib, disk, StatePath(lib, s), StatePath(lib, c.subject), p);
    }
  }

  lemma NoPlan(lib: Libraries, disk: Disk<GrantFile>, s: Subject, a: Attempt)
    requires !ValidSubject(s)
    ensures Renewal(lib, disk, s, a).Effects(StatePath(lib, s)) == []
  {
  }

  /** A message of a part lies in its middle, with nothing completed before it. */
  lemma {:induction false} SendInMiddle(disk: Disk<GrantFile>, path: string, p: Part, i: nat)
    requires i < |PartEffects(path, p)| && PartEffects(path, p)[i].Send?
    requires forall k :: 0 <= k < |p.middle| ==> !Touches(p.middle[k], path)
    requires p.opening.Some? ==> p.opening.value.pending.Some?
    ensures var w := |Writing(path, p.opening)|;
            && w <= i < w + |p.middle| && p.middle[i - w] == PartEffects(path, p)[i]
            && Completions(PartEffects(path, p)[..i], path) == 0
  {
    var w := Writing(path, p.opening);
    assert PartEffects(path, p)[..i] == w + p.middle[..i - |w|];
    CompletionsAdd(w, p.middle[..i - |w|], path);
    UntouchedStays(disk, p.middle[..i - |w|], path);
    OneWrite(disk, path, p.opening);
  }

  /** Every fetch a call sends asks for the renewal after the last completed one. */
  lemma FetchIsNext(lib: Libraries, disk: Disk<GrantFile>, c: Call, i: nat)
    requires i < |Steps(lib, disk, c)| && Steps(lib, disk, c)[i].Send? && Steps(lib, disk, c)[i].message.Fetch?
    ensures var state := Stored(lib, disk, c.subject); var es := Steps(lib, disk, c);
            && ValidSubject(c.subject) && Loadable(lib, disk, c.subject)
            && state.revokedAt.None? && state.completedSequence < U64_MAX
            && es[i].message == Fetch(c.subject, state.completedSequence + 1,
                                      RequestId(lib, c.subject, state.completedSequence + 1))
            && Completions(es[..i], StatePath(lib, c.subject)) == 0
  {
    hide StatePath, ValidSubject, Renewal, Loadable, RequestId, ValidFor;
    var plan := Renewal(lib, disk, c.subject, c.attempt);
    var path := StatePath(lib, c.subject);
    if !ValidSubject(c.subject) || !Loadable(lib, disk, c.subject) {
      NothingSent(lib, disk, c);
    } else {
      PlanFollows(lib, disk, c.subject, c.attempt);
      MiddleLeavesStates(lib, disk, c.subject, c.attempt, c.subject);
      var p := CutIsPart(plan, path, c.cut);
      SendInMiddle(disk, path, p, i);
    }
  }

  lemma NothingSent(lib: Libraries, disk: Disk<GrantFile>, c: Call)
    requires !ValidSubject(c.subject) || !Loadable(lib, disk, c.subject)
    ensures Steps(lib, disk, c) == []
  {
    hide ValidFor, ValidSubject;
  }

  /** What a call, complete or cut short, leaves in its own state file. */
  lemma StepsFollow(lib: Libraries, disk: Disk<GrantFile>, c: Call)
    requires ValidSubject(c.subject) && Loadable(lib, disk, c.subject)
    ensures var es := Steps(lib, disk, c); var path := StatePath(lib, c.subject);
            var before := Stored(lib, disk, c.subject);
            var after := Stored(lib, ApplyAll(disk, es), c.subject);
            && Loadable(lib, ApplyAll(disk, es), c.subject)
            && (before.revokedAt.Some? ==> es == [])
            && (c.attempt.fetched.Denied? || after.revokedAt == before.revokedAt)
            && (after.revokedAt.None? ==>
                  after.completedSequence == before.completedSequence + Completions(es, path))
            && (after.active == before.active
                || (c.attempt.fetched.Denied? && after.active.None? && after.revokedAt.Some?)
                || (after.active.Some? && after.completedSequence == before.completedSequence + 1))
  {
    hide StatePath, ValidSubject, Renewal, ValidFor, RequestId, Completions;
    var plan := Renewal(lib, disk, c.subject, c.attempt);
    var path := StatePath(lib, c.subject);
    PlanFollows(lib, disk, c.subject, c.attempt);
    MiddleLeavesStates(lib, disk, c.subject, c.attempt, c.subject);
    var p := CutIsPart(plan, path, c.cut);
    assert forall i :: 0 <= i < |p.middle| ==> p.middle[i] == plan.middle[i];
    PartResult(disk, path, p);
  }

  /** No authorization of the run shares its file name with `s` by a collision. */
  ghost predicate AllApart(lib: Libraries, calls: seq<Call>, s: Subject) {
    forall i :: 0 <= i < |calls| ==> Apart(lib, calls[i].subject, s)
  }

  lemma {:induction false} RunTracks(lib: Libraries, boot: Disk<GrantFile>, calls: seq<Call>, s: Subject)
    requires AllApart(lib, calls, s) && ValidSubject(s) && StatePath(lib, s) !in boot
    ensures var t := Run(lib, boot, calls); Tracks(lib, ApplyAll(boot, t), t, s)
  {
    hide StatePath, ValidSubject, ValidFor, Steps, Apart;
    if calls != [] {
      var before := Run(lib, boot, calls[..|calls| - 1]);
      var disk, c := ApplyAll(boot, before), calls[|calls| - 1];
      var es := Steps(lib, disk, c);
      RunTracks(lib, boot, calls[..|calls| - 1], s);
      ApplyInTurn(boot, before, es);
      CompletionsAdd(before, es, StatePath(lib, s));
      if c.subject == s {
        StepsFollow(lib, disk, c);
      } else {
        StepsLeaveOthers(lib, disk, c, s);
      }
    }
  }

  /** Over every run, a fetch asks for the renewal that follows those completed before it, under the
      request id of that renewal: neither a crash nor a lost answer ever skips or repeats one. */
  lemma {:induction false} FetchesCountCompletions(lib: Libraries, boot: Disk<GrantFile>, calls: seq<Call>,
                                                   s: Subject, i: nat)
    requires AllApart(lib, calls, s) && ValidSubject(s) && StatePath(lib, s) !in boot
    requires var t := Run(lib, boot, calls);
             i < |t| && t[i].Send? && t[i].message.Fetch? && t[i].message.subject == s
    ensures var t := Run(lib, boot, calls); var n := Completions(t[..i], StatePath(lib, s)) + 1;
            n <= U64_MAX && t[i].message == Fetch(s, n, RequestId(lib, s, n))
  {
    hide StatePath, ValidSubject, ValidFor, Steps, RequestId, Apart;
    var before := Run(lib, boot, calls[..|calls| - 1]);
    var t := Run(lib, boot, calls);
    if i < |before| {
      FetchesCountCompletions(lib, boot, calls[..|calls| - 1], s, i);
      assert t[..i] == before[..i];
    } else {
      var disk, c := ApplyAll(boot, before), calls[|calls| - 1];
      var es, k := Steps(lib, disk, c), i - |before|;
      RunTracks(lib, boot, calls[..|calls| - 1], s);
      FetchIsNext(lib, disk, c, k);
      assert t[..i] == before + es[..k];
      CompletionsAdd(before, es[..k], StatePath(lib, s));
    }
  }

  /** Between two completed renewals every fetch carries the same sequence and request id. */
  lemma SameRequestUntilCompleted(lib: Libraries, boot: Disk<GrantFile>, calls: seq<Call>, s: Subject, i: nat, j: nat)
    requires AllApart(lib, calls, s) && ValidSubject(s) && StatePath(lib, s) !in boot
    requires var t := Run(lib, boot, calls);
             && i < j < |t| && t[i].Send? && t[i].message.Fetch? && t[i].message.subject == s
             && t[j].Send? && t[j].message.Fetch? && t[j].message.subject == s
    ensures var t := Run(lib, boot, calls);
            t[i].message == t[j].message <==> Completions(t[i..j], StatePath(lib, s)) == 0
  {
    hide StatePath, ValidSubject, Run, RequestId;
    var t := Run(lib, boot, calls);
    FetchesCountCompletions(lib, boot, calls, s, i);
    FetchesCountCompletions(lib, boot, calls, s, j);
    assert t[..j] == t[..i] + t[i..j];
    CompletionsAdd(t[..i], t[i..j], StatePath(lib, s));
  }

  /** Only a denial removes a stored grant; any other call, cut short anywhere, leaves it or replaces
      it by the grant of the next renewal. */
  lemma OnlyDenialRemoves(lib: Libraries, disk: Disk<GrantFile>, c: Call, s: Subject)
    requires Apart(lib, c.subject, s) && ValidSubject(s) && Loadable(lib, disk, s)
    requires Stored(lib, disk, s).active.Some? && !(c.subject == s && c.attempt.fetched.Denied?)
    ensures var before := Stored(lib, disk, s);
            var after := Stored(lib, ApplyAll(disk, Steps(lib, disk, c)), s);
            && after.active.Some?
            && (after.active == before.active || after.completedSequence == before.completedSequence + 1)
  {
    hide StatePath, ValidSubject, ValidFor, Steps, Completions, Apart;
    if c.subject == s {
      StepsFollow(lib, disk, c);
    } else {
      StepsLeaveOthers(lib, disk, c, s);
    }
  }

  ghost predicate RevokedOn(lib: Libraries, disk: Disk<GrantFile>, s: Subject) {
    Loadable(lib, disk, s) && Stored(lib, disk, s).revokedAt.Some?
  }

  /** A revocation is final: whatever calls follow, no fetch is sent for the authorization again and
      every call for it fails. */
  lemma {:induction false} RevocationIsFinal(lib: Libraries, disk: Disk<GrantFile>, calls: seq<Call>, s: Subject,
                                             a: Attempt)
    requires AllApart(lib, calls, s) && ValidSubject(s) && RevokedOn(lib, disk, s)
    ensures var t := Run(lib, disk, calls);
            && RevokedOn(lib, ApplyAll(disk, t), s)
            && (forall i :: 0 <= i < |t| && t[i].Send? && t[i].message.Fetch? ==> t[i].message.subject != s)
            && Renewal(lib, ApplyAll(disk, t), s, a) == Nothing(Revoked)
  {
    hide StatePath, ValidSubject, ValidFor, Steps, PlanFetch, Apart;
    if calls != [] {
      var before := Run(lib, disk, calls[..|calls| - 1]);
      RevocationIsFinal(lib, disk, calls[..|calls| - 1], s, a);
      var c := calls[|calls| - 1];
      var now := ApplyAll(disk, before);
      var es := Steps(lib, now, c);
      ApplyInTurn(disk, before, es);
      if c.subject == s {
        StepsFollow(lib, now, c);
      } else {
        StepsLeaveOthers(lib, now, c, s);
        forall i | 0 <= i < |es| && es[i].Send? && es[i].message.Fetch? ensures es[i].message.subject != s {
          FetchIsNext(lib, now, c, i);
        }
      }
    }
  }
}
