/** How draining a pipe ends, and which turn ends a command, how. */
module ProbeOutcomes {
  import opened Bytes
  import opened CommandProbe
  import opened Wrappers

  // ---- one drain ----

  /** The pieces taken from a pipe, up to the last reading or without it. */
  function Kept(d: Drain, taken: seq<Reading>): seq<byte> {
    Written(if taken != [] && (d.outcome.Exceeded? || d.outcome.NoMemory?) then taken[..|taken| - 1] else taken)
  }

  /** Why a drain stopped behind these readings. */
  ghost predicate StopsFor(d: Drain, taken: seq<Reading>, budget: nat, limit: nat, grants: nat -> bool) {
    && (forall i :: 0 <= i < |taken| - 1 ==> taken[i].Data? || taken[i].Interrupted?)
    && (d.outcome.Open? ==> (taken != [] && taken[|taken| - 1] == WouldBlock)
                            || (Passes(taken) && (d.rest == [] || |taken| == budget)))
    && (!d.outcome.Open? ==>
          && taken != []
          && var last := taken[|taken| - 1];
          && (d.outcome.Closed? ==> last == Eof)
          && (d.outcome.Broken? ==> last == ReadFailed)
          && (d.outcome.Exceeded? ==> last.Data? && |d.content| + |last.piece| > limit)
          && (d.outcome.NoMemory? ==> last.Data? && |d.content| + |last.piece| <= limit && !grants(Asked(d, last.piece, limit))
                                      && d.capacity < |d.content| + |last.piece|))
  }

  predicate Passes(taken: seq<Reading>) {
    forall i :: 0 <= i < |taken| ==> taken[i].Data? || taken[i].Interrupted?
  }

  /** Twice the room there is or what is needed, whatever is more, but no more than the limit. */
  function Asked(d: Drain, piece: seq<byte>, limit: nat): nat {
    var needed := |d.content| + |piece|;
    var wanted := if 2 * d.capacity < needed then needed else 2 * d.capacity;
    if limit < wanted then limit else wanted
  }

  /** What a drain of this pipe may come to. */
  ghost predicate Drains(pending: seq<Reading>, content: seq<byte>, d: Drain, budget: nat, limit: nat, grants: nat -> bool) {
    var k := |pending| - |d.rest|;
    && 0 <= k <= budget && d.rest == pending[k..]
    && StopsFor(d, pending[..k], budget, limit, grants)
    && d.content == content + Kept(d, pending[..k])
  }

  /** A drain takes readings until one of them ends it, its budget is spent or the pipe has nothing left: the end of
      the pipe closes it, a failure breaks it, and a piece is refused only when it goes beyond the limit or the
      room it needs is not to be had. */
  lemma {:induction false} DrainEnds(pending: seq<Reading>, content: seq<byte>, capacity: nat, limit: nat, grants: nat -> bool, budget: nat)
    requires limit <= USIZE_MAX
    ensures Drains(pending, content, Drained(pending, content, capacity, limit, grants, budget), budget, limit, grants)
    decreases budget
  {
    hide Drains, StopsFor, Written, Grown;
    if budget == 0 || pending == [] {
      NothingTaken(pending, content, capacity, budget, limit, grants);
    } else {
      var rest, r := pending[1..], pending[0];
      if r.Interrupted? {
        DrainEnds(rest, content, capacity, limit, grants, budget - 1);
        OneMore(pending, content, Drained(rest, content, capacity, limit, grants, budget - 1), budget, limit, grants, content);
      } else if r.Data? && |content| + |r.piece| <= limit
                && (capacity >= |content| + |r.piece| || grants(Grown(capacity, |content| + |r.piece|, limit))) {
        var grown := Grown(capacity, |content| + |r.piece|, limit);
        DrainEnds(rest, content + r.piece, grown, limit, grants, budget - 1);
        OneMore(pending, content, Drained(rest, content + r.piece, grown, limit, grants, budget - 1), budget, limit, grants,
                content + r.piece);
      } else {
        OneTaken(pending, content, capacity, budget, limit, grants);
      }
    }
  }

  lemma NothingTaken(pending: seq<Reading>, content: seq<byte>, capacity: nat, budget: nat, limit: nat, grants: nat -> bool)
    requires budget == 0 || pending == []
    ensures Drains(pending, content, Drain(content, capacity, pending, Open), budget, limit, grants)
  {
    assert pending[..0] == [] && content + [] == content;
  }

  lemma OneTaken(pending: seq<Reading>, content: seq<byte>, capacity: nat, budget: nat, limit: nat, grants: nat -> bool)
    requires budget > 0 && pending != [] && !pending[0].Interrupted? && limit <= USIZE_MAX
    requires pending[0].Data? ==> var needed := |content| + |pending[0].piece|;
                                  needed > limit || (capacity < needed && !grants(Grown(capacity, needed, limit)))
    ensures Drains(pending, content, Drained(pending, content, capacity, limit, grants, budget), budget, limit, grants)
  {
    hide Drains, StopsFor, Kept, Grown;
    var d := Drained(pending, content, capacity, limit, grants, budget);
    if pending[0].Data? {
      AskedIsGrown(d, pending[0].piece, limit);
    }
    assert StopsFor(d, [pending[0]], budget, limit, grants) by {
      LastOne(d, pending[0], budget, limit, grants);
    }
    assert Kept(d, [pending[0]]) == [] by {
      KeptOne(d, pending[0]);
    }
    OneIsAll(pending, content, d, budget, limit, grants);
  }

  lemma AskedIsGrown(d: Drain, piece: seq<byte>, limit: nat)
    requires limit <= USIZE_MAX
    ensures d.capacity < |d.content| + |piece| ==> Grown(d.capacity, |d.content| + |piece|, limit) == Asked(d, piece, limit)
  {
  }

  lemma LastOne(d: Drain, r: Reading, budget: nat, limit: nat, grants: nat -> bool)
    requires match r
             case Eof => d.outcome.Closed?
             case WouldBlock => d.outcome.Open?
             case ReadFailed => d.outcome.Broken?
             case Interrupted => false
             case Data(piece) =>
               var needed := |d.content| + |piece|;
               if needed > limit then d.outcome.Exceeded?
               else d.outcome.NoMemory? && d.capacity < needed && !grants(Asked(d, piece, limit))
    ensures StopsFor(d, [r], budget, limit, grants)
  {
    hide Asked;
  }

  lemma KeptOne(d: Drain, r: Reading)
    requires !r.Interrupted? && (r.Data? ==> d.outcome.Exceeded? || d.outcome.NoMemory?)
    ensures Kept(d, [r]) == []
  {
    WrittenOne(r);
    assert [r][..0] == [];
  }

  lemma OneIsAll(pending: seq<Reading>, content: seq<byte>, d: Drain, budget: nat, limit: nat, grants: nat -> bool)
    requires budget > 0 && pending != [] && d.rest == pending[1..] && d.content == content
    requires StopsFor(d, [pending[0]], budget, limit, grants) && Kept(d, [pending[0]]) == []
    ensures Drains(pending, content, d, budget, limit, grants)
  {
    hide StopsFor, Kept;
    assert pending[..1] == [pending[0]] && content + [] == content;
  }

  lemma OneMore(pending: seq<Reading>, content: seq<byte>, d: Drain, budget: nat, limit: nat, grants: nat -> bool, next: seq<byte>)
    requires budget > 0 && pending != []
    requires (pending[0].Interrupted? && next == content) || (pending[0].Data? && next == content + pending[0].piece)
    requires Drains(pending[1..], next, d, budget - 1, limit, grants)
    ensures Drains(pending, content, d, budget, limit, grants)
  {
    hide StopsFor, Kept, Written;
    var rest, k := pending[1..], |pending| - |d.rest|;
    var taken, more := rest[..k - 1], pending[..k];
    assert more == [pending[0]] + taken && rest[k - 1..] == pending[k..];
    OneMoreStops(pending[0], taken, d, budget, limit, grants);
    KeptAdds(pending[0], d, taken, limit, grants, budget - 1);
    Assoc(content, Written([pending[0]]), Kept(d, taken));
    WrittenOne(pending[0]);
    assert content + [] == content;
  }

  lemma OneMoreStops(r: Reading, taken: seq<Reading>, d: Drain, budget: nat, limit: nat, grants: nat -> bool)
    requires budget > 0 && (r.Interrupted? || r.Data?) && StopsFor(d, taken, budget - 1, limit, grants)
    ensures StopsFor(d, [r] + taken, budget, limit, grants)
  {
    hide Asked;
    var more := [r] + taken;
    forall i | 0 <= i < |more| - 1 ensures more[i].Data? || more[i].Interrupted? {
      assert i > 0 ==> more[i] == taken[i - 1];
    }
    assert taken != [] ==> more[|more| - 1] == taken[|taken| - 1];
  }

  lemma WrittenOne(r: Reading)
    ensures Written([r]) == if r.Data? then r.piece else []
  {
    if r.Data? {
      assert Written([r]) == r.piece + [] && r.piece + [] == r.piece;
    }
  }

  lemma KeptAdds(r: Reading, d: Drain, taken: seq<Reading>, limit: nat, grants: nat -> bool, budget: nat)
    requires (r.Interrupted? || r.Data?) && StopsFor(d, taken, budget, limit, grants)
    ensures Kept(d, [r] + taken) == Written([r]) + Kept(d, taken)
  {
    var all := [r] + taken;
    if taken != [] {
      assert all[..|all| - 1] == [r] + taken[..|taken| - 1];
      WrittenAdds(r, taken[..|taken| - 1]);
    }
    WrittenAdds(r, taken);
  }

  lemma WrittenAdds(r: Reading, rs: seq<Reading>)
    requires r.Interrupted? || r.Data?
    ensures Written([r] + rs) == Written([r]) + Written(rs)
  {
    var all := [r] + rs;
    assert all[0] == r && all[1..] == rs;
    if r.Data? {
      assert Written([r]) == r.piece + Written([]);
      assert r.piece + [] == r.piece;
    } else {
      assert Written([r]) == [];
      assert [] + Written(rs) == Written(rs);
    }
  }

  // ---- a command ----

  /** What both sides hold after these turns. */
  function Sides(turns: seq<Turn>, out: Side, err: Side, limit: nat, grants: nat -> bool): (Side, Side) {
    if turns == [] then (out, err)
    else
      Sides(turns[1..], Advance(out, turns[0].out, limit, grants).0, Advance(err, turns[0].err, 65_536, grants).0, limit, grants)
  }

  /** Draining a side that is still open ends like this. */
  predicate Ends(side: Side, arrived: seq<Reading>, limit: nat, grants: nat -> bool, outcome: DrainOutcome) {
    !side.closed && Drained(side.pending + arrived, side.content, side.capacity, limit, grants, 32).outcome == outcome
  }

  predicate Ended(side: Side, arrived: seq<Reading>, limit: nat, grants: nat -> bool) {
    side.closed || Ends(side, arrived, limit, grants, Closed)
  }

  /** The failure a side reports, if any. */
  ghost predicate Fails(side: Side, arrived: seq<Reading>, limit: nat, grants: nat -> bool, reason: Failure) {
    || (reason == OutputExceeded && Ends(side, arrived, limit, grants, Exceeded))
    || (reason == OutOfMemory && Ends(side, arrived, limit, grants, NoMemory))
    || (reason == ReadError && Ends(side, arrived, limit, grants, Broken))
  }

  /** The turn behind turns that did not end the command ends it in the order cancellation, deadline, output, errors
      output, exit: a status is returned exactly when both pipes are closed and the child has exited. */
  lemma LastTurn(before: seq<Turn>, t: Turn, limit: nat, grants: nat -> bool)
    requires Supervised(before, FRESH, FRESH, limit, grants).Unfinished?
    ensures var done := Supervised(before + [t], FRESH, FRESH, limit, grants);
            var (o, e) := Sides(before, FRESH, FRESH, limit, grants);
            && (t.cancelled ==> done == Failed(Cancelled))
            && (!t.cancelled && t.expired ==> done == Failed(TimedOut))
            && (!t.cancelled && !t.expired ==>
                  && (forall f :: Fails(o, t.out, limit, grants, f) ==> done == Failed(f))
                  && (forall f :: Fails(e, t.err, 65_536, grants, f) && (forall g :: !Fails(o, t.out, limit, grants, g)) ==> done == Failed(f))
                  && ((forall f :: !Fails(o, t.out, limit, grants, f) && !Fails(e, t.err, 65_536, grants, f)) ==>
                        if Ended(o, t.out, limit, grants) && Ended(e, t.err, 65_536, grants) then
                          match t.process
                          case Running => done == Unfinished
                          case WaitFailed => done == Failed(WaitError)
                          case Exited(status) => done.Finished? && done.status == status
                        else done == Unfinished))
  {
    hide Drained;
    ThenOne(before, t, FRESH, FRESH, limit, grants);
    var sides := Sides(before, FRESH, FRESH, limit, grants);
    Failing(sides.0, t.out, limit, grants);
    Failing(sides.1, t.err, 65_536, grants);
    assert [t][1..] == [];
  }

  lemma Failing(side: Side, arrived: seq<Reading>, limit: nat, grants: nat -> bool)
    ensures var a := Advance(side, arrived, limit, grants);
            && (forall f :: Fails(side, arrived, limit, grants, f) <==> a.1 == Some(f))
            && (a.1.None? ==> (a.0.closed <==> Ended(side, arrived, limit, grants)))
  {
    hide Drained;
  }

  lemma {:induction false} ThenOne(before: seq<Turn>, t: Turn, out: Side, err: Side, limit: nat, grants: nat -> bool)
    requires Supervised(before, out, err, limit, grants).Unfinished?
    ensures var (o, e) := Sides(before, out, err, limit, grants);
            Supervised(before + [t], out, err, limit, grants) == Supervised([t], o, e, limit, grants)
  {
    hide Advance;
    if before == [] {
      assert before + [t] == [t];
    } else {
      var turn := before[0];
      assert (before + [t])[0] == turn && (before + [t])[1..] == before[1..] + [t];
      ThenOne(before[1..], t, Advance(out, turn.out, limit, grants).0, Advance(err, turn.err, 65_536, grants).0, limit, grants);
    }
  }

  /** Nothing that is found later changes how a command ended. */
  lemma {:induction false} EndedStays(turns: seq<Turn>, more: seq<Turn>, out: Side, err: Side, limit: nat, grants: nat -> bool)
    requires !Supervised(turns, out, err, limit, grants).Unfinished?
    ensures Supervised(turns + more, out, err, limit, grants) == Supervised(turns, out, err, limit, grants)
  {
    hide Advance;
    var turn := turns[0];
    assert (turns + more)[0] == turn && (turns + more)[1..] == turns[1..] + more;
    var o, e := Advance(out, turn.out, limit, grants).0, Advance(err, turn.err, 65_536, grants).0;
    if !Supervised(turns[1..], o, e, limit, grants).Unfinished? {
      EndedStays(turns[1..], more, o, e, limit, grants);
    }
  }
}
