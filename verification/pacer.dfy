/** Pacing UDP sends against a nominal schedule, with real numbers for the clock. */
module Pacer {
  import opened Wrappers

  const TOLERANCE: real := 0.02

  /** When a packet was meant to go, when the pacer let it go, when it went, and whether the schedule
      was moved. */
  datatype Timing = Timing(nominal: real, target: real, sent: real, rebased: bool)

  datatype Pace = Pace(start: real, origin: real, period: real, lastSent: Option<real>)

  /** The two clock readings of one wait, before and after sleeping. */
  datatype Readings = Readings(first: real, second: real)

  datatype Waited = Waited(pace: Pace, timing: Timing)

  function Latest(a: real, b: real): real {
    if a < b then b else a
  }

  function Offset(sequence: nat, period: real): real {
    sequence as real * period
  }

  function Target(p: Pace, sequence: nat, first: real): real {
    var aim := p.origin + Offset(sequence, p.period);
    var start := if first - aim > TOLERANCE then first else aim;
    if p.lastSent.Some? then Latest(start, p.lastSent.value + p.period / 2.0) else start
  }

  function Wait(p: Pace, sequence: nat, r: Readings): Waited {
    var offset := Offset(sequence, p.period);
    var early := r.first - (p.origin + offset) > TOLERANCE;
    var target := Target(p, sequence, r.first);
    var late := r.second - target > TOLERANCE;
    var origin := if late then r.second - offset else if early then r.first - offset else p.origin;
    Waited(p.(origin := origin, lastSent := Some(r.second)), Timing(p.start + offset, target, r.second, early || late))
  }

  class RatePacer {
    const start: real
    var origin: real
    const period: real
    var lastSent: Option<real>

    function State(): Pace
      reads this
    {
      Pace(start, origin, period, lastSent)
    }

    constructor (start: real, pps: real)
      requires pps > 0.0
      ensures State() == Fresh(start, pps)
    {
      this.start, origin, period, lastSent := start, start, 1.0 / pps, None;
    }

    method WaitFor(sequence: nat, first: real, second: real) returns (timing: Timing)
      modifies this
      ensures Waited(State(), timing) == Wait(old(State()), sequence, Readings(first, second))
    {
      hide Offset;
      var nominal := start + Offset(sequence, period);
      var now := first;
      var target := origin + Offset(sequence, period);
      var rebased := now - target > TOLERANCE;
      if rebased {
        origin := now - Offset(sequence, period);
        target := now;
      }
      if lastSent.Some? {
        target := Latest(target, lastSent.value + period / 2.0);
      }
      now := second;
      if now - target > TOLERANCE {
        origin := now - Offset(sequence, period);
        rebased := true;
      }
      lastSent := Some(now);
      timing := Timing(nominal, target, now, rebased);
    }
  }

  function Fresh(start: real, pps: real): Pace
    requires pps > 0.0
  {
    Pace(start, start, 1.0 / pps, None)
  }

  // ---- whole runs ----

  /** The pacer after the first waits of a run, in sequence order. */
  function After(p: Pace, rs: seq<Readings>, k: nat): Pace
    requires k <= |rs|
  {
    if k == 0 then p else Wait(After(p, rs, k - 1), k - 1, rs[k - 1]).pace
  }

  function At(p: Pace, rs: seq<Readings>, k: nat): Timing
    requires k < |rs|
  {
    Wait(After(p, rs, k), k, rs[k]).timing
  }

  /** The clock never goes back, and a sleep ends no earlier than asked. */
  predicate Faithful(p: Pace, rs: seq<Readings>) {
    && (forall k :: 0 <= k < |rs| ==> rs[k].first <= rs[k].second && At(p, rs, k).target <= rs[k].second)
    && forall k :: 0 < k < |rs| ==> rs[k - 1].second <= rs[k].first
  }

  function Rebases(p: Pace, rs: seq<Readings>, k: nat): nat
    requires k <= |rs|
  {
    if k == 0 then 0 else Rebases(p, rs, k - 1) + if At(p, rs, k - 1).rebased then 1 else 0
  }

  predicate Late(p: Pace, rs: seq<Readings>, k: nat)
    requires k < |rs|
  {
    At(p, rs, k).sent > At(p, rs, k).nominal + TOLERANCE
  }

  lemma OneWait(p: Pace, sequence: nat, r: Readings)
    requires r.first <= r.second && Target(p, sequence, r.first) <= r.second
    ensures var w := Wait(p, sequence, r);
            && w.pace.start == p.start && w.pace.period == p.period && w.pace.lastSent == Some(w.timing.sent)
            && w.timing.nominal == p.start + Offset(sequence, p.period)
            && w.pace.origin >= p.origin && (w.timing.rebased ==> w.pace.origin > p.origin + TOLERANCE)
            && w.timing.sent >= w.pace.origin + Offset(sequence, p.period)
            && (p.lastSent.Some? ==> w.timing.sent >= p.lastSent.value + p.period / 2.0)
  {
    hide Offset;
    var offset := Offset(sequence, p.period);
    var target := Target(p, sequence, r.first);
    assert target >= p.origin + offset;
  }

  lemma {:induction false} RunKeeps(p: Pace, rs: seq<Readings>, k: nat)
    requires Faithful(p, rs) && k <= |rs|
    ensures After(p, rs, k).start == p.start && After(p, rs, k).period == p.period
    ensures k > 0 ==> After(p, rs, k).lastSent == Some(At(p, rs, k - 1).sent)
  {
    hide Wait, Offset;
    if k > 0 {
      RunKeeps(p, rs, k - 1);
      WaitInRun(p, rs, k - 1);
      OneWait(After(p, rs, k - 1), k - 1, rs[k - 1]);
    }
  }

  lemma WaitInRun(p: Pace, rs: seq<Readings>, k: nat)
    requires Faithful(p, rs) && k < |rs|
    ensures rs[k].first <= rs[k].second && Target(After(p, rs, k), k, rs[k].first) <= rs[k].second
  {
    hide After, Target, Offset;
    assert At(p, rs, k).target == Target(After(p, rs, k), k, rs[k].first);
  }

  /** A send is called rebased if and only if it moved the schedule. */
  lemma RebasedMeansMoved(p: Pace, rs: seq<Readings>, k: nat)
    requires Faithful(p, rs) && k < |rs|
    ensures At(p, rs, k).rebased <==> After(p, rs, k + 1).origin != After(p, rs, k).origin
  {
    hide Offset, After;
    WaitInRun(p, rs, k);
    OneWait(After(p, rs, k), k, rs[k]);
    AfterOneMore(p, rs, k);
  }

  /** No catch-up bursts: consecutive sends are at least half a period apart. */
  lemma HalfAPeriodApart(p: Pace, rs: seq<Readings>, k: nat)
    requires Faithful(p, rs) && 0 < k < |rs|
    ensures At(p, rs, k).sent >= At(p, rs, k - 1).sent + p.period / 2.0
  {
    hide Wait, After, Offset;
    RunKeeps(p, rs, k);
    WaitInRun(p, rs, k);
    OneWait(After(p, rs, k), k, rs[k]);
  }

  /** The origin never moves back and moves by more than the tolerance with each rebase. */
  lemma {:induction false} OriginCountsRebases(p: Pace, rs: seq<Readings>, k: nat)
    requires Faithful(p, rs) && k <= |rs|
    ensures var moved := After(p, rs, k).origin - p.origin;
            && moved >= Rebases(p, rs, k) as real * TOLERANCE
            && (Rebases(p, rs, k) > 0 ==> moved > Rebases(p, rs, k) as real * TOLERANCE)
  {
    hide Wait, Offset;
    if k > 0 {
      OriginCountsRebases(p, rs, k - 1);
      WaitInRun(p, rs, k - 1);
      OneWait(After(p, rs, k - 1), k - 1, rs[k - 1]);
    }
  }

  /** From the first rebase on every send is late, and it lags by more than the tolerance times the
      number of rebases so far. */
  lemma LagCountsRebases(p: Pace, rs: seq<Readings>, k: nat)
    requires Faithful(p, rs) && p.origin == p.start && k < |rs|
    ensures Rebases(p, rs, k + 1) > 0 ==>
              && At(p, rs, k).sent - At(p, rs, k).nominal > Rebases(p, rs, k + 1) as real * TOLERANCE
              && Late(p, rs, k)
  {
    hide Wait, After, Offset;
    OriginCountsRebases(p, rs, k + 1);
    RunKeeps(p, rs, k);
    WaitInRun(p, rs, k);
    OneWait(After(p, rs, k), k, rs[k]);
    AfterOneMore(p, rs, k);
  }

  lemma AfterOneMore(p: Pace, rs: seq<Readings>, k: nat)
    requires k < |rs|
    ensures After(p, rs, k + 1) == Wait(After(p, rs, k), k, rs[k]).pace
  {
    hide Wait, Offset;
  }

  lemma {:induction false} RebasesCount(p: Pace, rs: seq<Readings>, j: nat, k: nat)
    requires j <= k <= |rs|
    ensures Rebases(p, rs, j) <= Rebases(p, rs, k)
    decreases k
  {
    hide At;
    if j < k {
      RebasesCount(p, rs, j, k - 1);
    }
  }

  /** A rebased send is late itself, so whether a run was rebased adds nothing to whether it was late. */
  lemma RebasedIsLate(p: Pace, rs: seq<Readings>, j: nat, k: nat)
    requires Faithful(p, rs) && p.origin == p.start && j <= k < |rs| && At(p, rs, j).rebased
    ensures Late(p, rs, k)
  {
    hide At, Late, Offset;
    RebasesCount(p, rs, j + 1, k + 1);
    assert Rebases(p, rs, j + 1) > 0;
    LagCountsRebases(p, rs, k);
  }

  /** The other way round fails: two sends, each exactly the tolerance behind its target, put the
      second one late although the schedule never moved. */
  lemma LateWithoutRebase(start: real)
    ensures var p := Fresh(start, 100.0);
            var rs := [Readings(start, start + 0.02), Readings(start + 0.02, start + 0.045)];
            Faithful(p, rs) && Rebases(p, rs, 2) == 0 && Late(p, rs, 1)
  {
    var p := Fresh(start, 100.0);
    var rs := [Readings(start, start + 0.02), Readings(start + 0.02, start + 0.045)];
    assert p.period == 0.01;
    assert Offset(0, 0.01) == 0.0 && Offset(1, 0.01) == 0.01;
    hide Offset;
    var w := Wait(p, 0, rs[0]);
    assert w.timing == Timing(start, start, start + 0.02, false) && w.pace == p.(lastSent := Some(start + 0.02));
    assert After(p, rs, 0) == p && After(p, rs, 1) == w.pace && At(p, rs, 0) == w.timing;
    var v := Wait(w.pace, 1, rs[1]);
    assert v.timing == Timing(start + 0.01, start + 0.025, start + 0.045, false);
    assert At(p, rs, 1) == v.timing;
    assert Rebases(p, rs, 1) == 0;
  }
}
