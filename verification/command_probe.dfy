/** Running a Core command with bounded output: pipes are drained without blocking, and the process
    group is killed unless the command closed both pipes and was reaped. */
module CommandProbe {
  import opened Bytes
  import opened Wrappers

  const CHUNK: nat := 8192
  const MAX_READS: nat := 32
  const STDERR_LIMIT: nat := 64 * 1024
  const USIZE_MAX: nat := 0xFFFF_FFFF_FFFF_FFFF

  type Piece = c: seq<byte> | 0 < |c| <= CHUNK witness [0]

  /** One result of reading a non-blocking pipe. */
  datatype Reading = Data(piece: Piece) | Eof | WouldBlock | Interrupted | ReadFailed

  datatype DrainOutcome = Closed | Open | Exceeded | NoMemory | Broken

  datatype Drain = Drain(content: seq<byte>, capacity: nat, rest: seq<Reading>, outcome: DrainOutcome)

  function Min(a: nat, b: nat): nat {
    if a < b then a else b
  }

  function Max(a: nat, b: nat): nat {
    if a < b then b else a
  }

  /** The capacity asked for before `needed` bytes are stored. */
  function Grown(capacity: nat, needed: nat, limit: nat): nat {
    if capacity < needed then Min(Max(Min(2 * capacity, USIZE_MAX), needed), limit) else capacity
  }

  /** At most `budget` reads; `grants` says which capacities the allocator provides. A pipe with nothing
      to read would block. */
  function Drained(pending: seq<Reading>, content: seq<byte>, capacity: nat, limit: nat, grants: nat -> bool, budget: nat): Drain {
    if budget == 0 || pending == [] then Drain(content, capacity, pending, Open)
    else match pending[0]
      case Eof => Drain(content, capacity, pending[1..], Closed)
      case WouldBlock => Drain(content, capacity, pending[1..], Open)
      case Interrupted => Drained(pending[1..], content, capacity, limit, grants, budget - 1)
      case ReadFailed => Drain(content, capacity, pending[1..], Broken)
      case Data(piece) =>
        if |content| + |piece| > limit then Drain(content, capacity, pending[1..], Exceeded)
        else
          var grown := Grown(capacity, |content| + |piece|, limit);
          if capacity < |content| + |piece| && !grants(grown) then Drain(content, capacity, pending[1..], NoMemory)
          else Drained(pending[1..], content + piece, grown, limit, grants, budget - 1)
  }

  /** A vector and the room reserved for it. */
  class Buffer {
    var content: seq<byte>
    var capacity: nat
    const grants: nat -> bool

    constructor (grants: nat -> bool)
      ensures content == [] && capacity == 0 && this.grants == grants
    {
      content, capacity, this.grants := [], 0, grants;
    }

    /** `try_reserve_exact`. */
    method TryReserveExact(additional: nat) returns (ok: bool)
      modifies this`capacity
      ensures ok == (|content| + additional <= old(capacity) || grants(|content| + additional))
      ensures capacity == if ok then Max(old(capacity), |content| + additional) else old(capacity)
    {
      ok := |content| + additional <= capacity || grants(|content| + additional);
      if ok {
        capacity := Max(capacity, |content| + additional);
      }
    }

    /** Appending within the room reserved. */
    method Extend(bytes: seq<byte>)
      requires |content| + |bytes| <= capacity
      modifies this`content
      ensures content == old(content) + bytes
    {
      content := content + bytes;
    }
  }

  class Pipe {
    var pending: seq<Reading>

    constructor ()
      ensures pending == []
    {
      pending := [];
    }

    method Read() returns (r: Reading)
      modifies this
      ensures r == if old(pending) == [] then WouldBlock else old(pending)[0]
      ensures pending == if old(pending) == [] then [] else old(pending)[1..]
    {
      if pending == [] {
        return WouldBlock;
      }
      r := pending[0];
      pending := pending[1..];
    }
  }

  /** Taking one piece, if the limit and the allocator allow it. */
  method Store(bytes: Buffer, piece: Piece, limit: nat) returns (refused: Option<DrainOutcome>)
    requires |bytes.content| <= bytes.capacity && |bytes.content| <= limit <= USIZE_MAX
    modifies bytes
    ensures |bytes.content| <= bytes.capacity && |bytes.content| <= limit
    ensures var needed := |old(bytes.content)| + |piece|; var grown := Grown(old(bytes.capacity), needed, limit);
            if needed > limit then
              refused == Some(Exceeded) && bytes.content == old(bytes.content) && bytes.capacity == old(bytes.capacity)
            else if old(bytes.capacity) < needed && !bytes.grants(grown) then
              refused == Some(NoMemory) && bytes.content == old(bytes.content) && bytes.capacity == old(bytes.capacity)
            else refused == None && bytes.content == old(bytes.content) + piece && bytes.capacity == grown
  {
    if |piece| > limit - |bytes.content| {
      return Some(Exceeded);
    }
    if bytes.capacity < |bytes.content| + |piece| {
      var capacity := Min(Max(Min(2 * bytes.capacity, USIZE_MAX), |bytes.content| + |piece|), limit);
      var ok := bytes.TryReserveExact(capacity - |bytes.content|);
      if !ok {
        return Some(NoMemory);
      }
    }
    bytes.Extend(piece);
    refused := None;
  }

  /** The drain loop. Nothing is subtracted below zero and nothing is stored outside the room reserved. */
  method DrainPipe(pipe: Pipe, bytes: Buffer, limit: nat) returns (outcome: DrainOutcome)
    requires |bytes.content| <= bytes.capacity && |bytes.content| <= limit <= USIZE_MAX
    modifies pipe, bytes
    ensures var d := Drained(old(pipe.pending), old(bytes.content), old(bytes.capacity), limit, bytes.grants, MAX_READS);
            && outcome == d.outcome && bytes.content == d.content && bytes.capacity == d.capacity
            && pipe.pending == d.rest
    ensures |bytes.content| <= bytes.capacity && |bytes.content| <= limit
  {
    hide Grown;
    var taken := 0;
    while taken < MAX_READS
      invariant taken <= MAX_READS && |bytes.content| <= bytes.capacity && |bytes.content| <= limit
      invariant Drained(pipe.pending, bytes.content, bytes.capacity, limit, bytes.grants, MAX_READS - taken)
             == Drained(old(pipe.pending), old(bytes.content), old(bytes.capacity), limit, bytes.grants, MAX_READS)
    {
      var r := pipe.Read();
      match r {
        case Eof => return Closed;
        case WouldBlock => return Open;
        case Interrupted =>
        case ReadFailed => return Broken;
        case Data(piece) =>
          var refused := Store(bytes, piece, limit);
          if refused.Some? {
            return refused.value;
          }
      }
      taken := taken + 1;
    }
    outcome := Open;
  }

  // ---- what a drain does ----

  /** Everything written to a pipe before it was closed. */
  function Written(rs: seq<Reading>): seq<byte> {
    if rs == [] then [] else
      match rs[0]
      case Data(piece) => piece + Written(rs[1..])
      case Eof => []
      case _ => Written(rs[1..])
  }

  /** Nothing is lost, added or moved: what is held and what is still to come stay the same string. */
  lemma {:induction false} DrainKeepsTheStream(
      pending: seq<Reading>, more: seq<Reading>, content: seq<byte>, capacity: nat, limit: nat, grants: nat -> bool, budget: nat)
    ensures var d := Drained(pending, content, capacity, limit, grants, budget);
            && (d.outcome.Open? ==> d.content + Written(d.rest + more) == content + Written(pending + more))
            && (d.outcome.Closed? ==> d.content == content + Written(pending + more))
    decreases budget
  {
    if budget > 0 && pending != [] {
      var rest := pending[1..];
      assert (pending + more)[1..] == rest + more && (pending + more)[0] == pending[0];
      match pending[0]
      case Interrupted =>
        DrainKeepsTheStream(rest, more, content, capacity, limit, grants, budget - 1);
      case Data(piece) =>
        DrainKeepsTheStream(rest, more, content + piece, Grown(capacity, |content| + |piece|, limit), limit, grants, budget - 1);
        Assoc(content, piece, Written(rest + more));
      case _ =>
        assert content + [] == content;
    }
  }

  /** A drain holds its bounds: the content and every capacity asked for stay within the limit, and at
      most 32 results are taken from the pipe. */
  lemma {:induction false} DrainIsBounded(
      pending: seq<Reading>, content: seq<byte>, capacity: nat, limit: nat, grants: nat -> bool, budget: nat)
    requires |content| <= capacity <= limit <= USIZE_MAX
    ensures var d := Drained(pending, content, capacity, limit, grants, budget);
            && |d.content| <= d.capacity <= limit && content <= d.content
            && |pending| - budget <= |d.rest| <= |pending| && d.rest == pending[|pending| - |d.rest|..]
            && (d.outcome.Closed? ==> |d.rest| < |pending| && pending[|pending| - |d.rest| - 1] == Eof)
    decreases budget
  {
    if budget > 0 && pending != [] {
      var rest := pending[1..];
      match pending[0]
      case Interrupted =>
        DrainIsBounded(rest, content, capacity, limit, grants, budget - 1);
      case Data(piece) =>
        if |content| + |piece| <= limit {
          var grown := Grown(capacity, |content| + |piece|, limit);
          DrainIsBounded(rest, content + piece, grown, limit, grants, budget - 1);
        }
      case _ =>
    }
  }

  // ---- supervising the command ----

  datatype Wait = Running | Exited(status: int) | WaitFailed

  /** What one turn of the loop finds: cancellation, the deadline, new readings and the process. */
  datatype Turn = Turn(cancelled: bool, expired: bool, out: seq<Reading>, err: seq<Reading>, process: Wait)

  datatype Failure = Cancelled | LimitsInvalid | NotStarted | PipesFailed | TimedOut | OutputExceeded | OutOfMemory | ReadError | WaitError

  datatype Outcome =
    | Finished(status: int, out: seq<byte>, err: seq<byte>)
    | Failed(reason: Failure)
    /** The turns listed are over and the command still runs. */
    | Unfinished

  datatype Side = Side(content: seq<byte>, capacity: nat, pending: seq<Reading>, closed: bool)

  const FRESH := Side([], 0, [], false)

  function FailureOf(o: DrainOutcome): Option<Failure> {
    match o
    case Exceeded => Some(OutputExceeded)
    case NoMemory => Some(OutOfMemory)
    case Broken => Some(ReadError)
    case Closed => None
    case Open => None
  }

  function Advance(side: Side, arrived: seq<Reading>, limit: nat, grants: nat -> bool): (Side, Option<Failure>) {
    if side.closed then (side.(pending := side.pending + arrived), None)
    else
      var d := Drained(side.pending + arrived, side.content, side.capacity, limit, grants, MAX_READS);
      (Side(d.content, d.capacity, d.rest, d.outcome.Closed?), FailureOf(d.outcome))
  }

  function Supervised(turns: seq<Turn>, out: Side, err: Side, limit: nat, grants: nat -> bool): Outcome {
    if turns == [] then Unfinished
    else
      var turn := turns[0];
      if turn.cancelled then Failed(Cancelled)
      else if turn.expired then Failed(TimedOut)
      else
        var o := Advance(out, turn.out, limit, grants);
        if o.1.Some? then Failed(o.1.value)
        else
          var e := Advance(err, turn.err, STDERR_LIMIT, grants);
          if e.1.Some? then Failed(e.1.value)
          else if o.0.closed && e.0.closed && turn.process.Exited? then
            Finished(turn.process.status, o.0.content, e.0.content)
          else if o.0.closed && e.0.closed && turn.process.WaitFailed? then Failed(WaitError)
          else Supervised(turns[1..], o.0, e.0, limit, grants)
  }

  /** What is done to the child: its group and then the child itself are killed before it is waited for;
      a child found to have exited is reaped by that. */
  datatype ChildStep = KillGroup | KillChild | WaitForChild | FoundExited

  /** The child process while it is owned; dropping it kills and reaps whatever did not complete. */
  class OwnedProbe {
    var completed: bool
    var steps: seq<ChildStep>

    constructor ()
      ensures !completed && steps == []
    {
      completed, steps := false, [];
    }

    /** `try_wait` found the child's status. */
    method Complete()
      modifies this
      ensures completed && steps == old(steps) + [FoundExited]
    {
      steps := steps + [FoundExited];
      completed := true;
    }

    method Drop()
      modifies this
      ensures completed == old(completed)
      ensures steps == old(steps) + if completed then [] else [KillGroup, KillChild, WaitForChild]
    {
      if completed {
        return;
      }
      steps := steps + [KillGroup];
      steps := steps + [KillChild];
      steps := steps + [WaitForChild];
    }
  }

  datatype Start = Start(spawned: bool, pipesReady: bool)

  method DrainSide(pipe: Pipe, bytes: Buffer, arrived: seq<Reading>, limit: nat, closed: bool, ghost side: Side)
    returns (nowClosed: bool, failure: Option<Failure>)
    requires side == Side(bytes.content, bytes.capacity, pipe.pending, closed)
    requires |bytes.content| <= bytes.capacity && |bytes.content| <= limit <= USIZE_MAX
    modifies pipe, bytes
    ensures var a := Advance(side, arrived, limit, bytes.grants);
            && failure == a.1 && Side(bytes.content, bytes.capacity, pipe.pending, nowClosed) == a.0
    ensures |bytes.content| <= bytes.capacity && |bytes.content| <= limit
  {
    pipe.pending := pipe.pending + arrived;
    if closed {
      return true, None;
    }
    var outcome := DrainPipe(pipe, bytes, limit);
    nowClosed, failure := outcome.Closed?, FailureOf(outcome);
  }

  /** `output_controlled` over the turns it goes through. */
  method OutputControlled(limit: nat, timeout: nat, cancelledBefore: bool, start: Start, turns: seq<Turn>, grants: nat -> bool)
    returns (outcome: Outcome, probe: OwnedProbe?)
    requires limit <= USIZE_MAX
    ensures outcome == if cancelledBefore then Failed(Cancelled)
                       else if limit == 0 || timeout == 0 then Failed(LimitsInvalid)
                       else if !start.spawned then Failed(NotStarted)
                       else if !start.pipesReady then Failed(PipesFailed)
                       else Supervised(turns, FRESH, FRESH, limit, grants)
    ensures probe != null <==> !cancelledBefore && limit > 0 && timeout > 0 && start.spawned
    ensures probe != null && !outcome.Unfinished? ==>
              fresh(probe) && probe.steps == if outcome.Finished? then [FoundExited] else [KillGroup, KillChild, WaitForChild]
  {
    probe := null;
    if cancelledBefore {
      return Failed(Cancelled), null;
    }
    if limit == 0 || timeout == 0 {
      return Failed(LimitsInvalid), null;
    }
    if !start.spawned {
      return Failed(NotStarted), null;
    }
    var owned := new OwnedProbe();
    probe := owned;
    if !start.pipesReady {
      owned.Drop();
      return Failed(PipesFailed), owned;
    }
    outcome := Supervise(owned, limit, turns, grants);
  }

  method Supervise(probe: OwnedProbe, limit: nat, turns: seq<Turn>, grants: nat -> bool) returns (outcome: Outcome)
    requires limit <= USIZE_MAX && !probe.completed && probe.steps == []
    modifies probe
    ensures outcome == Supervised(turns, FRESH, FRESH, limit, grants)
    ensures !outcome.Unfinished? ==> probe.steps == if outcome.Finished? then [FoundExited] else [KillGroup, KillChild, WaitForChild]
  {
    hide Drained, FailureOf;
    var stdout := new Pipe();
    var stderr := new Pipe();
    var out := new Buffer(grants);
    var err := new Buffer(grants);
    var stdoutClosed, stderrClosed := false, false;
    var i := 0;
    while i < |turns|
      invariant i <= |turns| && !probe.completed && probe.steps == []
      invariant fresh(stdout) && fresh(stderr) && fresh(out) && fresh(err)
      invariant |out.content| <= out.capacity && |out.content| <= limit
      invariant |err.content| <= err.capacity && |err.content| <= STDERR_LIMIT
      invariant Supervised(turns[i..], Side(out.content, out.capacity, stdout.pending, stdoutClosed),
                           Side(err.content, err.capacity, stderr.pending, stderrClosed), limit, grants)
             == Supervised(turns, FRESH, FRESH, limit, grants)
    {
      var turn := turns[i];
      assert turns[i..][0] == turn && turns[i..][1..] == turns[i + 1..];
      if turn.cancelled {
        probe.Drop();
        return Failed(Cancelled);
      }
      if turn.expired {
        probe.Drop();
        return Failed(TimedOut);
      }
      var failure;
      stdoutClosed, failure := DrainSide(stdout, out, turn.out, limit, stdoutClosed,
                                         Side(out.content, out.capacity, stdout.pending, stdoutClosed));
      if failure.Some? {
        probe.Drop();
        return Failed(failure.value);
      }
      stderrClosed, failure := DrainSide(stderr, err, turn.err, STDERR_LIMIT, stderrClosed,
                                         Side(err.content, err.capacity, stderr.pending, stderrClosed));
      if failure.Some? {
        probe.Drop();
        return Failed(failure.value);
      }
      if stdoutClosed && stderrClosed {
        match turn.process {
          case Running =>
          case WaitFailed =>
            probe.Drop();
            return Failed(WaitError);
          case Exited(status) =>
            probe.Complete();
            probe.Drop();
            return Finished(status, out.content, err.content);
        }
      }
      i := i + 1;
    }
    outcome := Unfinished;
  }

  // ---- what output the caller gets ----

  function AllOut(turns: seq<Turn>): seq<Reading> {
    if turns == [] then [] else turns[0].out + AllOut(turns[1..])
  }

  function AllErr(turns: seq<Turn>): seq<Reading> {
    if turns == [] then [] else turns[0].err + AllErr(turns[1..])
  }

  /** What a side holds together with everything still to come. */
  function Ahead(side: Side, future: seq<Reading>): seq<byte> {
    side.content + if side.closed then [] else Written(side.pending + future)
  }

  lemma AdvanceKeepsTheStream(side: Side, arrived: seq<Reading>, future: seq<Reading>, limit: nat, grants: nat -> bool)
    requires Advance(side, arrived, limit, grants).1.None?
    ensures Ahead(Advance(side, arrived, limit, grants).0, future) == Ahead(side, arrived + future)
  {
    hide Drained, Written;
    Assoc(side.pending, arrived, future);
    DrainKeepsTheStream(side.pending + arrived, future, side.content, side.capacity, limit, grants, MAX_READS);
  }

  lemma {:induction false} FinishedKeepsTheStreams(turns: seq<Turn>, out: Side, err: Side, limit: nat, grants: nat -> bool)
    requires Supervised(turns, out, err, limit, grants).Finished?
    ensures var done := Supervised(turns, out, err, limit, grants);
            done.out == Ahead(out, AllOut(turns)) && done.err == Ahead(err, AllErr(turns))
  {
    hide Advance, Written;
    var turn := turns[0];
    AdvanceKeepsTheStream(out, turn.out, AllOut(turns[1..]), limit, grants);
    AdvanceKeepsTheStream(err, turn.err, AllErr(turns[1..]), STDERR_LIMIT, grants);
    var o, e := Advance(out, turn.out, limit, grants).0, Advance(err, turn.err, STDERR_LIMIT, grants).0;
    if o.closed && e.closed && turn.process.Exited? {
      assert o.content + [] == o.content && e.content + [] == e.content;
    } else {
      FinishedKeepsTheStreams(turns[1..], o, e, limit, grants);
    }
  }

  ghost predicate Bounded(side: Side, limit: nat) {
    |side.content| <= side.capacity <= limit
  }

  lemma {:induction false} FinishedIsBounded(turns: seq<Turn>, out: Side, err: Side, limit: nat, grants: nat -> bool)
    requires Supervised(turns, out, err, limit, grants).Finished?
    requires limit <= USIZE_MAX && Bounded(out, limit) && Bounded(err, STDERR_LIMIT)
    ensures |Supervised(turns, out, err, limit, grants).out| <= limit
    ensures |Supervised(turns, out, err, limit, grants).err| <= STDERR_LIMIT
    ensures (out.closed || Eof in out.pending + AllOut(turns)) && (err.closed || Eof in err.pending + AllErr(turns))
  {
    hide Drained;
    var turn := turns[0];
    var o, e := Advance(out, turn.out, limit, grants).0, Advance(err, turn.err, STDERR_LIMIT, grants).0;
    AdvanceIsBounded(out, turn.out, AllOut(turns[1..]), limit, grants);
    AdvanceIsBounded(err, turn.err, AllErr(turns[1..]), STDERR_LIMIT, grants);
    if !(o.closed && e.closed && turn.process.Exited?) {
      FinishedIsBounded(turns[1..], o, e, limit, grants);
    }
  }

  lemma AdvanceIsBounded(side: Side, arrived: seq<Reading>, future: seq<Reading>, limit: nat, grants: nat -> bool)
    requires limit <= USIZE_MAX && Bounded(side, limit)
    ensures var next := Advance(side, arrived, limit, grants).0;
            && Bounded(next, limit)
            && (next.closed || Eof in next.pending + future ==> side.closed || Eof in side.pending + (arrived + future))
  {
    hide Drained;
    var all := side.pending + arrived;
    Assoc(side.pending, arrived, future);
    if !side.closed {
      DrainIsBounded(all, side.content, side.capacity, limit, grants, MAX_READS);
      var d := Drained(all, side.content, side.capacity, limit, grants, MAX_READS);
      assert forall x :: x in d.rest ==> x in all;
    }
  }

  /** Output is returned only for a command that was reaped after closing both pipes, and it is exactly
      what the command wrote to them, within the limits. */
  lemma OutputIsWhatWasWritten(turns: seq<Turn>, limit: nat, grants: nat -> bool)
    requires limit <= USIZE_MAX && Supervised(turns, FRESH, FRESH, limit, grants).Finished?
    ensures var done := Supervised(turns, FRESH, FRESH, limit, grants);
            && done.out == Written(AllOut(turns)) && done.err == Written(AllErr(turns))
            && Eof in AllOut(turns) && Eof in AllErr(turns)
            && |done.out| <= limit && |done.err| <= STDERR_LIMIT
            && exists i :: 0 <= i < |turns| && turns[i].process == Exited(done.status)
  {
    hide Advance, Written, Supervised, AllOut, AllErr;
    FinishedKeepsTheStreams(turns, FRESH, FRESH, limit, grants);
    FinishedIsBounded(turns, FRESH, FRESH, limit, grants);
    FinishedWasReaped(turns, FRESH, FRESH, limit, grants);
    NothingBefore(AllOut(turns));
    NothingBefore(AllErr(turns));
    NothingBefore(Written(AllOut(turns)));
    NothingBefore(Written(AllErr(turns)));
  }

  lemma {:induction false} FinishedWasReaped(turns: seq<Turn>, out: Side, err: Side, limit: nat, grants: nat -> bool)
    requires Supervised(turns, out, err, limit, grants).Finished?
    ensures exists i :: 0 <= i < |turns|
              && turns[i].process == Exited(Supervised(turns, out, err, limit, grants).status)
  {
    hide Advance;
    var turn := turns[0];
    var o, e := Advance(out, turn.out, limit, grants).0, Advance(err, turn.err, STDERR_LIMIT, grants).0;
    if !(o.closed && e.closed && turn.process.Exited?) {
      FinishedWasReaped(turns[1..], o, e, limit, grants);
      var i :| 0 <= i < |turns[1..]|
        && turns[1..][i].process == Exited(Supervised(turns[1..], o, e, limit, grants).status);
      assert turns[i + 1] == turns[1..][i];
    } else {
      assert turns[0].process == Exited(turn.process.status);
    }
  }

  lemma NothingBefore<T>(s: seq<T>)
    ensures [] + s == s
  {
  }
}
