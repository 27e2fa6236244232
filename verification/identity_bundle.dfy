/** Replacing the device identity: five files one after the other, the identity document last, and a
    rollback when a write fails. */
module IdentityBundle {
  import opened Bytes
  import opened Host
  import opened Wrappers

  const MAX_FILE_BYTES: nat := 1024 * 1024

  /** How far one atomic write got: a write can fail before its rename or, while the directory is
      being synced, after it. */
  datatype WriteOutcome = Written | NotWritten | WrittenUnsynced

  datatype Replacement = Replacement(name: string, bytes: seq<byte>)

  datatype Outcome = Replaced | OldUnreadable | FailedRestored | FailedRollback

  /** What the owner of the bundle sends: a request to renew the certificate. */
  datatype Message = RenewalRequest(requestId: Bytes16)

  type Files = Disk<seq<byte>>
  type Trace = seq<Effect<seq<byte>, Message>>

  /** The outcomes of the forward writes and of the rollback writes, by index. */
  datatype Faults = Faults(forward: nat -> WriteOutcome, back: nat -> WriteOutcome)

  predicate Readable(disk: Files, name: string) {
    name in disk && 0 < |disk[name]| <= MAX_FILE_BYTES
  }

  predicate AllReadable(disk: Files, rs: seq<Replacement>) {
    forall i :: 0 <= i < |rs| ==> Readable(disk, rs[i].name)
  }

  /** The first `k` forward writes. */
  function Writes(rs: seq<Replacement>, k: nat): Trace
    requires k <= |rs|
  {
    if k == 0 then [] else Writes(rs, k - 1) + [Replace(rs[k - 1].name, rs[k - 1].bytes)]
  }

  /** Putting back the files before index `k`, last first. */
  function Restores(disk: Files, rs: seq<Replacement>, back: nat -> WriteOutcome, k: nat): Trace
    requires k <= |rs| && AllReadable(disk, rs)
  {
    if k == 0 then [] else
      (if back(k - 1).NotWritten? then [] else [Replace(rs[k - 1].name, disk[rs[k - 1].name])])
      + Restores(disk, rs, back, k - 1)
  }

  /** The index of the first forward write that fails, or the number of writes. */
  function FirstFailure(forward: nat -> WriteOutcome, n: nat, from: nat): (k: nat)
    requires from <= n
    ensures from <= k <= n
    ensures forall i :: from <= i < k ==> forward(i).Written?
    ensures k < n ==> !forward(k).Written?
    decreases n - from
  {
    if from == n || !forward(from).Written? then from else FirstFailure(forward, n, from + 1)
  }

  predicate RollbackWritten(back: nat -> WriteOutcome, k: nat) {
    forall j :: 0 <= j < k ==> back(j).Written?
  }

  datatype Plan = Plan(effects: Trace, outcome: Outcome)

  function Replacing(disk: Files, rs: seq<Replacement>, faults: Faults): Plan {
    if !AllReadable(disk, rs) then Plan([], OldUnreadable)
    else
      var k := FirstFailure(faults.forward, |rs|, 0);
      if k == |rs| then Plan(Writes(rs, k), Replaced)
      else
        var reached := if faults.forward(k).WrittenUnsynced? then k + 1 else k;
        Plan(Writes(rs, reached) + Restores(disk, rs, faults.back, k),
             if RollbackWritten(faults.back, k) then FailedRestored else FailedRollback)
  }

  /** One atomic write; fails unless the file is in place and the directory synced. */
  method AtomicBytes(machine: Machine<seq<byte>, Message>, name: string, bytes: seq<byte>, outcome: WriteOutcome)
    returns (ok: bool)
    requires machine.Valid()
    modifies machine
    ensures machine.Valid() && ok == outcome.Written?
    ensures machine.trace == old(machine.trace) + (if outcome.NotWritten? then [] else [Replace(name, bytes)])
  {
    if !outcome.NotWritten? {
      machine.Write(name, bytes);
    }
    ok := outcome.Written?;
  }

  method ReplaceIdentityBundle(machine: Machine<seq<byte>, Message>, rs: seq<Replacement>, faults: Faults)
    returns (outcome: Outcome)
    requires machine.Valid()
    modifies machine
    ensures machine.Valid()
    ensures var p := Replacing(old(machine.disk), rs, faults);
            outcome == p.outcome && machine.trace == old(machine.trace) + p.effects
  {
    hide ApplyAll;
    ghost var disk := machine.disk;
    var previous: seq<seq<byte>> := [];
    for i := 0 to |rs|
      invariant machine.disk == disk && machine.trace == old(machine.trace) && machine.Valid()
      invariant |previous| == i
      invariant forall j :: 0 <= j < i ==> Readable(disk, rs[j].name) && previous[j] == disk[rs[j].name]
    {
      if !Readable(machine.disk, rs[i].name) {
        return OldUnreadable;
      }
      previous := previous + [machine.disk[rs[i].name]];
    }
    ghost var failure := FirstFailure(faults.forward, |rs|, 0);
    for index := 0 to |rs|
      invariant machine.Valid() && index <= failure
      invariant machine.trace == old(machine.trace) + Writes(rs, index)
    {
      var written := AtomicBytes(machine, rs[index].name, rs[index].bytes, faults.forward(index));
      if !written {
        ghost var reached := if faults.forward(index).WrittenUnsynced? then index + 1 else index;
        assert machine.trace == old(machine.trace) + Writes(rs, reached);
        outcome := Rollback(machine, disk, rs, previous, faults.back, index);
        Assoc(old(machine.trace), Writes(rs, reached), Restores(disk, rs, faults.back, index));
        return;
      }
    }
    outcome := Replaced;
  }

  method Rollback(machine: Machine<seq<byte>, Message>, ghost disk: Files, rs: seq<Replacement>, previous: seq<seq<byte>>,
                  back: nat -> WriteOutcome, index: nat) returns (outcome: Outcome)
    requires machine.Valid() && AllReadable(disk, rs) && index <= |rs| == |previous|
    requires forall j :: 0 <= j < |rs| ==> previous[j] == disk[rs[j].name]
    modifies machine
    ensures machine.Valid()
    ensures outcome == if RollbackWritten(back, index) then FailedRestored else FailedRollback
    ensures machine.trace == old(machine.trace) + Restores(disk, rs, back, index)
  {
    hide ApplyAll;
    var rollbackFailed := false;
    var j := index;
    while j > 0
      invariant 0 <= j <= index && machine.Valid()
      invariant rollbackFailed <==> exists i :: j <= i < index && !back(i).Written?
      invariant machine.trace + Restores(disk, rs, back, j) == old(machine.trace) + Restores(disk, rs, back, index)
    {
      ghost var before := machine.trace;
      var restored := AtomicBytes(machine, rs[j - 1].name, previous[j - 1], back(j - 1));
      if !restored {
        rollbackFailed := true;
      }
      Assoc(before, if back(j - 1).NotWritten? then [] else [Replace(rs[j - 1].name, previous[j - 1])],
            Restores(disk, rs, back, j - 1));
      j := j - 1;
    }
    assert machine.trace + [] == machine.trace;
    outcome := if rollbackFailed then FailedRollback else FailedRestored;
  }

  // ---- what the files hold afterwards ----

  predicate Names(rs: seq<Replacement>, k: nat, name: string)
    requires k <= |rs|
  {
    exists j :: 0 <= j < k && rs[j].name == name
  }

  predicate DistinctNames(rs: seq<Replacement>) {
    forall i, j :: 0 <= i < j < |rs| ==> rs[i].name != rs[j].name
  }

  lemma {:induction false} WritesLeave(disk: Files, rs: seq<Replacement>, k: nat, name: string)
    requires k <= |rs|
    ensures var after := ApplyAll(disk, Writes(rs, k));
            && (name in disk ==> name in after)
            && (!Names(rs, k, name) ==> (name in after <==> name in disk) && (name in disk ==> after[name] == disk[name]))
            && (Names(rs, k, name) ==> name in after)
            && (k > 0 && rs[k - 1].name == name ==> after[name] == rs[k - 1].bytes)
  {
    if k > 0 {
      WritesLeave(disk, rs, k - 1, name);
      ApplyOneMore(disk, Writes(rs, k - 1), Replace(rs[k - 1].name, rs[k - 1].bytes));
    }
  }

  /** With distinct names each of the first writes is still in place. */
  lemma {:induction false} WritesInPlace(disk: Files, rs: seq<Replacement>, k: nat, i: nat)
    requires i < k <= |rs| && DistinctNames(rs)
    ensures var after := ApplyAll(disk, Writes(rs, k)); rs[i].name in after && after[rs[i].name] == rs[i].bytes
  {
    WritesLeave(disk, rs, k, rs[i].name);
    if i < k - 1 {
      WritesInPlace(disk, rs, k - 1, i);
      ApplyOneMore(disk, Writes(rs, k - 1), Replace(rs[k - 1].name, rs[k - 1].bytes));
    }
  }

  lemma {:induction false} RestoresLeave(disk: Files, rs: seq<Replacement>, back: nat -> WriteOutcome, k: nat,
                                         now: Files, name: string)
    requires k <= |rs| && AllReadable(disk, rs)
    ensures var after := ApplyAll(now, Restores(disk, rs, back, k));
            && (name in now ==> name in after)
            && (!Names(rs, k, name) ==> (name in after <==> name in now) && (name in now ==> after[name] == now[name]))
            && (Names(rs, k, name) && RollbackWritten(back, k) ==> name in after && after[name] == disk[name])
            && (name in now && name in disk && now[name] == disk[name] ==> name in after && after[name] == disk[name])
    decreases k
  {
    if k > 0 {
      var first := if back(k - 1).NotWritten? then [] else [Replace(rs[k - 1].name, disk[rs[k - 1].name])];
      var others := Restores(disk, rs, back, k - 1);
      ApplyInTurn(now, first, others);
      if first != [] {
        ApplyOne(now, first[0]);
      }
      RestoresLeave(disk, rs, back, k - 1, ApplyAll(now, first), name);
    }
  }

  /** Nothing is written over a file that is missing, empty or too large; everything is replaced when every write
      works; and a rollback fails when a write below the first one that failed cannot be put back. */
  lemma EndsExactly(disk: Files, rs: seq<Replacement>, faults: Faults)
    ensures var p := Replacing(disk, rs, faults); var n := |rs|;
            var unreadable := exists i :: 0 <= i < n && (rs[i].name !in disk || disk[rs[i].name] == [] || |disk[rs[i].name]| > 1_048_576);
            && (p.outcome == OldUnreadable <==> unreadable) && (unreadable ==> p.effects == [])
            && (p.outcome == Replaced <==> !unreadable && forall i :: 0 <= i < n ==> faults.forward(i).Written?)
            && (p.outcome == FailedRollback <==>
                  && !unreadable
                  && exists k :: 0 <= k < n && !faults.forward(k).Written? && (forall i :: 0 <= i < k ==> faults.forward(i).Written?)
                                 && exists j :: 0 <= j < k && !faults.back(j).Written?)
  {
    hide Writes, Restores;
    if AllReadable(disk, rs) {
      var k := FirstFailure(faults.forward, |rs|, 0);
      if k < |rs| {
        assert forall h :: 0 <= h < |rs| && !faults.forward(h).Written? && (forall i :: 0 <= i < h ==> faults.forward(i).Written?) ==> h == k;
      }
    }
  }

  /** Success replaces every file and nothing else. */
  lemma ReplacedMeansAllNew(disk: Files, rs: seq<Replacement>, faults: Faults)
    requires DistinctNames(rs) && Replacing(disk, rs, faults).outcome == Replaced
    ensures var after := ApplyAll(disk, Replacing(disk, rs, faults).effects);
            && (forall i :: 0 <= i < |rs| ==> rs[i].name in after && after[rs[i].name] == rs[i].bytes)
            && (forall name :: !Names(rs, |rs|, name) ==>
                  (name in after <==> name in disk) && (name in disk ==> after[name] == disk[name]))
  {
    hide Names;
    forall i | 0 <= i < |rs| ensures var after := ApplyAll(disk, Writes(rs, |rs|));
                                     rs[i].name in after && after[rs[i].name] == rs[i].bytes {
      WritesInPlace(disk, rs, |rs|, i);
    }
    forall name {
      WritesLeave(disk, rs, |rs|, name);
    }
  }

  /** What a failed replacement with a working rollback leaves: the old files, except that the rollback
      starts below the failing index, so a file whose write failed only after its rename stays new. */
  lemma RestoredExceptFailing(disk: Files, rs: seq<Replacement>, faults: Faults)
    requires Replacing(disk, rs, faults).outcome == FailedRestored
    ensures var after := ApplyAll(disk, Replacing(disk, rs, faults).effects);
            var k := FirstFailure(faults.forward, |rs|, 0);
            after == if faults.forward(k).WrittenUnsynced? && !Names(rs, k, rs[k].name)
                     then disk[rs[k].name := rs[k].bytes] else disk
  {
    hide Restores, Writes, ApplyAll, Names;
    var k := FirstFailure(faults.forward, |rs|, 0);
    var reached := if faults.forward(k).WrittenUnsynced? then k + 1 else k;
    ApplyInTurn(disk, Writes(rs, reached), Restores(disk, rs, faults.back, k));
    var after := ApplyAll(disk, Replacing(disk, rs, faults).effects);
    var expected := if faults.forward(k).WrittenUnsynced? && !Names(rs, k, rs[k].name)
                    then disk[rs[k].name := rs[k].bytes] else disk;
    forall name ensures (name in after <==> name in expected) && (name in after ==> after[name] == expected[name]) {
      RestoredName(disk, rs, faults.back, k, reached, name);
    }
  }

  /** One name after the first writes and a rollback from index `k`. */
  lemma RestoredName(disk: Files, rs: seq<Replacement>, back: nat -> WriteOutcome, k: nat, reached: nat, name: string)
    requires k < |rs| && k <= reached <= k + 1 && AllReadable(disk, rs) && RollbackWritten(back, k)
    ensures var after := ApplyAll(ApplyAll(disk, Writes(rs, reached)), Restores(disk, rs, back, k));
            if reached == k + 1 && rs[k].name == name && !Names(rs, k, name)
            then name in after && after[name] == rs[k].bytes
            else (name in after <==> name in disk) && (name in disk ==> after[name] == disk[name])
  {
    hide Restores, Writes, ApplyAll;
    WritesLeave(disk, rs, reached, name);
    RestoresLeave(disk, rs, back, k, ApplyAll(disk, Writes(rs, reached)), name);
    assert Names(rs, k + 1, name) <==> Names(rs, k, name) || rs[k].name == name;
  }

  /** `old identity restored` is true exactly when the failing write left its file as it was. */
  lemma RestoredMeansAllOld(disk: Files, rs: seq<Replacement>, faults: Faults)
    requires Replacing(disk, rs, faults).outcome == FailedRestored && DistinctNames(rs)
    ensures var k := FirstFailure(faults.forward, |rs|, 0);
            ApplyAll(disk, Replacing(disk, rs, faults).effects) == disk
            <==> faults.forward(k).NotWritten? || rs[k].bytes == disk[rs[k].name]
  {
    hide Writes, Restores, ApplyAll;
    RestoredExceptFailing(disk, rs, faults);
    var k := FirstFailure(faults.forward, |rs|, 0);
    assert !Names(rs, k, rs[k].name);
    var changed := disk[rs[k].name := rs[k].bytes];
    assert changed[rs[k].name] == rs[k].bytes;
  }

  // ---- crash points ----

  lemma {:induction false} WritesPrefix(rs: seq<Replacement>, k: nat, cut: nat)
    requires k <= |rs|
    ensures |Writes(rs, k)| == k && UpTo(Writes(rs, k), cut) == Writes(rs, if cut <= k then cut else k)
  {
    if k > 0 {
      WritesPrefix(rs, k - 1, cut);
    }
  }

  lemma {:induction false} RestoresNeverTouch(disk: Files, rs: seq<Replacement>, back: nat -> WriteOutcome, k: nat,
                                              name: string)
    requires k <= |rs| && AllReadable(disk, rs) && !Names(rs, k, name)
    ensures forall i :: 0 <= i < |Restores(disk, rs, back, k)| ==>
              Restores(disk, rs, back, k)[i].Replace? && Restores(disk, rs, back, k)[i].name != name
  {
    if k > 0 {
      RestoresNeverTouch(disk, rs, back, k - 1, name);
    }
  }

  lemma {:induction false} ReplacesElsewhere(now: Files, es: Trace, name: string)
    requires forall i :: 0 <= i < |es| ==> es[i].Replace? && es[i].name != name
    ensures var after := ApplyAll(now, es); (name in after <==> name in now) && (name in now ==> after[name] == now[name])
  {
    if es != [] {
      var init := es[..|es| - 1];
      assert forall i :: 0 <= i < |init| ==> init[i] == es[i];
      ReplacesElsewhere(now, init, name);
    }
  }

  /** At this crash point a new identity document comes with four other new files. */
  ghost predicate MarkerVouches(after: Files, rs: seq<Replacement>)
    requires rs != []
  {
    var marker := rs[|rs| - 1];
    marker.name in after && after[marker.name] == marker.bytes ==>
      forall i :: 0 <= i < |rs| ==> rs[i].name in after && after[rs[i].name] == rs[i].bytes
  }

  /** The one schedule that breaks the commit marker: its own write fails after the rename, and the
      rollback then puts an older file back beside it. */
  ghost predicate MarkerOrphaned(disk: Files, rs: seq<Replacement>, faults: Faults)
    requires rs != [] && AllReadable(disk, rs)
  {
    var last := |rs| - 1;
    && FirstFailure(faults.forward, |rs|, 0) == last && faults.forward(last).WrittenUnsynced?
    && exists j :: 0 <= j < last && !faults.back(j).NotWritten? && rs[j].bytes != disk[rs[j].name]
  }

  lemma {:induction false} RestoredFile(disk: Files, rs: seq<Replacement>, back: nat -> WriteOutcome, k: nat,
                                        now: Files, j: nat)
    requires j < k <= |rs| && AllReadable(disk, rs) && DistinctNames(rs) && !back(j).NotWritten?
    ensures var after := ApplyAll(now, Restores(disk, rs, back, k));
            rs[j].name in after && after[rs[j].name] == disk[rs[j].name]
    decreases k
  {
    var first := if back(k - 1).NotWritten? then [] else [Replace(rs[k - 1].name, disk[rs[k - 1].name])];
    var others := Restores(disk, rs, back, k - 1);
    ApplyInTurn(now, first, others);
    if j == k - 1 {
      ApplyOne(now, first[0]);
      assert !Names(rs, k - 1, rs[j].name);
      RestoresLeave(disk, rs, back, k - 1, ApplyAll(now, first), rs[j].name);
    } else {
      RestoredFile(disk, rs, back, k - 1, ApplyAll(now, first), j);
    }
  }

  /** Before the marker's own write the marker is old at every crash point. */
  lemma MarkerStaysOld(disk: Files, rs: seq<Replacement>, faults: Faults, cut: nat)
    requires rs != [] && AllReadable(disk, rs) && DistinctNames(rs)
    requires var k := FirstFailure(faults.forward, |rs|, 0);
             k < |rs| - 1 || (k == |rs| - 1 && faults.forward(k).NotWritten?)
    ensures var marker := rs[|rs| - 1].name;
            var after := ApplyAll(disk, UpTo(Replacing(disk, rs, faults).effects, cut));
            marker in after && after[marker] == disk[marker]
  {
    var k := FirstFailure(faults.forward, |rs|, 0);
    var reached := if faults.forward(k).WrittenUnsynced? then k + 1 else k;
    var marker := rs[|rs| - 1].name;
    var es := UpTo(Replacing(disk, rs, faults).effects, cut);
    assert !Names(rs, reached, marker) && !Names(rs, k, marker);
    WritesPrefix(rs, reached, reached);
    WritesElsewhere(rs, reached, marker);
    RestoresNeverTouch(disk, rs, faults.back, k, marker);
    assert forall i :: 0 <= i < |es| ==> es[i] == Replacing(disk, rs, faults).effects[i];
    ReplacesElsewhere(disk, es, marker);
  }

  lemma {:induction false} WritesElsewhere(rs: seq<Replacement>, k: nat, name: string)
    requires k <= |rs| && !Names(rs, k, name)
    ensures forall i :: 0 <= i < |Writes(rs, k)| ==> Writes(rs, k)[i].Replace? && Writes(rs, k)[i].name != name
  {
    if k > 0 {
      WritesElsewhere(rs, k - 1, name);
    }
  }

  /** At every crash point a new identity document implies that the other files are new too, if and
      only if the marker's write did not fail after its rename with an effective rollback behind it. */
  lemma MarkerVouchesExactly(disk: Files, rs: seq<Replacement>, faults: Faults)
    requires rs != [] && AllReadable(disk, rs) && DistinctNames(rs)
    requires disk[rs[|rs| - 1].name] != rs[|rs| - 1].bytes
    ensures (forall cut: nat :: MarkerVouches(ApplyAll(disk, UpTo(Replacing(disk, rs, faults).effects, cut)), rs))
            <==> !MarkerOrphaned(disk, rs, faults)
  {
    hide Restores, Writes, ApplyAll;
    if MarkerOrphaned(disk, rs, faults) {
      OrphanedAtTheEnd(disk, rs, faults);
      var es := Replacing(disk, rs, faults).effects;
      assert UpTo(es, |es|) == es;
    } else {
      forall cut: nat ensures MarkerVouches(ApplyAll(disk, UpTo(Replacing(disk, rs, faults).effects, cut)), rs) {
        VouchesAt(disk, rs, faults, cut);
      }
    }
  }

  /** Every write succeeds but the last, which fails after its rename; the rollback then succeeds. */
  function LastSyncFails(n: nat): Faults {
    Faults(i => if i + 1 == n then WrittenUnsynced else Written, _ => Written)
  }

  /** Such a schedule orphans the marker of every bundle that changes another file: the new identity
      document stays beside the old files. */
  lemma LastSyncOrphansTheMarker(disk: Files, rs: seq<Replacement>, j: nat)
    requires AllReadable(disk, rs) && DistinctNames(rs) && j < |rs| - 1 && rs[j].bytes != disk[rs[j].name]
    ensures MarkerOrphaned(disk, rs, LastSyncFails(|rs|))
    ensures !MarkerVouches(ApplyAll(disk, Replacing(disk, rs, LastSyncFails(|rs|)).effects), rs)
  {
    hide MarkerVouches, Replacing;
    var faults := LastSyncFails(|rs|);
    assert faults.forward(|rs| - 1).WrittenUnsynced? && !faults.back(j).NotWritten?;
    OrphanedAtTheEnd(disk, rs, faults);
  }

  /** The five files of an identity before and after a renewal that runs into it. */
  lemma RenewalCanOrphanTheMarker(former: seq<byte>, latter: seq<byte>)
    requires 0 < |former| <= MAX_FILE_BYTES && latter != former
    ensures var names := ["device-cert.der", "device-cert.pem", "device-chain.pem", "device-mtls.pem",
                          "device-identity-v1.json"];
            var disk := map i | i in names :: former;
            var rs := seq(5, i requires 0 <= i < 5 => Replacement(names[i], latter));
            && AllReadable(disk, rs) && Replacing(disk, rs, LastSyncFails(5)).outcome == FailedRestored
            && var after := ApplyAll(disk, Replacing(disk, rs, LastSyncFails(5)).effects);
               !MarkerVouches(after, rs)
  {
    var names := ["device-cert.der", "device-cert.pem", "device-chain.pem", "device-mtls.pem", "device-identity-v1.json"];
    var disk := map i | i in names :: former;
    var rs := seq(5, i requires 0 <= i < 5 => Replacement(names[i], latter));
    LastSyncOrphansTheMarker(disk, rs, 0);
  }

  lemma OrphanedAtTheEnd(disk: Files, rs: seq<Replacement>, faults: Faults)
    requires rs != [] && AllReadable(disk, rs) && DistinctNames(rs) && MarkerOrphaned(disk, rs, faults)
    ensures !MarkerVouches(ApplyAll(disk, Replacing(disk, rs, faults).effects), rs)
  {
    hide Writes, Restores, ApplyAll;
    var last := |rs| - 1;
    var j :| 0 <= j < last && !faults.back(j).NotWritten? && rs[j].bytes != disk[rs[j].name];
    var now := ApplyAll(disk, Writes(rs, last + 1));
    ApplyInTurn(disk, Writes(rs, last + 1), Restores(disk, rs, faults.back, last));
    WritesInPlace(disk, rs, last + 1, last);
    assert !Names(rs, last, rs[last].name);
    RestoresLeave(disk, rs, faults.back, last, now, rs[last].name);
    RestoredFile(disk, rs, faults.back, last, now, j);
  }

  lemma VouchesAt(disk: Files, rs: seq<Replacement>, faults: Faults, cut: nat)
    requires rs != [] && AllReadable(disk, rs) && DistinctNames(rs) && !MarkerOrphaned(disk, rs, faults)
    requires disk[rs[|rs| - 1].name] != rs[|rs| - 1].bytes
    ensures MarkerVouches(ApplyAll(disk, UpTo(Replacing(disk, rs, faults).effects, cut)), rs)
  {
    hide Restores, Writes, ApplyAll, Names;
    var n := |rs|;
    var k := FirstFailure(faults.forward, n, 0);
    if k < n - 1 || (k == n - 1 && faults.forward(k).NotWritten?) {
      MarkerStaysOld(disk, rs, faults, cut);
    } else {
      ForwardCut(disk, rs, faults, cut);
    }
  }

  /** Before all files are written the marker is old. */
  lemma EarlyCut(disk: Files, rs: seq<Replacement>, rest: Trace, cut: nat)
    requires rs != [] && AllReadable(disk, rs) && DistinctNames(rs) && cut < |rs|
    requires disk[rs[|rs| - 1].name] != rs[|rs| - 1].bytes
    ensures MarkerVouches(ApplyAll(disk, UpTo(Writes(rs, |rs|) + rest, cut)), rs)
  {
    WritesPrefix(rs, |rs|, cut);
    assert UpTo(Writes(rs, |rs|) + rest, cut) == UpTo(Writes(rs, |rs|), cut);
    assert !Names(rs, cut, rs[|rs| - 1].name);
    WritesLeave(disk, rs, cut, rs[|rs| - 1].name);
  }

  /** Once all files are written they stay, if what follows changes nothing. */
  lemma {:induction false} LateCut(disk: Files, rs: seq<Replacement>, rest: Trace, cut: nat)
    requires rs != [] && DistinctNames(rs) && cut >= |rs|
    requires var now := ApplyAll(disk, Writes(rs, |rs|));
             forall i :: 0 <= i < |rest| ==> rest[i].Replace? && rest[i].name in now && now[rest[i].name] == rest[i].content
    ensures MarkerVouches(ApplyAll(disk, UpTo(Writes(rs, |rs|) + rest, cut)), rs)
  {
    var n := |rs|;
    var now := ApplyAll(disk, Writes(rs, n));
    forall i | 0 <= i < n ensures rs[i].name in now && now[rs[i].name] == rs[i].bytes {
      WritesInPlace(disk, rs, n, i);
    }
    WritesPrefix(rs, n, n);
    var done := UpTo(rest, cut - n);
    assert UpTo(Writes(rs, n) + rest, cut) == Writes(rs, n) + done;
    assert forall i :: 0 <= i < |done| ==> done[i] == rest[i];
    ApplyInTurn(disk, Writes(rs, n), done);
    IdleEffects(now, done);
  }

  /** All files were written, and nothing effective was rolled back. */
  lemma ForwardCut(disk: Files, rs: seq<Replacement>, faults: Faults, cut: nat)
    requires rs != [] && AllReadable(disk, rs) && DistinctNames(rs) && !MarkerOrphaned(disk, rs, faults)
    requires disk[rs[|rs| - 1].name] != rs[|rs| - 1].bytes
    requires var k := FirstFailure(faults.forward, |rs|, 0);
             k == |rs| || (k == |rs| - 1 && faults.forward(k).WrittenUnsynced?)
    ensures MarkerVouches(ApplyAll(disk, UpTo(Replacing(disk, rs, faults).effects, cut)), rs)
  {
    hide Writes, Restores, ApplyAll, MarkerVouches;
    var n := |rs|;
    var k := FirstFailure(faults.forward, n, 0);
    var rest: Trace := if k == n then [] else Restores(disk, rs, faults.back, n - 1);
    assert Replacing(disk, rs, faults).effects == Writes(rs, n) + rest;
    if cut < n {
      EarlyCut(disk, rs, rest, cut);
    } else {
      if k < n {
        var now := ApplyAll(disk, Writes(rs, n));
        forall j | 0 <= j < n ensures rs[j].name in now && now[rs[j].name] == rs[j].bytes {
          WritesInPlace(disk, rs, n, j);
        }
        IdleRestores(disk, rs, faults.back, n - 1, now);
      }
      LateCut(disk, rs, rest, cut);
    }
  }

  /** Putting back bytes that equal the new ones changes nothing. */
  lemma {:induction false} IdleRestores(disk: Files, rs: seq<Replacement>, back: nat -> WriteOutcome, k: nat, now: Files)
    requires k <= |rs| && AllReadable(disk, rs)
    requires forall j :: 0 <= j < k ==> rs[j].name in now && now[rs[j].name] == rs[j].bytes
    requires forall j :: 0 <= j < k ==> back(j).NotWritten? || rs[j].bytes == disk[rs[j].name]
    ensures forall i :: 0 <= i < |Restores(disk, rs, back, k)| ==>
              var e := Restores(disk, rs, back, k)[i]; e.Replace? && e.name in now && now[e.name] == e.content
  {
    if k > 0 {
      IdleRestores(disk, rs, back, k - 1, now);
    }
  }

  lemma {:induction false} IdleEffects(now: Files, es: Trace)
    requires forall i :: 0 <= i < |es| ==> es[i].Replace? && es[i].name in now && now[es[i].name] == es[i].content
    ensures ApplyAll(now, es) == now
  {
    if es != [] {
      var init := es[..|es| - 1];
      assert forall i :: 0 <= i < |init| ==> init[i] == es[i];
      IdleEffects(now, init);
    }
  }
}
