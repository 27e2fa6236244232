/** The journal's files byte by byte: which records have one, and exactly which byte strings are read. */
module JournalLayout {
  import opened Bytes
  import Journal
  import opened JournalFormat
  import opened JournalProofs
  import opened Netd
  import opened Wrappers

  /** The numbers in a file. */
  lemma Numbers()
    ensures PhaseTag(Preparing) == 1 && PhaseTag(Prepared) == 2 && PhaseTag(Active) == 3
            && PhaseTag(RollingBack) == 4 && PhaseTag(Suspended) == 5 && PhaseTag(Draining) == 6
    ensures KeyTag(Ipv4Forward) == 1 && KeyTag(AllRpFilter) == 2 && KeyTag(CandyRpFilter) == 3 && KeyTag(CandyDisableIpv6) == 4
    ensures BigEndian(0x0102, 2) == [1, 2] && BigEndian(0x01020304, 4) == [1, 2, 3, 4]
    ensures BigEndian(0x0102030405060708, 8) == [1, 2, 3, 4, 5, 6, 7, 8]
  {
    assert BigEndian(0x010203, 3) == BigEndian(0x0102, 2) + [3];
    assert BigEndian(0x01020304, 4) == BigEndian(0x010203, 3) + [4];
    assert BigEndian(0x0102030405, 5) == BigEndian(0x01020304, 4) + [5];
    assert BigEndian(0x010203040506, 6) == BigEndian(0x0102030405, 5) + [6];
    assert BigEndian(0x01020304050607, 7) == BigEndian(0x010203040506, 6) + [7];
  }

  /** Where each sysctl change is in the file: three bytes, the key, the value it had and the one it got. */
  lemma {:induction false} SysctlsAt(cs: seq<SysctlChange>, i: nat)
    requires i < |cs|
    ensures SysctlBytes(cs)[3 * i..3 * i + 3] == [KeyTag(cs[i].key), cs[i].original, cs[i].applied]
  {
    var init := cs[..|cs| - 1];
    if i < |init| {
      SysctlsAt(init, i);
      assert SysctlBytes(cs)[3 * i..3 * i + 3] == SysctlBytes(init)[3 * i..3 * i + 3];
    }
  }

  /** Where each failed prefix is: five bytes, the network and the length. */
  lemma {:induction false} PrefixesAt(ps: seq<Ipv4Prefix>, i: nat)
    requires i < |ps|
    ensures PrefixBytes(ps)[5 * i..5 * i + 5] == ps[i].network + [ps[i].prefixLen]
  {
    var init := ps[..|ps| - 1];
    if i < |init| {
      PrefixesAt(init, i);
      assert PrefixBytes(ps)[5 * i..5 * i + 5] == PrefixBytes(init)[5 * i..5 * i + 5];
    }
  }

  /** The record has a file exactly under these conditions. */
  lemma EncodesExactly(codec: Codec, sha: Sha256, r: TransactionRecord)
    requires codec.Faithful()
    ensures Encoded(codec, sha, r).Ok? <==>
            && |r.failedPrefixes| <= 1024
            && (forall i :: 0 < i < |r.failedPrefixes| ==> PrefixRank(r.failedPrefixes[i - 1]) < PrefixRank(r.failedPrefixes[i]))
            && (forall i :: 0 <= i < |r.failedPrefixes| ==> CanonicalPrefix(r.failedPrefixes[i]))
            && |r.sysctls| <= 4
            && (forall i :: 0 < i < |r.sysctls| ==> KeyTag(r.sysctls[i - 1].key) < KeyTag(r.sysctls[i].key))
            && (forall i :: 0 <= i < |r.sysctls| ==>
                  r.sysctls[i].original <= 2 && r.sysctls[i].applied <= 2 && r.sysctls[i].original != r.sysctls[i].applied)
            && (r.recoveryCandidate.Some? ==> r.phase in [Preparing, Prepared, Draining, RollingBack])
            && (r.recoveryCandidateOwner.Some? ==>
                  && r.recoveryCandidate.Some?
                  && r.recoveryCandidateOwner.value.instanceId == r.owner.instanceId
                  && r.recoveryCandidateOwner.value.pid == r.owner.pid
                  && r.recoveryCandidateOwner.value.generation >= r.owner.generation)
            && codec.encode(NetdRequest(1, r.owner, Prepare(r.declaration))).Some?
            && (r.recoveryCandidate.Some? ==>
                  codec.encode(NetdRequest(1, if r.recoveryCandidateOwner.Some? then r.recoveryCandidateOwner.value else r.owner,
                                           Prepare(r.recoveryCandidate.value))).Some?)
  {
    hide PrefixRank, CanonicalPrefix, KeyTag;
  }

  /** The bytes in front of the checksum: magic with a version digit, header, an optional deadline, the active
      request, from version 2 on the candidate's request, and in version 4 the failed prefixes. */
  function Laid(digit: byte, r: TransactionRecord, deadline: seq<byte>, active: seq<byte>, candidate: seq<byte>): seq<byte>
    requires |r.sysctls| <= 4
  {
    [67, 78, 68, 74, 78, 76, 48, digit]
    + ([PhaseTag(r.phase)] + BigEndian(r.completedSteps, 2) + [|r.sysctls| as byte] + SysctlBytes(r.sysctls)
       + (deadline
          + ((BigEndian(|active|, 4) + active)
             + ((if digit == 49 then [] else BigEndian(|candidate|, 4) + candidate)
                + if digit == 52 then BigEndian(|r.failedPrefixes|, 2) + PrefixBytes(r.failedPrefixes) else []))))
  }

  /** Version 4 for failed prefixes, else 3 for a candidate, else 1; the deadline goes with the candidate. */
  lemma EncodedIsLaid(codec: Codec, sha: Sha256, r: TransactionRecord)
    requires Encoded(codec, sha, r).Ok?
    ensures |r.sysctls| <= 4
    ensures codec.encode(NetdRequest(1, r.owner, Prepare(r.declaration))).Some?
    ensures r.recoveryCandidate.Some? ==> codec.encode(CandidateRequest(r)).Some?
    ensures var content := Laid(if r.failedPrefixes != [] then 52 else if r.recoveryCandidate.Some? then 51 else 49, r,
                                if r.recoveryCandidate.Some? then BigEndian(r.drainDeadlineMonoMs, 8) else [],
                                codec.encode(NetdRequest(1, r.owner, Prepare(r.declaration))).value,
                                if r.recoveryCandidate.Some? then codec.encode(CandidateRequest(r)).value else []);
            Encoded(codec, sha, r).value == content + sha(content)
  {
    hide GoodChanges, GoodPrefixes, SysctlBytes, PrefixBytes, BigEndian, PhaseTag;
    EmptyIsZero();
  }

  lemma EmptyIsZero()
    ensures BigEndian(0, 4) + [] == BigEndian(0, 4)
  {
  }

  /** The request in a frame: a preparation by this owner, under any request id. */
  predicate Asks(codec: Codec, frame: seq<byte>, owner: LeaseOwner, d: PrepareDeclaration) {
    && 0 < |frame| <= 2 * 1024 * 1024 && codec.decode(frame).Some?
    && codec.decode(frame).value.owner == owner && codec.decode(frame).value.operation == Prepare(d)
  }

  /** A record as the decoder can return it, with the two frames it was read from; no candidate has an empty
      one. */
  predicate Read(codec: Codec, r: TransactionRecord, active: seq<byte>, candidate: seq<byte>) {
    && r.completedSteps < 64 && |r.sysctls| <= 4 && GoodChanges(r.sysctls)
    && Asks(codec, active, r.owner, r.declaration)
    && r.recoveryCandidateOwner != Some(r.owner)
    && if r.recoveryCandidate.None? then candidate == [] && r.recoveryCandidateOwner.None?
       else
         && r.phase in [Preparing, Prepared, Draining, RollingBack]
         && Asks(codec, candidate, if r.recoveryCandidateOwner.Some? then r.recoveryCandidateOwner.value else r.owner,
                 r.recoveryCandidate.value)
         && (r.recoveryCandidateOwner.Some? ==>
               && r.recoveryCandidateOwner.value.instanceId == r.owner.instanceId
               && r.recoveryCandidateOwner.value.pid == r.owner.pid
               && r.recoveryCandidateOwner.value.generation >= r.owner.generation)
  }

  /** What each version can say: 1 no candidate, 2 and 3 a candidate, 4 failed prefixes; only 3 a deadline. */
  predicate Says(digit: byte, r: TransactionRecord) {
    && 49 <= digit <= 52
    && (digit == 49 ==> r.recoveryCandidate.None?) && (digit == 50 || digit == 51 ==> r.recoveryCandidate.Some?)
    && (digit == 52 <==> r.failedPrefixes != []) && |r.failedPrefixes| <= 1024 && GoodPrefixes(r.failedPrefixes)
    && (digit != 51 ==> r.drainDeadlineMonoMs == 0)
  }

  /** `b` is a file of `r` in the given version. */
  predicate FileOf(codec: Codec, sha: Sha256, b: seq<byte>, r: TransactionRecord, digit: byte, active: seq<byte>,
                   candidate: seq<byte>)
  {
    && Read(codec, r, active, candidate) && Says(digit, r)
    && var content := Laid(digit, r, if digit == 51 then BigEndian(r.drainDeadlineMonoMs, 8) else [], active, candidate);
       b == content + sha(content)
  }

  // ---- every such file is read ----

  lemma TakesFrame(frame: seq<byte>, rest: seq<byte>)
    requires |frame| <= 2 * 1024 * 1024
    ensures TakeFrame((BigEndian(|frame|, 4) + frame) + rest) == Some(Cut(frame, rest))
  {
    hide TakeFrame, BigEndian;
    FrameRoundTrip(frame, rest);
    assert Prefixed(frame, 4) == BigEndian(|frame|, 4) + frame;
  }

  function VersionAt(digit: byte): Version
    requires 49 <= digit <= 52
  {
    if digit == 49 then V1 else if digit == 50 then V2 else if digit == 51 then V3 else V4
  }

  function CandidatePart(digit: byte, candidate: seq<byte>): seq<byte> {
    if digit == 49 then [] else BigEndian(|candidate|, 4) + candidate
  }

  function FailedPart(digit: byte, r: TransactionRecord): seq<byte> {
    if digit == 52 then BigEndian(|r.failedPrefixes|, 2) + PrefixBytes(r.failedPrefixes) else []
  }

  lemma RecoveryIsRead(codec: Codec, r: TransactionRecord, digit: byte, active: seq<byte>, candidate: seq<byte>)
    requires Read(codec, r, active, candidate) && Says(digit, r)
    ensures var x := ParseRecovery(codec, VersionAt(digit), r.phase, r.owner, CandidatePart(digit, candidate) + FailedPart(digit, r));
            && x.Some? && x.value.rest == FailedPart(digit, r)
            && (x.value.candidate.None? <==> r.recoveryCandidate.None?)
            && (r.recoveryCandidate.Some? ==>
                  && x.value.candidate.value.operation == Prepare(r.recoveryCandidate.value)
                  && x.value.candidate.value.owner
                     == if r.recoveryCandidateOwner.Some? then r.recoveryCandidateOwner.value else r.owner)
  {
    hide TakeFrame, BigEndian, PrefixBytes, GoodPrefixes, GoodChanges;
    if digit != 49 {
      TakesFrame(candidate, FailedPart(digit, r));
    } else {
      assert CandidatePart(digit, candidate) + FailedPart(digit, r) == [];
    }
  }

  lemma PayloadIsRead(codec: Codec, r: TransactionRecord, digit: byte, active: seq<byte>, candidate: seq<byte>)
    requires Read(codec, r, active, candidate) && Says(digit, r)
    ensures ParsePayload(codec, VersionAt(digit), r.phase, r.completedSteps, r.sysctls, r.drainDeadlineMonoMs,
                         (BigEndian(|active|, 4) + active) + (CandidatePart(digit, candidate) + FailedPart(digit, r)))
            == Some(r)
  {
    hide TakeFrame, BigEndian, PrefixBytes, GoodPrefixes, GoodChanges, ParseRecovery, CandidatePart, ParseFailed;
    TakesFrame(active, CandidatePart(digit, candidate) + FailedPart(digit, r));
    RecoveryIsRead(codec, r, digit, active, candidate);
    if digit == 52 {
      FailedRoundTrip(r.failedPrefixes);
    }
  }

  lemma FileIsRead(codec: Codec, sha: Sha256, b: seq<byte>, r: TransactionRecord, digit: byte, active: seq<byte>,
                   candidate: seq<byte>)
    requires FileOf(codec, sha, b, r, digit, active, candidate)
    ensures Decoded(codec, sha, b) == Ok(r)
  {
    hide BigEndian, PrefixBytes, GoodPrefixes, GoodChanges, ParsePayload, ParseContent, SysctlBytes, PhaseTag, Asks;
    Widths();
    var deadline := if digit == 51 then BigEndian(r.drainDeadlineMonoMs, 8) else [];
    var rest := (BigEndian(|active|, 4) + active) + (CandidatePart(digit, candidate) + FailedPart(digit, r));
    var content := Laid(digit, r, deadline, active, candidate);
    var v := VersionAt(digit);
    assert content == Magic(v) + (Header(r) + (deadline + rest));
    SplitAt(content, sha(content));
    SplitAt(Magic(v), Header(r) + (deadline + rest));
    assert b[..8] == content[..8] == Magic(v);
    HeaderLength(r);
    ContentReads(codec, r, v, deadline + rest);
    SplitAt(deadline, rest);
    if digit == 51 {
      BigEndianRoundTrip(r.drainDeadlineMonoMs, 8);
    }
    PayloadIsRead(codec, r, digit, active, candidate);
  }

  lemma HeaderLength(r: TransactionRecord)
    requires |r.sysctls| <= 4
    ensures |Header(r)| >= 4
  {
  }

  // ---- nothing else is ----

  lemma {:induction false} SysctlsBack(b: seq<byte>)
    requires |b| % 3 == 0 && ParseSysctls(b).Some?
    ensures SysctlBytes(ParseSysctls(b).value) == b
  {
    hide ValidChange, KeyFollows, ParseChange, ChangeBytes;
    if b != [] {
      var init, last := b[..|b| - 3], b[|b| - 3..];
      SysctlsBack(init);
      var cs := ParseSysctls(b).value;
      assert cs == ParseSysctls(init).value + [ParseChange(last).value];
      assert cs[..|cs| - 1] == ParseSysctls(init).value;
      assert b == init + last;
    }
  }

  lemma {:induction false} PrefixesBack(b: seq<byte>)
    requires |b| % 5 == 0 && ParsePrefixes(b).Some?
    ensures PrefixBytes(ParsePrefixes(b).value) == b
  {
    hide CanonicalPrefix, PrefixFollows, ParsePrefix, OnePrefix;
    if b != [] {
      var init, last := b[..|b| - 5], b[|b| - 5..];
      PrefixesBack(init);
      var ps := ParsePrefixes(b).value;
      assert ps == ParsePrefixes(init).value + [ParsePrefix(last)];
      assert ps[..|ps| - 1] == ParsePrefixes(init).value;
      assert b == init + last;
    }
  }

  lemma FrameBack(b: seq<byte>)
    requires TakeFrame(b).Some?
    ensures var Cut(frame, rest) := TakeFrame(b).value; b == (BigEndian(|frame|, 4) + frame) + rest
  {
    var Cut(frame, rest) := TakeFrame(b).value;
    FromBigEndianRoundTrip(b[..4]);
    assert b[..4] == BigEndian(|frame|, 4);
    assert b == (b[..4] + frame) + rest;
  }

  lemma FailedBack(b: seq<byte>)
    requires ParseFailed(b).Some?
    ensures var ps := ParseFailed(b).value;
            ps != [] && |ps| <= 1024 && GoodPrefixes(ps) && b == BigEndian(|ps|, 2) + PrefixBytes(ps)
  {
    hide GoodPrefixes, ParsePrefixes;
    ParsedPrefixesValid(b[2..]);
    PrefixesBack(b[2..]);
    FromBigEndianRoundTrip(b[..2]);
    assert b == b[..2] + b[2..];
  }

  /** The digit a version is written with. */
  function DigitOf(v: Version): byte {
    match v case V1 => 49 case V2 => 50 case V3 => 51 case V4 => 52
  }

  lemma RecoveryBack(codec: Codec, v: Version, phase: TransactionPhase, owner: LeaseOwner, b: seq<byte>)
    returns (candidate: seq<byte>)
    requires ParseRecovery(codec, v, phase, owner, b).Some?
    ensures var x := ParseRecovery(codec, v, phase, owner, b).value;
            && b == CandidatePart(DigitOf(v), candidate) + x.rest
            && (v.V1? ==> x.candidate.None?) && (v.V2? || v.V3? ==> x.candidate.Some?)
            && (x.candidate.None? ==> candidate == [])
            && (x.candidate.Some? ==>
                  && phase in [Preparing, Prepared, Draining, RollingBack]
                  && x.candidate.value.operation.Prepare?
                  && Asks(codec, candidate, x.candidate.value.owner, x.candidate.value.operation.declaration)
                  && x.candidate.value.owner.instanceId == owner.instanceId && x.candidate.value.owner.pid == owner.pid
                  && x.candidate.value.owner.generation >= owner.generation)
  {
    hide TakeFrame, BigEndian;
    if v.V1? {
      candidate := [];
      assert b == [] + [];
    } else {
      FrameBack(b);
      candidate := TakeFrame(b).value.head;
    }
  }

  lemma PayloadBack(codec: Codec, v: Version, phase: TransactionPhase, steps: u16, cs: seq<SysctlChange>, deadline: u64,
                    b: seq<byte>) returns (active: seq<byte>, candidate: seq<byte>)
    requires ParsePayload(codec, v, phase, steps, cs, deadline, b).Some?
    requires steps < 64 && |cs| <= 4 && GoodChanges(cs) && (!v.V3? ==> deadline == 0)
    ensures var r := ParsePayload(codec, v, phase, steps, cs, deadline, b).value; var digit := DigitOf(v);
            && Read(codec, r, active, candidate) && Says(digit, r)
            && r.phase == phase && r.completedSteps == steps && r.sysctls == cs && r.drainDeadlineMonoMs == deadline
            && b == (BigEndian(|active|, 4) + active) + (CandidatePart(digit, candidate) + FailedPart(digit, r))
  {
    hide TakeFrame, BigEndian, GoodChanges, GoodPrefixes, PrefixBytes, ParseFailed, ParseRecovery, CandidatePart;
    FrameBack(b);
    var Cut(frame, rest) := TakeFrame(b).value;
    active := frame;
    candidate := RecoveryBack(codec, v, phase, codec.decode(frame).value.owner, rest);
    var x := ParseRecovery(codec, v, phase, codec.decode(frame).value.owner, rest).value;
    NoChanges();
    if v.V4? {
      FailedBack(x.rest);
    }
  }

  lemma FileBack(codec: Codec, sha: Sha256, b: seq<byte>) returns (digit: byte, active: seq<byte>, candidate: seq<byte>)
    requires Decoded(codec, sha, b).Ok?
    ensures FileOf(codec, sha, b, Decoded(codec, sha, b).value, digit, active, candidate)
  {
    hide BigEndian, PrefixBytes, GoodPrefixes, GoodChanges, ParsePayload, ParseSysctls, SysctlBytes, PhaseTag, PhaseOf, Read, Says,
         CandidatePart, FailedPart;
    Widths();
    var content := b[..|b| - CHECKSUM_LEN];
    var v := VersionOf(b[..8]).value;
    digit := DigitOf(v);
    var c := content[8..];
    var n := c[3] as int;
    var rest := c[4 + 3 * n..];
    ParsedSysctlsValid(c[4..4 + 3 * n]);
    SysctlsBack(c[4..4 + 3 * n]);
    var cs := ParseSysctls(c[4..4 + 3 * n]).value;
    active, candidate := PayloadBack(codec, v, PhaseOf(c[0]).value, FromBigEndian(c[1..3]), cs, Deadline(v, rest),
                                     rest[DeadlineLen(v)..]);
    var r := Decoded(codec, sha, b).value;
    FromBigEndianRoundTrip(c[1..3]);
    var deadline := if digit == 51 then BigEndian(r.drainDeadlineMonoMs, 8) else [];
    DeadlineBack(v, rest);
    HeaderParts(c, n);
    ContentParts(b);
    LaidParts(digit, r, deadline, active, candidate);
  }

  lemma HeaderParts(c: seq<byte>, n: nat)
    requires |c| >= 4 + 3 * n
    ensures c == [c[0]] + c[1..3] + [c[3]] + c[4..4 + 3 * n] + c[4 + 3 * n..]
  {
  }

  lemma ContentParts(b: seq<byte>)
    requires |b| >= 8 + CHECKSUM_LEN
    ensures var content := b[..|b| - CHECKSUM_LEN]; content == b[..8] + content[8..] && b == content + b[|b| - CHECKSUM_LEN..]
  {
  }

  lemma DeadlineBack(v: Version, rest: seq<byte>)
    requires |rest| >= DeadlineLen(v)
    ensures rest == (if v.V3? then BigEndian(Deadline(v, rest), 8) else []) + rest[DeadlineLen(v)..]
  {
    hide BigEndian;
    if v.V3? {
      FromBigEndianRoundTrip(rest[..8]);
      assert rest == rest[..8] + rest[8..];
    }
  }

  lemma LaidParts(digit: byte, r: TransactionRecord, deadline: seq<byte>, active: seq<byte>, candidate: seq<byte>)
    requires |r.sysctls| <= 4
    ensures Laid(digit, r, deadline, active, candidate)
         == [67, 78, 68, 74, 78, 76, 48, digit]
            + ([PhaseTag(r.phase)] + BigEndian(r.completedSteps, 2) + [|r.sysctls| as byte] + SysctlBytes(r.sysctls)
               + (deadline + ((BigEndian(|active|, 4) + active) + (CandidatePart(digit, candidate) + FailedPart(digit, r)))))
  {
  }

  /** The decoder answers a record for a byte string if and only if the string is a file of that record in one
      of the four versions. */
  lemma DecodesExactly(codec: Codec, sha: Sha256, b: seq<byte>, r: TransactionRecord)
    ensures Decoded(codec, sha, b) == Ok(r) <==> exists digit, active, candidate :: FileOf(codec, sha, b, r, digit, active, candidate)
  {
    hide Decoded, FileOf;
    if digit, active, candidate :| FileOf(codec, sha, b, r, digit, active, candidate) {
      FileIsRead(codec, sha, b, r, digit, active, candidate);
    }
    if Decoded(codec, sha, b) == Ok(r) {
      var digit, active, candidate := FileBack(codec, sha, b);
    }
  }

  // ---- through the journal ----

  lemma {:induction false} PrefixBytesLength(ps: seq<Ipv4Prefix>)
    ensures |PrefixBytes(ps)| == 5 * |ps|
  {
  }

  /** Every file fits the bound on loading. */
  lemma FileFits(codec: Codec, sha: Sha256, b: seq<byte>, r: TransactionRecord, digit: byte, active: seq<byte>,
                 candidate: seq<byte>)
    requires FileOf(codec, sha, b, r, digit, active, candidate)
    ensures HEADER_LEN + CHECKSUM_LEN <= |b| <= MAX_JOURNAL_LEN
  {
    hide BigEndian, PrefixBytes, GoodPrefixes, GoodChanges, SysctlBytes, PhaseTag;
    PrefixBytesLength(r.failedPrefixes);
  }

  /** A start of netd finds this record in its journal if and only if the journal is a file of it. */
  lemma LoadsExactly(codec: Codec, sha: Sha256, file: seq<byte>, r: TransactionRecord)
    ensures Journal.Loaded(codec, sha, Some(file), true) == Ok(Some(r)) <==>
            exists digit, active, candidate :: FileOf(codec, sha, file, r, digit, active, candidate)
  {
    hide Decoded, FileOf;
    DecodesExactly(codec, sha, file, r);
    if digit, active, candidate :| FileOf(codec, sha, file, r, digit, active, candidate) {
      FileFits(codec, sha, file, r, digit, active, candidate);
    }
  }

  /** A record with a candidate, of any phase that may have one, that the requests can carry. */
  predicate Replacing(codec: Codec, r: TransactionRecord) {
    && r.recoveryCandidate.Some? && r.phase in [Preparing, Prepared, Draining, RollingBack]
    && CanonicalDeclaration(r.declaration) && CanonicalDeclaration(r.recoveryCandidate.value)
    && r.completedSteps < 64 && |r.sysctls| <= 4 && GoodChanges(r.sysctls) && r.failedPrefixes == []
    && CandidateOwner(r).instanceId == r.owner.instanceId && CandidateOwner(r).pid == r.owner.pid
    && CandidateOwner(r).generation >= r.owner.generation
    && codec.encode(NetdRequest(1, r.owner, Prepare(r.declaration))).Some?
    && codec.encode(NetdRequest(1, CandidateOwner(r), Prepare(r.recoveryCandidate.value))).Some?
  }

  /** It is stored and loaded back, with its deadline; a draining session among them. */
  lemma ReplacementIsKept(codec: Codec, sha: Sha256, r: TransactionRecord)
    requires codec.Faithful() && Replacing(codec, r)
    ensures Encoded(codec, sha, r).Ok?
    ensures Journal.Loaded(codec, sha, Some(Encoded(codec, sha, r).value), true) == Ok(Some(Normalized(r)))
  {
    hide CanonicalDeclaration, GoodChanges, Encoded, Journal.Loaded;
    EncodesExactly(codec, sha, r);
    GoodMeans(r.sysctls);
    Journal.LoadAfterStore(codec, sha, r);
  }

  lemma GoodMeans(cs: seq<SysctlChange>)
    requires GoodChanges(cs)
    ensures forall i :: 0 < i < |cs| ==> KeyTag(cs[i - 1].key) < KeyTag(cs[i].key)
    ensures forall i :: 0 <= i < |cs| ==> cs[i].original <= 2 && cs[i].applied <= 2 && cs[i].original != cs[i].applied
  {
    hide KeyTag;
  }

  /** Its file in version 2, which nothing writes any more, is still read, without a deadline. */
  lemma SecondVersionIsRead(codec: Codec, sha: Sha256, r: TransactionRecord)
    requires codec.Faithful() && Replacing(codec, r)
    ensures var active := codec.encode(NetdRequest(1, r.owner, Prepare(r.declaration))).value;
            var candidate := codec.encode(NetdRequest(1, CandidateOwner(r), Prepare(r.recoveryCandidate.value))).value;
            var content := [67, 78, 68, 74, 78, 76, 48, 50]
                           + ([PhaseTag(r.phase)] + BigEndian(r.completedSteps, 2) + [|r.sysctls| as byte] + SysctlBytes(r.sysctls)
                              + ((BigEndian(|active|, 4) + active) + (BigEndian(|candidate|, 4) + candidate)));
            Journal.Loaded(codec, sha, Some(content + sha(content)), true)
            == Ok(Some(Normalized(r).(drainDeadlineMonoMs := 0)))
  {
    hide CanonicalDeclaration, GoodChanges, Journal.Loaded, BigEndian, SysctlBytes, PhaseTag;
    var q := Normalized(r).(drainDeadlineMonoMs := 0);
    var active := codec.encode(NetdRequest(1, r.owner, Prepare(r.declaration))).value;
    var candidate := codec.encode(NetdRequest(1, CandidateOwner(r), Prepare(r.recoveryCandidate.value))).value;
    NoChanges();
    assert CandidateOwner(q) == CandidateOwner(r);
    FrameAsks(codec, r.owner, r.declaration);
    FrameAsks(codec, CandidateOwner(r), r.recoveryCandidate.value);
    assert Read(codec, q, active, candidate) && Says(50, q);
    var content := Laid(50, q, [], active, candidate);
    var frames := (BigEndian(|active|, 4) + active) + (BigEndian(|candidate|, 4) + candidate);
    assert (BigEndian(|active|, 4) + active) + ((BigEndian(|candidate|, 4) + candidate) + []) == frames;
    assert [] + frames == frames;
    assert FileOf(codec, sha, content + sha(content), q, 50, active, candidate);
    LoadsExactly(codec, sha, content + sha(content), q);
  }

  lemma FrameAsks(codec: Codec, owner: LeaseOwner, d: PrepareDeclaration)
    requires codec.Faithful() && codec.encode(NetdRequest(1, owner, Prepare(d))).Some? && CanonicalDeclaration(d)
    ensures Asks(codec, codec.encode(NetdRequest(1, owner, Prepare(d))).value, owner, d)
  {
    hide CanonicalDeclaration;
    var q := NetdRequest(1, owner, Prepare(d));
    assert codec.decode(codec.encode(q).value) == Some(q);
  }
}
