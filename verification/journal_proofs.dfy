/** The journal codec as a pair: which records survive a store and a load, and which do not. */
module JournalProofs {
  import opened Bytes
  import opened JournalFormat
  import opened Netd
  import opened Wrappers

  /** An explicit candidate owner equal to the active owner is read back as absent. */
  function Normalized(r: TransactionRecord): TransactionRecord {
    if r.recoveryCandidateOwner == Some(r.owner) then r.(recoveryCandidateOwner := None) else r
  }

  /** No prefix of a declaration carries host bits. */
  predicate CanonicalRecord(r: TransactionRecord) {
    CanonicalDeclaration(r.declaration)
    && (r.recoveryCandidate.Some? ==> CanonicalDeclaration(r.recoveryCandidate.value))
  }

  /** The records the format can represent. */
  predicate Representable(r: TransactionRecord) {
    && CanonicalRecord(r)
    && r.completedSteps < 64
    && (r.recoveryCandidate.None? ==> r.drainDeadlineMonoMs == 0)
    && !(r.recoveryCandidate.Some? && r.failedPrefixes != [])
  }

  lemma ChangeRoundTrip(c: SysctlChange)
    ensures ParseChange(ChangeBytes(c)) == Some(c)
  {
  }

  lemma OneMoreChange(init: seq<SysctlChange>, c: SysctlChange)
    ensures GoodChanges(init + [c]) <==> GoodChanges(init) && ValidChange(c) && KeyFollows(init, c)
  {
    hide ValidChange, KeyTag;
    var cs := init + [c];
    assert forall i :: 0 <= i < |init| ==> cs[i] == init[i];
    if GoodChanges(cs) {
      forall i | 0 < i < |init| ensures KeyTag(init[i - 1].key) < KeyTag(init[i].key) {
        assert KeyTag(cs[i - 1].key) < KeyTag(cs[i].key);
      }
      forall i | 0 <= i < |init| ensures ValidChange(init[i]) {
        assert ValidChange(cs[i]);
      }
      assert ValidChange(cs[|init|]);
    }
  }

  lemma {:induction false} SysctlsRoundTrip(cs: seq<SysctlChange>)
    requires GoodChanges(cs)
    ensures ParseSysctls(SysctlBytes(cs)) == Some(cs)
  {
    hide GoodChanges, ValidChange, KeyFollows, ParseChange, ChangeBytes;
    if cs != [] {
      var init, c := cs[..|cs| - 1], cs[|cs| - 1];
      var b := SysctlBytes(cs);
      InitAndLast(cs);
      OneMoreChange(init, c);
      SysctlsRoundTrip(init);
      SplitAt(SysctlBytes(init), ChangeBytes(c));
      ChangeRoundTrip(c);
      assert |b| - 3 == |SysctlBytes(init)|;
    }
  }

  lemma {:induction false} ParsedSysctlsValid(b: seq<byte>)
    requires |b| % 3 == 0 && ParseSysctls(b).Some?
    ensures GoodChanges(ParseSysctls(b).value)
  {
    hide ValidChange, KeyFollows, ParseChange, GoodChanges;
    if b == [] {
      NoChanges();
    } else {
      var init := b[..|b| - 3];
      ParsedSysctlsValid(init);
      OneMoreChange(ParseSysctls(init).value, ParseChange(b[|b| - 3..]).value);
    }
  }

  lemma NoChanges()
    ensures GoodChanges([]) && GoodPrefixes([])
  {
  }

  lemma OneMorePrefix(init: seq<Ipv4Prefix>, p: Ipv4Prefix)
    ensures GoodPrefixes(init + [p]) <==> GoodPrefixes(init) && CanonicalPrefix(p) && PrefixFollows(init, p)
  {
    hide CanonicalPrefix, PrefixRank;
    var ps := init + [p];
    assert forall i :: 0 <= i < |init| ==> ps[i] == init[i];
    if GoodPrefixes(ps) {
      forall i | 0 < i < |init| ensures PrefixRank(init[i - 1]) < PrefixRank(init[i]) {
        assert PrefixRank(ps[i - 1]) < PrefixRank(ps[i]);
      }
      forall i | 0 <= i < |init| ensures CanonicalPrefix(init[i]) {
        assert CanonicalPrefix(ps[i]);
      }
      assert CanonicalPrefix(ps[|init|]);
    }
  }

  lemma {:induction false} PrefixesRoundTrip(ps: seq<Ipv4Prefix>)
    requires GoodPrefixes(ps)
    ensures ParsePrefixes(PrefixBytes(ps)) == Some(ps)
  {
    hide GoodPrefixes, CanonicalPrefix, PrefixFollows, ParsePrefix;
    if ps != [] {
      var init, p := ps[..|ps| - 1], ps[|ps| - 1];
      var b := PrefixBytes(ps);
      InitAndLast(ps);
      OneMorePrefix(init, p);
      PrefixesRoundTrip(init);
      SplitAt(PrefixBytes(init), OnePrefix(p));
      ParsePrefixInverse(p);
      assert |b| - 5 == |PrefixBytes(init)|;
    }
  }

  lemma ParsePrefixInverse(p: Ipv4Prefix)
    ensures ParsePrefix(OnePrefix(p)) == p
  {
  }

  lemma {:induction false} ParsedPrefixesValid(b: seq<byte>)
    requires |b| % 5 == 0 && ParsePrefixes(b).Some?
    ensures GoodPrefixes(ParsePrefixes(b).value)
  {
    hide CanonicalPrefix, PrefixFollows, ParsePrefix, GoodPrefixes;
    if b == [] {
      NoChanges();
    } else {
      var init := b[..|b| - 5];
      ParsedPrefixesValid(init);
      OneMorePrefix(ParsePrefixes(init).value, ParsePrefix(b[|b| - 5..]));
    }
  }

  lemma FrameRoundTrip(frame: seq<byte>, rest: seq<byte>)
    requires |frame| < 0x1_0000_0000
    ensures TakeFrame(Prefixed(frame, 4) + rest) == Some(Cut(frame, rest))
  {
    Widths();
    var len := BigEndian(|frame|, 4);
    var b := Prefixed(frame, 4) + rest;
    assert b == len + (frame + rest);
    SplitAt(len, frame + rest);
    BigEndianRoundTrip(|frame|, 4);
    assert b[4..] == frame + rest;
    assert b[4..4 + |frame|] == (frame + rest)[..|frame|];
    assert b[4 + |frame|..] == (frame + rest)[|frame|..];
  }

  lemma ZeroFrame(rest: seq<byte>)
    ensures TakeFrame(BigEndian(0, 4) + rest) == Some(Cut([], rest))
  {
    assert BigEndian(0, 4) == Prefixed([], 4);
    FrameRoundTrip([], rest);
  }

  lemma FailedRoundTrip(ps: seq<Ipv4Prefix>)
    requires ps != [] && ValidPrefixes(ps)
    ensures ParseFailed(BigEndian(|ps|, 2) + PrefixBytes(ps)) == Some(ps)
  {
    hide GoodPrefixes, ParsePrefixes;
    Widths();
    SplitAt(BigEndian(|ps|, 2), PrefixBytes(ps));
    BigEndianRoundTrip(|ps|, 2);
    PrefixesRoundTrip(ps);
  }

  lemma RecoveryRoundTrip(codec: Codec, r: TransactionRecord)
    requires codec.Faithful() && Encodable(codec, r)
    ensures ParseRecovery(codec, EncodedVersion(r), r.phase, r.owner, RecoveryField(codec, r) + FailedField(r))
            == if r.recoveryCandidate.None? then Some(Recovery(None, FailedField(r)))
               else if CanonicalDeclaration(r.recoveryCandidate.value)
               then Some(Recovery(Some(CandidateRequest(r)), FailedField(r)))
               else None
  {
    hide TakeFrame, ValidPrefixes, ValidSysctls, PrefixBytes, CanonicalDeclaration;
    if r.recoveryCandidate.Some? {
      FrameRoundTrip(codec.encode(CandidateRequest(r)).value, FailedField(r));
    } else if r.failedPrefixes != [] {
      ZeroFrame(FailedField(r));
    }
  }

  lemma PayloadRoundTrip(codec: Codec, r: TransactionRecord, deadline: u64)
    requires codec.Faithful() && Encodable(codec, r)
    ensures ParsePayload(codec, EncodedVersion(r), r.phase, r.completedSteps, r.sysctls, deadline,
                         Prefixed(codec.encode(ActiveRequest(r)).value, 4) + (RecoveryField(codec, r) + FailedField(r)))
            == if CanonicalRecord(r) then Some(Normalized(r).(drainDeadlineMonoMs := deadline)) else None
  {
    hide CanonicalDeclaration, ParseRecovery, RecoveryField, TakeFrame, ParseFailed, ValidPrefixes, ValidSysctls;
    FrameRoundTrip(codec.encode(ActiveRequest(r)).value, RecoveryField(codec, r) + FailedField(r));
    RecoveryRoundTrip(codec, r);
    if r.failedPrefixes != [] {
      FailedRoundTrip(r.failedPrefixes);
    }
  }

  /** Where each part of an encoded record lies. */
  lemma HeaderLayout(r: TransactionRecord, payload: seq<byte>)
    requires ValidSysctls(r.sysctls)
    ensures var b := Header(r) + payload; var n := |r.sysctls|;
            && |Header(r)| == 4 + 3 * n && b[0] == PhaseTag(r.phase) && b[3] as int == n
            && b[1..3] == BigEndian(r.completedSteps, 2) && b[4..4 + 3 * n] == SysctlBytes(r.sysctls)
            && b[4 + 3 * n..] == payload
  {
    var b := Header(r) + payload;
    var steps := BigEndian(r.completedSteps, 2);
    assert b[1..3] == steps;
    assert b[4..4 + 3 * |r.sysctls|] == SysctlBytes(r.sysctls);
    SplitAt(Header(r), payload);
  }

  /** Reading what was written comes down to the payload. */
  lemma ContentReads(codec: Codec, r: TransactionRecord, v: Version, payload: seq<byte>)
    requires ValidSysctls(r.sysctls) && |payload| >= DeadlineLen(v) + 4
    ensures ParseContent(codec, v, Header(r) + payload)
            == if r.completedSteps >= 64 then None
               else ParsePayload(codec, v, r.phase, r.completedSteps, r.sysctls, Deadline(v, payload),
                                 payload[DeadlineLen(v)..])
  {
    hide ParsePayload, Header, SysctlBytes, ParseSysctls, GoodChanges, PhaseTag, PhaseOf, Deadline;
    Widths();
    HeaderLayout(r, payload);
    PhaseRoundTrip(r.phase);
    BigEndianRoundTrip(r.completedSteps, 2);
    SysctlsRoundTrip(r.sysctls);
  }

  lemma PhaseRoundTrip(p: TransactionPhase)
    ensures PhaseOf(PhaseTag(p)) == Some(p)
  {
  }

  lemma ChecksumSplits(codec: Codec, sha: Sha256, r: TransactionRecord)
    requires Encodable(codec, r)
    ensures var b := Encoded(codec, sha, r).value;
            && |b| >= HEADER_LEN + CHECKSUM_LEN
            && b[..8] == Magic(EncodedVersion(r))
            && b[..|b| - CHECKSUM_LEN] == Content(codec, r)
            && b[|b| - CHECKSUM_LEN..] == sha(Content(codec, r))
            && Content(codec, r)[8..] == Header(r) + Payload(codec, r)
  {
    var content := Content(codec, r);
    SplitAt(content, sha(content));
    SplitAt(Magic(EncodedVersion(r)), Header(r) + Payload(codec, r));
    HeaderLayout(r, Payload(codec, r));
    var b := content + sha(content);
    assert b[..8] == content[..8];
  }

  lemma DecodeEncoded(codec: Codec, sha: Sha256, r: TransactionRecord)
    requires Encodable(codec, r)
    ensures Decoded(codec, sha, Encoded(codec, sha, r).value)
            == match ParseContent(codec, EncodedVersion(r), Header(r) + Payload(codec, r))
               case Some(x) => Ok(x)
               case None => Err(Journal)
  {
    hide ParseContent, Content, Encodable;
    ChecksumSplits(codec, sha, r);
  }

  /** Read as a frame length, an eight-byte integer gives its high half. */
  lemma HighHalfAsLength(deadline: u64, tail: seq<byte>)
    ensures FromBigEndian((BigEndian(deadline, 8) + tail)[..4]) == deadline / 0x1_0000_0000
  {
    Widths();
    BigEndianPrefix(deadline, 8, 4);
    assert (BigEndian(deadline, 8) + tail)[..4] == BigEndian(deadline, 8)[..4];
    BigEndianRoundTrip(deadline / 0x1_0000_0000, 4);
  }

  /** A frame of this length asks for a preparation. */
  ghost predicate PreparesIn(codec: Codec, length: nat) {
    exists frame :: |frame| == length && codec.decode(frame).Some? && codec.decode(frame).value.operation.Prepare?
  }

  lemma PayloadFrameBound(codec: Codec, phase: TransactionPhase, steps: u16, cs: seq<SysctlChange>, b: seq<byte>)
    requires |b| >= 4
    ensures var x := ParsePayload(codec, V4, phase, steps, cs, 0, b); var length := FromBigEndian(b[..4]);
            x.Some? ==> x.value.drainDeadlineMonoMs == 0 && 0 < length <= MAX_NETD_FRAME_LEN && PreparesIn(codec, length)
  {
    hide ParseRecovery, ParseFailed;
    if ParsePayload(codec, V4, phase, steps, cs, 0, b).Some? {
      var frame := TakeFrame(b).value.head;
      assert |frame| == FromBigEndian(b[..4]) && codec.decode(frame).value.operation.Prepare?;
    }
  }

  /** A version 4 file with a candidate is read from the deadline on as if it were the request. */
  lemma ShiftedPayload(codec: Codec, r: TransactionRecord)
    requires Encodable(codec, r) && r.recoveryCandidate.Some? && r.failedPrefixes != []
    ensures var x := ParseContent(codec, V4, Header(r) + Payload(codec, r)); var length := r.drainDeadlineMonoMs / 0x1_0000_0000;
            x.Some? ==> x.value.drainDeadlineMonoMs == 0 && 0 < length <= MAX_NETD_FRAME_LEN && PreparesIn(codec, length)
  {
    hide ParsePayload, ParseContent, PreparesIn;
    var payload := Payload(codec, r);
    ContentReads(codec, r, V4, payload);
    assert payload[0..] == payload;
    HighHalfAsLength(r.drainDeadlineMonoMs, payload[8..]);
    assert payload == BigEndian(r.drainDeadlineMonoMs, 8) + payload[8..];
    PayloadFrameBound(codec, r.phase, r.completedSteps, r.sysctls, payload);
  }

  /** The round trip, and exactly when it holds: for every record the encoder accepts, the file
      decodes to the record (its redundant owner dropped) if and only if the record is representable. */
  lemma RoundTrip(codec: Codec, sha: Sha256, r: TransactionRecord)
    requires codec.Faithful() && Encoded(codec, sha, r).Ok?
    ensures Decoded(codec, sha, Encoded(codec, sha, r).value) == Ok(Normalized(r)) <==> Representable(r)
  {
    hide CanonicalDeclaration, ParseContent, ParsePayload, Decoded, GoodPrefixes, GoodChanges;
    Widths();
    DecodeEncoded(codec, sha, r);
    var payload := Payload(codec, r);
    if r.recoveryCandidate.Some? && r.failedPrefixes != [] {
      ShiftedPayload(codec, r);
    } else {
      var v := EncodedVersion(r);
      ContentReads(codec, r, v, payload);
      SplitAt(DeadlineField(r), payload[DeadlineLen(v)..]);
      assert payload[DeadlineLen(v)..]
          == Prefixed(codec.encode(ActiveRequest(r)).value, 4) + (RecoveryField(codec, r) + FailedField(r));
      if r.recoveryCandidate.Some? {
        assert payload[..8] == BigEndian(r.drainDeadlineMonoMs, 8);
        BigEndianRoundTrip(r.drainDeadlineMonoMs, 8);
      }
      PayloadRoundTrip(codec, r, Deadline(v, payload));
    }
  }

  /** With failed prefixes and a candidate the stored file is lost: no deadline the format was meant
      for can be read back, and it is refused outright unless the deadline's high half is the length of
      a frame that asks for a preparation. */
  lemma StoredButNotLoadable(codec: Codec, sha: Sha256, r: TransactionRecord)
    requires Encoded(codec, sha, r).Ok?
    requires r.recoveryCandidate.Some? && r.failedPrefixes != []
    requires var length := r.drainDeadlineMonoMs / 0x1_0000_0000;
             length == 0 || length > MAX_NETD_FRAME_LEN || !PreparesIn(codec, length)
    ensures Decoded(codec, sha, Encoded(codec, sha, r).value) == Err(Journal)
  {
    hide PreparesIn;
    DecodeEncoded(codec, sha, r);
    ShiftedPayload(codec, r);
  }

  lemma ParsedRecovery(codec: Codec, v: Version, phase: TransactionPhase, owner: LeaseOwner, b: seq<byte>)
    requires codec.Faithful() && ParseRecovery(codec, v, phase, owner, b).Some?
    ensures var c := ParseRecovery(codec, v, phase, owner, b).value.candidate;
            (v.V3? ==> c.Some?) &&
            (c.Some? ==>
               && CandidatePhase(phase) && Succeeds(c.value.owner, owner) && c.value.operation.Prepare?
               && CanonicalDeclaration(c.value.operation.declaration)
               && codec.encode(c.value.(requestId := 1)).Some? && !v.V1?)
  {
    hide CanonicalDeclaration;
    if !v.V1? {
      var frame := TakeFrame(b).value.head;
      assert frame != [] ==> codec.encode(codec.decode(frame).value.(requestId := 1)).Some?;
    }
  }

  lemma ParsedFailed(b: seq<byte>)
    requires ParseFailed(b).Some?
    ensures ParseFailed(b).value != [] && ValidPrefixes(ParseFailed(b).value)
  {
    hide GoodPrefixes;
    ParsedPrefixesValid(b[2..]);
  }

  lemma ParsedPayload(codec: Codec, v: Version, phase: TransactionPhase, steps: u16,
                      cs: seq<SysctlChange>, deadline: u64, b: seq<byte>)
    requires codec.Faithful() && ValidSysctls(cs)
    requires ParsePayload(codec, v, phase, steps, cs, deadline, b).Some?
    ensures var r := ParsePayload(codec, v, phase, steps, cs, deadline, b).value;
            && Encodable(codec, r) && Normalized(r) == r && r.completedSteps == steps && CanonicalRecord(r)
            && r.drainDeadlineMonoMs == deadline && (r.failedPrefixes != [] <==> v.V4?)
            && (v.V3? ==> r.recoveryCandidate.Some?)
  {
    hide ParseFailed, ParseRecovery, ValidPrefixes, CanonicalDeclaration;
    var Cut(frame, rest) := TakeFrame(b).value;
    var q := codec.decode(frame).value;
    assert codec.encode(q.(requestId := 1)).Some?;
    ParsedRecovery(codec, v, phase, q.owner, rest);
    var recovery := ParseRecovery(codec, v, phase, q.owner, rest).value;
    if v.V4? {
      ParsedFailed(recovery.rest);
    }
    var r := ParsePayload(codec, v, phase, steps, cs, deadline, b).value;
    assert q.(requestId := 1) == ActiveRequest(r);
    if recovery.candidate.Some? {
      assert recovery.candidate.value.(requestId := 1) == CandidateRequest(r);
    }
    EmptyPrefixesValid();
  }

  lemma EmptyPrefixesValid()
    ensures ValidPrefixes([])
  {
  }

  /** Whatever the decoder accepts, from any version, the encoder accepts too, with nothing to drop. */
  lemma AcceptedIsEncodable(codec: Codec, sha: Sha256, b: seq<byte>)
    requires codec.Faithful() && Decoded(codec, sha, b).Ok?
    ensures var r := Decoded(codec, sha, b).value;
            && Encodable(codec, r) && Normalized(r) == r && r.completedSteps < 64 && CanonicalRecord(r)
            && (r.recoveryCandidate.None? ==> r.drainDeadlineMonoMs == 0)
            && (r.failedPrefixes != [] <==> VersionOf(b[..8]) == Some(V4))
  {
    hide ParsePayload, Encodable, CanonicalRecord;
    var v := VersionOf(b[..8]).value;
    var c := b[..|b| - CHECKSUM_LEN][8..];
    var n := c[3] as int;
    ParsedSysctlsValid(c[4..4 + 3 * n]);
    var cs := ParseSysctls(c[4..4 + 3 * n]).value;
    var rest := c[4 + 3 * n..];
    ParsedPayload(codec, v, PhaseOf(c[0]).value, FromBigEndian(c[1..3]), cs, Deadline(v, rest), rest[DeadlineLen(v)..]);
  }

  /** Upgrading a journal in place: any accepted file except a version 4 one with a candidate can be
      stored again and loads as the same record. */
  lemma ReencodedFileAgrees(codec: Codec, sha: Sha256, b: seq<byte>)
    requires codec.Faithful() && Decoded(codec, sha, b).Ok?
    ensures var r := Decoded(codec, sha, b).value;
            && Encoded(codec, sha, r).Ok?
            && (Decoded(codec, sha, Encoded(codec, sha, r).value) == Ok(r)
                <==> !(VersionOf(b[..8]) == Some(V4) && r.recoveryCandidate.Some?))
  {
    AcceptedIsEncodable(codec, sha, b);
    RoundTrip(codec, sha, Decoded(codec, sha, b).value);
  }

  /** No stored file is refused for its size: one byte of the bound is never used. */
  lemma StoredFileFits(codec: Codec, sha: Sha256, r: TransactionRecord)
    requires codec.Faithful() && Encoded(codec, sha, r).Ok?
    ensures HEADER_LEN + CHECKSUM_LEN <= |Encoded(codec, sha, r).value| <= MAX_JOURNAL_LEN - 1
  {
    ChecksumSplits(codec, sha, r);
    assert |PrefixBytes(r.failedPrefixes)| <= 5 * 1024;
  }
}
