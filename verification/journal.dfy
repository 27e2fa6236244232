/** The journal as the daemon runs it: the encoder appends to a buffer, the decoder walks the bytes
    with explicit offsets, and the file is replaced, read and removed as a whole. */
module Journal {
  import opened Bytes
  import opened JournalFormat
  import JournalProofs
  import opened Netd
  import opened Wrappers

  /** `checked_add` on a word that holds at most `max`. */
  function CheckedAdd(a: nat, b: nat, max: nat): (sum: Option<nat>)
    ensures sum.Some? <==> a + b <= max
    ensures sum.Some? ==> sum.value == a + b
  {
    if a + b <= max then Some(a + b) else None
  }

  /** A plain `+` on the same word: calling it demands a proof that it cannot overflow. */
  function Plus(a: nat, b: nat, max: nat): (sum: nat)
    requires a + b <= max
    ensures sum == a + b
  {
    a + b
  }

  method EncodeSysctls(start: seq<byte>, changes: seq<SysctlChange>) returns (bytes: seq<byte>)
    ensures bytes == start + SysctlBytes(changes)
  {
    bytes := start;
    for i := 0 to |changes|
      invariant bytes == start + SysctlBytes(changes[..i])
    {
      var c := changes[i];
      bytes := bytes + [KeyTag(c.key), c.original, c.applied];
      assert changes[..i + 1][..i] == changes[..i];
    }
    assert changes[..|changes|] == changes;
  }

  method EncodePrefixes(start: seq<byte>, prefixes: seq<Ipv4Prefix>) returns (bytes: seq<byte>)
    ensures bytes == start + PrefixBytes(prefixes)
  {
    bytes := start;
    for i := 0 to |prefixes|
      invariant bytes == start + PrefixBytes(prefixes[..i])
    {
      bytes := bytes + prefixes[i].network;
      bytes := bytes + [prefixes[i].prefixLen];
      assert prefixes[..i + 1][..i] == prefixes[..i];
    }
    assert prefixes[..|prefixes|] == prefixes;
  }

  lemma PartsInOrder(a: seq<byte>, b: seq<byte>, c: seq<byte>, d: seq<byte>, e: seq<byte>, f: seq<byte>)
    ensures ((((a + b) + c) + d) + e) + f == a + (b + (c + (d + (e + f))))
  {
    Assoc(((a + b) + c) + d, e, f);
    Assoc((a + b) + c, d, e + f);
    Assoc(a + b, c, d + (e + f));
    Assoc(a, b, c + (d + (e + f)));
  }

  method EncodeRecord(codec: Codec, sha: Sha256, record: TransactionRecord)
    returns (res: Result<seq<byte>, NetworkError>)
    ensures res == Encoded(codec, sha, record)
  {
    hide GoodPrefixes, GoodChanges, SysctlBytes, PrefixBytes, Magic, PhaseTag;
    if !ValidPrefixes(record.failedPrefixes) || !ValidSysctls(record.sysctls) {
      return Err(Journal);
    }
    if record.recoveryCandidate.Some? && !CandidatePhase(record.phase) {
      return Err(Journal);
    }
    if record.recoveryCandidateOwner.Some? {
      if record.recoveryCandidate.None? || !Succeeds(record.recoveryCandidateOwner.value, record.owner) {
        return Err(Journal);
      }
    }
    var request := codec.encode(ActiveRequest(record));
    var recovery := if record.recoveryCandidate.Some? then codec.encode(CandidateRequest(record)) else Some([]);
    if request.None? || recovery.None? {
      return Err(Journal);
    }
    if |request.value| >= 0x1_0000_0000 || |recovery.value| >= 0x1_0000_0000 {
      return Err(Journal);
    }
    var bytes := Magic(EncodedVersion(record));
    bytes := bytes + [PhaseTag(record.phase)];
    bytes := bytes + BigEndian(record.completedSteps, 2);
    bytes := bytes + [|record.sysctls| as byte];
    bytes := EncodeSysctls(bytes, record.sysctls);
    ghost var head := Magic(EncodedVersion(record)) + Header(record);
    assert bytes == head;
    if record.recoveryCandidate.Some? {
      bytes := bytes + BigEndian(record.drainDeadlineMonoMs, 8);
    }
    ghost var upToDeadline := head + DeadlineField(record);
    assert bytes == upToDeadline;
    bytes := bytes + BigEndian(|request.value|, 4);
    bytes := bytes + request.value;
    ghost var active := Prefixed(request.value, 4);
    assert bytes == upToDeadline + active;
    if record.recoveryCandidate.Some? {
      bytes := bytes + BigEndian(|recovery.value|, 4);
      bytes := bytes + recovery.value;
    } else if record.failedPrefixes != [] {
      bytes := bytes + BigEndian(0, 4);
    }
    assert bytes == (upToDeadline + active) + RecoveryField(codec, record);
    if record.failedPrefixes != [] {
      bytes := bytes + BigEndian(|record.failedPrefixes|, 2);
      bytes := EncodePrefixes(bytes, record.failedPrefixes);
    }
    assert bytes == ((upToDeadline + active) + RecoveryField(codec, record)) + FailedField(record);
    PartsInOrder(Magic(EncodedVersion(record)), Header(record), DeadlineField(record), active,
                 RecoveryField(codec, record), FailedField(record));
    res := Ok(bytes + sha(bytes));
  }

  /** Reading a frame at an offset. */
  lemma FrameAt(bytes: seq<byte>, offset: nat, end: nat)
    requires offset <= end <= |bytes|
    ensures TakeFrame(bytes[offset..end]) ==
            if end - offset < 4 then None else
              var len := FromBigEndian(bytes[offset..offset + 4]);
              if end - offset - 4 < len then None
              else Some(Cut(bytes[offset + 4..offset + 4 + len], bytes[offset + 4 + len..end]))
  {
    if end - offset >= 4 {
      SliceOfSlice(bytes, offset, end, 0, 4);
      var len := FromBigEndian(bytes[offset..offset + 4]);
      if end - offset - 4 >= len {
        SliceOfSlice(bytes, offset, end, 4, 4 + len);
        SliceOfSlice(bytes, offset, end, 4 + len, end - offset);
      }
    }
  }

  /** Parsing three bytes at a time gives up as soon as a prefix of the input does not parse. */
  lemma {:induction false} SysctlPrefixFails(b: seq<byte>, k: nat)
    requires |b| % 3 == 0 && k % 3 == 0 && k <= |b|
    requires ParseSysctls(b[..k]).None?
    ensures ParseSysctls(b).None?
    decreases |b|
  {
    hide ValidChange, KeyFollows, ParseChange;
    if k < |b| {
      assert k <= |b| - 3;
      SliceOfSlice(b, 0, |b| - 3, 0, k);
      SysctlPrefixFails(b[..|b| - 3], k);
    } else {
      assert b[..k] == b;
    }
  }

  lemma {:induction false} PrefixPrefixFails(b: seq<byte>, k: nat)
    requires |b| % 5 == 0 && k % 5 == 0 && k <= |b|
    requires ParsePrefixes(b[..k]).None?
    ensures ParsePrefixes(b).None?
    decreases |b|
  {
    hide CanonicalPrefix, PrefixFollows, ParsePrefix;
    if k < |b| {
      assert k / 5 * 5 == k && |b| / 5 * 5 == |b|;
      assert k <= |b| - 5;
      SliceOfSlice(b, 0, |b| - 5, 0, k);
      PrefixPrefixFails(b[..|b| - 5], k);
    } else {
      assert b[..k] == b;
    }
  }

  method DecodeSysctls(b: seq<byte>, count: nat) returns (sysctls: Option<seq<SysctlChange>>)
    requires |b| == 3 * count
    ensures sysctls == ParseSysctls(b)
  {
    hide ValidChange, KeyTag;
    var changes: seq<SysctlChange> := [];
    var offset := 0;
    while offset < |b|
      invariant 0 <= offset <= |b| && offset % 3 == 0
      invariant ParseSysctls(b[..offset]) == Some(changes)
    {
      var chunk := b[offset..offset + 3];
      ghost var next := b[..offset + 3];
      SliceOfSlice(b, 0, offset + 3, offset, offset + 3);
      SliceOfSlice(b, 0, offset + 3, 0, offset);
      var key := KeyOf(chunk[0]);
      if key.None? {
        SysctlPrefixFails(b, offset + 3);
        return None;
      }
      var change := SysctlChange(key.value, chunk[1], chunk[2]);
      if !ValidChange(change)
         || (changes != [] && KeyTag(changes[|changes| - 1].key) >= KeyTag(change.key))
      {
        SysctlPrefixFails(b, offset + 3);
        return None;
      }
      changes := changes + [change];
      offset := offset + 3;
    }
    assert b[..offset] == b;
    sysctls := Some(changes);
  }

  method DecodePrefixes(b: seq<byte>, count: nat) returns (prefixes: Option<seq<Ipv4Prefix>>)
    requires |b| == 5 * count
    ensures prefixes == ParsePrefixes(b)
  {
    hide CanonicalPrefix, PrefixRank;
    var parsed: seq<Ipv4Prefix> := [];
    var offset := 0;
    while offset < |b|
      invariant 0 <= offset <= |b| && offset % 5 == 0
      invariant ParsePrefixes(b[..offset]) == Some(parsed)
    {
      var chunk := b[offset..offset + 5];
      ghost var next := b[..offset + 5];
      SliceOfSlice(b, 0, offset + 5, offset, offset + 5);
      SliceOfSlice(b, 0, offset + 5, 0, offset);
      var prefix := Ipv4Prefix(chunk[..4], chunk[4]);
      if !CanonicalPrefix(prefix)
         || (parsed != [] && PrefixRank(parsed[|parsed| - 1]) >= PrefixRank(prefix))
      {
        PrefixPrefixFails(b, offset + 5);
        return None;
      }
      parsed := parsed + [prefix];
      offset := offset + 5;
    }
    assert b[..offset] == b;
    prefixes := Some(parsed);
  }

  /** The failed-prefix extension at `offset`. */
  method DecodeFailed(bytes: seq<byte>, offset: nat, contentLen: nat, usizeMax: nat)
    returns (failed: Option<seq<Ipv4Prefix>>)
    requires offset <= contentLen <= |bytes| <= usizeMax && usizeMax >= 0xFFFF_FFFF
    ensures failed == ParseFailed(bytes[offset..contentLen])
  {
    hide ParsePrefixes;
    ghost var b := bytes[offset..contentLen];
    var countEnd := CheckedAdd(offset, 2, usizeMax);
    if countEnd.None? || countEnd.value > contentLen {
      return None;
    }
    SliceOfSlice(bytes, offset, contentLen, 0, 2);
    var count := FromBigEndian(bytes[offset..countEnd.value]);
    Widths();
    var payloadEnd := CheckedAdd(countEnd.value, count * 5, usizeMax);
    if payloadEnd.None? || count == 0 || count > MAX_FAILED_PREFIXES || payloadEnd.value != contentLen {
      return None;
    }
    SliceOfSlice(bytes, offset, contentLen, 2, contentLen - offset);
    failed := DecodePrefixes(bytes[countEnd.value..payloadEnd.value], count);
  }

  /** The candidate behind the active request, which ends at `requestEnd`. */
  method DecodeRecovery(codec: Codec, version: Version, phase: TransactionPhase, owner: LeaseOwner,
                        bytes: seq<byte>, requestEnd: nat, contentLen: nat, usizeMax: nat)
    returns (ok: bool, candidate: Option<NetdRequest>, recoveryEnd: nat)
    requires requestEnd <= contentLen <= |bytes| <= usizeMax && usizeMax >= 0xFFFF_FFFF
    ensures ok ==> recoveryEnd <= contentLen && (candidate.Some? ==> candidate.value.operation.Prepare?)
    ensures ParseRecovery(codec, version, phase, owner, bytes[requestEnd..contentLen])
            == if ok then Some(Recovery(candidate, bytes[recoveryEnd..contentLen])) else None
  {
    hide TakeFrame, FromBigEndian, Succeeds, CandidatePhase;
    ok, candidate, recoveryEnd := false, None, requestEnd;
    if version == V1 {
      ok := requestEnd == contentLen;
      return;
    }
    FrameAt(bytes, requestEnd, contentLen);
    var headerEnd := CheckedAdd(requestEnd, 4, usizeMax);
    if headerEnd.None? || headerEnd.value > contentLen {
      return;
    }
    var recoveryLen := FromBigEndian(bytes[requestEnd..headerEnd.value]);
    Widths();
    var end := CheckedAdd(headerEnd.value, recoveryLen, usizeMax);
    if end.None? {
      return;
    }
    if recoveryLen == 0 {
      ok, recoveryEnd := version == V4, Plus(requestEnd, 4, usizeMax);
      return;
    }
    if recoveryLen > MAX_NETD_FRAME_LEN || end.value > contentLen {
      return;
    }
    var recovery := codec.decode(bytes[headerEnd.value..end.value]);
    if recovery.None? || !Succeeds(recovery.value.owner, owner) || !CandidatePhase(phase)
       || !recovery.value.operation.Prepare?
    {
      return;
    }
    ok, candidate, recoveryEnd := true, recovery, Plus(headerEnd.value, recoveryLen, usizeMax);
  }

  method DecodePayload(codec: Codec, version: Version, phase: TransactionPhase, steps: u16,
                       sysctls: seq<SysctlChange>, deadline: u64,
                       bytes: seq<byte>, offset: nat, contentLen: nat, usizeMax: nat)
    returns (record: Option<TransactionRecord>)
    requires offset + 4 <= contentLen <= |bytes| <= usizeMax && usizeMax >= 0xFFFF_FFFF
    ensures record == ParsePayload(codec, version, phase, steps, sysctls, deadline, bytes[offset..contentLen])
  {
    hide TakeFrame, ParseFailed, ParseRecovery, FromBigEndian;
    FrameAt(bytes, offset, contentLen);
    var headerEnd := Plus(offset, 4, usizeMax);
    var requestLen := FromBigEndian(bytes[offset..headerEnd]);
    if requestLen == 0 || requestLen > MAX_NETD_FRAME_LEN {
      return None;
    }
    var requestEnd := CheckedAdd(headerEnd, requestLen, usizeMax);
    if requestEnd.None? || requestEnd.value > contentLen {
      return None;
    }
    var request := codec.decode(bytes[headerEnd..requestEnd.value]);
    if request.None? || !request.value.operation.Prepare? {
      return None;
    }
    var owner := request.value.owner;
    var ok, candidate, recoveryEnd :=
      DecodeRecovery(codec, version, phase, owner, bytes, requestEnd.value, contentLen, usizeMax);
    if !ok {
      return None;
    }
    var failed: seq<Ipv4Prefix> := [];
    if version == V4 {
      var extension := DecodeFailed(bytes, recoveryEnd, contentLen, usizeMax);
      if extension.None? {
        return None;
      }
      failed := extension.value;
    } else if recoveryEnd != contentLen {
      return None;
    }
    var declaration := if candidate.Some? then Some(candidate.value.operation.declaration) else None;
    var candidateOwner :=
      if candidate.Some? && candidate.value.owner != owner then Some(candidate.value.owner) else None;
    record := Some(TransactionRecord(owner, request.value.operation.declaration, declaration, candidateOwner,
                                     phase, steps, sysctls, deadline, failed));
  }

  /** The deadline, where the version has one, and what follows. */
  method DecodeTail(codec: Codec, version: Version, phase: TransactionPhase, steps: u16, sysctls: seq<SysctlChange>,
                    bytes: seq<byte>, sysctlEnd: nat, contentLen: nat, usizeMax: nat)
    returns (record: Option<TransactionRecord>)
    requires sysctlEnd + DeadlineLen(version) + 4 <= contentLen <= |bytes| <= usizeMax && usizeMax >= 0xFFFF_FFFF
    ensures var rest := bytes[sysctlEnd..contentLen];
            record == ParsePayload(codec, version, phase, steps, sysctls, Deadline(version, rest), rest[DeadlineLen(version)..])
  {
    hide ParsePayload, FromBigEndian;
    var deadlineLen := if version == V3 then 8 else 0;
    Widths();
    var deadline := 0;
    if deadlineLen == 8 {
      SliceOfSlice(bytes, sysctlEnd, contentLen, 0, 8);
      deadline := FromBigEndian(bytes[sysctlEnd..Plus(sysctlEnd, 8, usizeMax)]);
    }
    var offset := Plus(sysctlEnd, deadlineLen, usizeMax);
    SliceOfSlice(bytes, sysctlEnd, contentLen, deadlineLen, contentLen - sysctlEnd);
    record := DecodePayload(codec, version, phase, steps, sysctls, deadline, bytes, offset, contentLen, usizeMax);
  }

  method DecodeContent(codec: Codec, version: Version, bytes: seq<byte>, contentLen: nat, usizeMax: nat)
    returns (record: Option<TransactionRecord>)
    requires HEADER_LEN <= contentLen <= |bytes| <= usizeMax && usizeMax >= 0xFFFF_FFFF
    ensures record == ParseContent(codec, version, bytes[8..contentLen])
  {
    hide ParsePayload, ParseSysctls, PhaseOf, FromBigEndian, Deadline;
    var phase := PhaseOf(bytes[8]);
    if phase.None? {
      return None;
    }
    SliceOfSlice(bytes, 8, contentLen, 1, 3);
    var steps := FromBigEndian(bytes[9..11]);
    var count := bytes[11] as int;
    if steps >= 64 || count > 4 {
      return None;
    }
    var sysctlEnd := Plus(12, count * 3, usizeMax);
    var deadlineLen := if version == V3 then 8 else 0;
    var headerEnd := Plus(Plus(sysctlEnd, deadlineLen, usizeMax), 4, usizeMax);
    if headerEnd > contentLen {
      return None;
    }
    SliceOfSlice(bytes, 8, contentLen, 4, 4 + 3 * count);
    var sysctls := DecodeSysctls(bytes[12..sysctlEnd], count);
    if sysctls.None? {
      return None;
    }
    SliceOfSlice(bytes, 8, contentLen, 4 + 3 * count, contentLen - 8);
    record := DecodeTail(codec, version, phase.value, steps, sysctls.value, bytes, sysctlEnd, contentLen, usizeMax);
  }

  /** Total on every byte string: each index and each sum above was shown to stay in bounds, and the
      outcome is the same for every word size that can hold a 32-bit length. */
  method DecodeRecord(codec: Codec, sha: Sha256, bytes: seq<byte>, usizeMax: nat)
    returns (res: Result<TransactionRecord, NetworkError>)
    requires |bytes| <= usizeMax && usizeMax >= 0xFFFF_FFFF
    ensures res == Decoded(codec, sha, bytes)
  {
    hide ParseContent, VersionOf;
    if |bytes| < HEADER_LEN + CHECKSUM_LEN {
      return Err(Journal);
    }
    var version := VersionOf(bytes[..8]);
    if version.None? {
      return Err(Journal);
    }
    var contentLen := |bytes| - CHECKSUM_LEN;
    if sha(bytes[..contentLen]) != bytes[contentLen..] {
      return Err(Journal);
    }
    SliceOfSlice(bytes, 0, contentLen, 8, contentLen);
    var record := DecodeContent(codec, version.value, bytes, contentLen, usizeMax);
    res := if record.Some? then Ok(record.value) else Err(Journal);
  }

  /** How far one write of the temporary file and its rename got. */
  datatype WriteOutcome = Written | NotWritten | RenamedUnsynced

  class FileNetworkJournal {
    /** The journal file, if there is one. */
    var file: Option<seq<byte>>
    const codec: Codec
    const sha: Sha256

    constructor (codec: Codec, sha: Sha256, file: Option<seq<byte>>)
      ensures this.codec == codec && this.sha == sha && this.file == file
    {
      this.codec, this.sha, this.file := codec, sha, file;
    }

    /** `private` says whether the directory and the file passed their ownership and mode checks. */
    method Load(private: bool, usizeMax: nat) returns (res: Result<Option<TransactionRecord>, NetworkError>)
      requires file.Some? ==> |file.value| <= usizeMax
      requires usizeMax >= 0xFFFF_FFFF
      ensures res == Loaded(codec, sha, file, private)
    {
      hide Decoded;
      if !private {
        return Err(Journal);
      }
      if file.None? {
        return Ok(None);
      }
      if |file.value| < HEADER_LEN + CHECKSUM_LEN || |file.value| > MAX_JOURNAL_LEN {
        return Err(Journal);
      }
      var record := DecodeRecord(codec, sha, file.value, usizeMax);
      res := match record case Ok(r) => Ok(Some(r)) case Err(e) => Err(e);
    }

    method Store(record: TransactionRecord, private: bool, outcome: WriteOutcome)
      returns (res: Result<(), NetworkError>)
      modifies this
      ensures res.Ok? <==> private && Encoded(codec, sha, record).Ok? && outcome.Written?
      ensures file == if private && Encoded(codec, sha, record).Ok? && !outcome.NotWritten?
                      then Some(Encoded(codec, sha, record).value) else old(file)
    {
      hide Encoded;
      if !private {
        return Err(Journal);
      }
      var bytes := EncodeRecord(codec, sha, record);
      if bytes.Err? {
        return Err(Journal);
      }
      if outcome.NotWritten? {
        return Err(Journal);
      }
      file := Some(bytes.value);
      res := if outcome.Written? then Ok(()) else Err(Journal);
    }

    method Clear(private: bool, removed: bool, synced: bool) returns (res: Result<(), NetworkError>)
      modifies this
      ensures res.Ok? <==> private && (old(file).None? || (removed && synced))
      ensures file == if private && removed then None else old(file)
    {
      if !private {
        return Err(Journal);
      }
      if file.None? {
        return Ok(());
      }
      if !removed {
        return Err(Journal);
      }
      file := None;
      res := if synced then Ok(()) else Err(Journal);
    }
  }

  function Loaded(codec: Codec, sha: Sha256, file: Option<seq<byte>>, private: bool)
    : Result<Option<TransactionRecord>, NetworkError>
  {
    if !private then Err(Journal)
    else if file.None? then Ok(None)
    else if |file.value| < HEADER_LEN + CHECKSUM_LEN || |file.value| > MAX_JOURNAL_LEN then Err(Journal)
    else match Decoded(codec, sha, file.value)
      case Ok(r) => Ok(Some(r))
      case Err(e) => Err(e)
  }

  /** A load after a completed store gives the stored record back exactly for the representable ones;
      the size check never stands in the way. */
  lemma LoadAfterStore(codec: Codec, sha: Sha256, record: TransactionRecord)
    requires codec.Faithful() && Encoded(codec, sha, record).Ok?
    ensures Loaded(codec, sha, Some(Encoded(codec, sha, record).value), true)
            == Ok(Some(JournalProofs.Normalized(record)))
            <==> JournalProofs.Representable(record)
  {
    hide Encoded, Decoded;
    JournalProofs.StoredFileFits(codec, sha, record);
    JournalProofs.RoundTrip(codec, sha, record);
  }
}
