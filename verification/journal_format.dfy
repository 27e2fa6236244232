/** The transaction journal's file format, written as the value it denotes: what the encoder must
    produce, and what the decoder must answer when the file is read from front to back. */
module JournalFormat {
  import opened Bytes
  import opened Netd
  import opened Wrappers

  const HEADER_LEN: nat := 8 + 1 + 2 + 1 + 4
  const CHECKSUM_LEN: nat := 32
  const MAX_FAILED_PREFIXES: nat := 1024
  const MAX_JOURNAL_LEN: nat :=
    HEADER_LEN + 3 * 3 + 8 + MAX_NETD_FRAME_LEN + 4 + MAX_NETD_FRAME_LEN + 4 + 2 + 5 * 1024 + CHECKSUM_LEN

  datatype TransactionPhase = Preparing | Prepared | Active | Suspended | RollingBack | Draining

  datatype SysctlKey = Ipv4Forward | AllRpFilter | CandyRpFilter | CandyDisableIpv6

  datatype SysctlChange = SysctlChange(key: SysctlKey, original: byte, applied: byte)

  datatype TransactionRecord = TransactionRecord(
    owner: LeaseOwner,
    declaration: PrepareDeclaration,
    recoveryCandidate: Option<PrepareDeclaration>,
    recoveryCandidateOwner: Option<LeaseOwner>,
    phase: TransactionPhase,
    completedSteps: u16,
    sysctls: seq<SysctlChange>,
    drainDeadlineMonoMs: u64,
    failedPrefixes: seq<Ipv4Prefix>)

  /** The one error every journal operation reports. */
  datatype NetworkError = Journal

  type Sha256 = seq<byte> -> Bytes32

  datatype Version = V1 | V2 | V3 | V4

  function Magic(v: Version): (m: seq<byte>)
    ensures |m| == 8
  {
    [67, 78, 68, 74, 78, 76, 48, match v case V1 => 49 case V2 => 50 case V3 => 51 case V4 => 52]
  }

  function VersionOf(m: seq<byte>): (v: Option<Version>)
    ensures v.Some? ==> Magic(v.value) == m
  {
    if m == Magic(V1) then Some(V1)
    else if m == Magic(V2) then Some(V2)
    else if m == Magic(V3) then Some(V3)
    else if m == Magic(V4) then Some(V4)
    else None
  }

  function PhaseTag(p: TransactionPhase): byte {
    match p
    case Preparing => 1
    case Prepared => 2
    case Active => 3
    case RollingBack => 4
    case Suspended => 5
    case Draining => 6
  }

  function PhaseOf(tag: byte): (p: Option<TransactionPhase>)
    ensures p.Some? ==> PhaseTag(p.value) == tag
  {
    match tag
    case 1 => Some(Preparing)
    case 2 => Some(Prepared)
    case 3 => Some(Active)
    case 4 => Some(RollingBack)
    case 5 => Some(Suspended)
    case 6 => Some(Draining)
    case _ => None
  }

  function KeyTag(k: SysctlKey): byte {
    match k
    case Ipv4Forward => 1
    case AllRpFilter => 2
    case CandyRpFilter => 3
    case CandyDisableIpv6 => 4
  }

  function KeyOf(tag: byte): (k: Option<SysctlKey>)
    ensures k.Some? ==> KeyTag(k.value) == tag
  {
    match tag
    case 1 => Some(Ipv4Forward)
    case 2 => Some(AllRpFilter)
    case 3 => Some(CandyRpFilter)
    case 4 => Some(CandyDisableIpv6)
    case _ => None
  }

  predicate CandidatePhase(p: TransactionPhase) {
    p.Preparing? || p.Prepared? || p.Draining? || p.RollingBack?
  }

  /** A replacement owner is a later generation of the same process. */
  predicate Succeeds(next: LeaseOwner, owner: LeaseOwner) {
    next.instanceId == owner.instanceId && next.pid == owner.pid && next.generation >= owner.generation
  }

  predicate ValidChange(c: SysctlChange) {
    c.original <= 2 && c.applied <= 2 && c.original != c.applied
  }

  /** Valid changes under strictly increasing keys. */
  predicate GoodChanges(cs: seq<SysctlChange>) {
    && (forall i :: 0 < i < |cs| ==> KeyTag(cs[i - 1].key) < KeyTag(cs[i].key))
    && (forall i :: 0 <= i < |cs| ==> ValidChange(cs[i]))
  }

  /** Canonical prefixes in strictly increasing order. */
  predicate GoodPrefixes(ps: seq<Ipv4Prefix>) {
    && (forall i :: 0 < i < |ps| ==> PrefixRank(ps[i - 1]) < PrefixRank(ps[i]))
    && (forall i :: 0 <= i < |ps| ==> CanonicalPrefix(ps[i]))
  }

  predicate ValidPrefixes(ps: seq<Ipv4Prefix>) {
    |ps| <= MAX_FAILED_PREFIXES && GoodPrefixes(ps)
  }

  predicate ValidSysctls(cs: seq<SysctlChange>) {
    |cs| <= 4 && GoodChanges(cs)
  }

  predicate ValidCandidate(r: TransactionRecord) {
    && (r.recoveryCandidate.Some? ==> CandidatePhase(r.phase))
    && (r.recoveryCandidateOwner.Some? ==>
          r.recoveryCandidate.Some? && Succeeds(r.recoveryCandidateOwner.value, r.owner))
  }

  function ActiveRequest(r: TransactionRecord): NetdRequest {
    NetdRequest(1, r.owner, Prepare(r.declaration))
  }

  function CandidateOwner(r: TransactionRecord): LeaseOwner {
    if r.recoveryCandidateOwner.Some? then r.recoveryCandidateOwner.value else r.owner
  }

  function CandidateRequest(r: TransactionRecord): NetdRequest
    requires r.recoveryCandidate.Some?
  {
    NetdRequest(1, CandidateOwner(r), Prepare(r.recoveryCandidate.value))
  }

  /** What the encoder accepts. */
  predicate Encodable(codec: Codec, r: TransactionRecord) {
    && ValidPrefixes(r.failedPrefixes)
    && ValidSysctls(r.sysctls)
    && ValidCandidate(r)
    && codec.encode(ActiveRequest(r)).Some?
    && |codec.encode(ActiveRequest(r)).value| < 0x1_0000_0000
    && (r.recoveryCandidate.Some? ==>
          codec.encode(CandidateRequest(r)).Some? && |codec.encode(CandidateRequest(r)).value| < 0x1_0000_0000)
  }

  function EncodedVersion(r: TransactionRecord): Version {
    if r.failedPrefixes != [] then V4 else if r.recoveryCandidate.Some? then V3 else V1
  }

  function ChangeBytes(c: SysctlChange): (b: seq<byte>)
    ensures |b| == 3
  {
    [KeyTag(c.key), c.original, c.applied]
  }

  function SysctlBytes(cs: seq<SysctlChange>): (b: seq<byte>)
    ensures |b| == 3 * |cs|
  {
    if cs == [] then [] else SysctlBytes(cs[..|cs| - 1]) + ChangeBytes(cs[|cs| - 1])
  }

  function OnePrefix(p: Ipv4Prefix): (b: seq<byte>)
    ensures |b| == 5
  {
    p.network + [p.prefixLen]
  }

  function PrefixBytes(ps: seq<Ipv4Prefix>): (b: seq<byte>)
    ensures |b| == 5 * |ps|
  {
    if ps == [] then [] else PrefixBytes(ps[..|ps| - 1]) + OnePrefix(ps[|ps| - 1])
  }

  /** The part of the file every version shares, after the magic. */
  function Header(r: TransactionRecord): (b: seq<byte>)
    requires |r.sysctls| <= 4
  {
    [PhaseTag(r.phase)] + BigEndian(r.completedSteps, 2) + [|r.sysctls| as byte] + SysctlBytes(r.sysctls)
  }

  /** Written whenever there is a candidate, whatever the version says. */
  function DeadlineField(r: TransactionRecord): seq<byte> {
    if r.recoveryCandidate.Some? then BigEndian(r.drainDeadlineMonoMs, 8) else []
  }

  function RecoveryField(codec: Codec, r: TransactionRecord): seq<byte>
    requires Encodable(codec, r)
  {
    if r.recoveryCandidate.Some? then Prefixed(codec.encode(CandidateRequest(r)).value, 4)
    else if r.failedPrefixes != [] then BigEndian(0, 4)
    else []
  }

  function FailedField(r: TransactionRecord): seq<byte> {
    if r.failedPrefixes != [] then BigEndian(|r.failedPrefixes|, 2) + PrefixBytes(r.failedPrefixes) else []
  }

  /** Everything between the sysctls and the checksum. */
  function Payload(codec: Codec, r: TransactionRecord): seq<byte>
    requires Encodable(codec, r)
  {
    DeadlineField(r)
    + (Prefixed(codec.encode(ActiveRequest(r)).value, 4) + (RecoveryField(codec, r) + FailedField(r)))
  }

  function Content(codec: Codec, r: TransactionRecord): seq<byte>
    requires Encodable(codec, r)
  {
    Magic(EncodedVersion(r)) + (Header(r) + Payload(codec, r))
  }

  function Encoded(codec: Codec, sha: Sha256, r: TransactionRecord): Result<seq<byte>, NetworkError> {
    if Encodable(codec, r) then Ok(Content(codec, r) + sha(Content(codec, r))) else Err(Journal)
  }

  function ParseChange(b: seq<byte>): (c: Option<SysctlChange>)
    requires |b| == 3
    ensures c.Some? ==> ChangeBytes(c.value) == b
  {
    if KeyOf(b[0]).Some? then Some(SysctlChange(KeyOf(b[0]).value, b[1], b[2])) else None
  }

  /** The changes in `b`, if each is valid and each key is above the one before it. */
  function ParseSysctls(b: seq<byte>): (cs: Option<seq<SysctlChange>>)
    requires |b| % 3 == 0
    ensures cs.Some? ==> 3 * |cs.value| == |b|
  {
    if b == [] then Some([]) else
      var init := ParseSysctls(b[..|b| - 3]);
      var change := ParseChange(b[|b| - 3..]);
      if init.None? || change.None? || !ValidChange(change.value) || !KeyFollows(init.value, change.value)
      then None
      else Some(init.value + [change.value])
  }

  predicate KeyFollows(init: seq<SysctlChange>, c: SysctlChange) {
    init != [] ==> KeyTag(init[|init| - 1].key) < KeyTag(c.key)
  }

  function ParsePrefix(b: seq<byte>): (p: Ipv4Prefix)
    requires |b| == 5
    ensures OnePrefix(p) == b
  {
    Ipv4Prefix(b[..4], b[4])
  }

  /** The prefixes in `b`, if each is canonical and above the one before it. */
  function ParsePrefixes(b: seq<byte>): (ps: Option<seq<Ipv4Prefix>>)
    requires |b| % 5 == 0
    ensures ps.Some? ==> 5 * |ps.value| == |b|
  {
    if b == [] then Some([]) else
      var init := ParsePrefixes(b[..|b| - 5]);
      var prefix := ParsePrefix(b[|b| - 5..]);
      if init.None? || !CanonicalPrefix(prefix) || !PrefixFollows(init.value, prefix)
      then None
      else Some(init.value + [prefix])
  }

  predicate PrefixFollows(init: seq<Ipv4Prefix>, p: Ipv4Prefix) {
    init != [] ==> PrefixRank(init[|init| - 1]) < PrefixRank(p)
  }

  datatype Cut = Cut(head: seq<byte>, rest: seq<byte>)

  /** A four-byte length and that many bytes. */
  function TakeFrame(b: seq<byte>): Option<Cut> {
    if |b| < 4 then None else
      var len := FromBigEndian(b[..4]);
      if |b| - 4 < len then None else Some(Cut(b[4..4 + len], b[4 + len..]))
  }

  /** The failed-prefix extension, which must end the content. */
  function ParseFailed(b: seq<byte>): Option<seq<Ipv4Prefix>> {
    if |b| < 2 then None else
      var count := FromBigEndian(b[..2]);
      if count == 0 || count > MAX_FAILED_PREFIXES || |b| - 2 != 5 * count then None
      else ParsePrefixes(b[2..])
  }

  /** An optional candidate with its owner, and the bytes behind it. */
  datatype Recovery = Recovery(candidate: Option<NetdRequest>, rest: seq<byte>)

  function ParseRecovery(codec: Codec, v: Version, phase: TransactionPhase, owner: LeaseOwner, b: seq<byte>)
    : Option<Recovery>
  {
    if v.V1? then (if b == [] then Some(Recovery(None, [])) else None) else
    if TakeFrame(b).None? then None else
      var Cut(frame, rest) := TakeFrame(b).value;
      if frame == [] then (if v.V4? then Some(Recovery(None, rest)) else None) else
      if |frame| > MAX_NETD_FRAME_LEN || codec.decode(frame).None? then None else
        var q := codec.decode(frame).value;
        if !Succeeds(q.owner, owner) || !CandidatePhase(phase) || !q.operation.Prepare? then None
        else Some(Recovery(Some(q), rest))
  }

  /** Everything behind the deadline field: the active request, the candidate, the failed prefixes. */
  function ParsePayload(codec: Codec, v: Version, phase: TransactionPhase, steps: u16,
                        sysctls: seq<SysctlChange>, deadline: u64, b: seq<byte>): Option<TransactionRecord>
  {
    if TakeFrame(b).None? then None else
      var Cut(frame, rest) := TakeFrame(b).value;
      if frame == [] || |frame| > MAX_NETD_FRAME_LEN || codec.decode(frame).None? then None else
        var q := codec.decode(frame).value;
        if !q.operation.Prepare? then None else
          var recovery := ParseRecovery(codec, v, phase, q.owner, rest);
          if recovery.None? then None else
            var failed := if v.V4? then ParseFailed(recovery.value.rest)
                          else if recovery.value.rest == [] then Some([]) else None;
            if failed.None? then None else
              var c := recovery.value.candidate;
              Some(TransactionRecord(
                     q.owner, q.operation.declaration,
                     if c.Some? then Some(c.value.operation.declaration) else None,
                     if c.Some? && c.value.owner != q.owner then Some(c.value.owner) else None,
                     phase, steps, sysctls, deadline, failed.value))
  }

  function DeadlineLen(v: Version): nat {
    if v.V3? then 8 else 0
  }

  /** The content behind the magic. */
  function ParseContent(codec: Codec, v: Version, b: seq<byte>): Option<TransactionRecord> {
    if |b| < 4 || PhaseOf(b[0]).None? then None else
      var phase, steps, n := PhaseOf(b[0]).value, FromBigEndian(b[1..3]), b[3] as int;
      if steps >= 64 || n > 4 || |b| < 4 + 3 * n + DeadlineLen(v) + 4 then None else
        var sysctls := ParseSysctls(b[4..4 + 3 * n]);
        if sysctls.None? then None else
          var rest := b[4 + 3 * n..];
          ParsePayload(codec, v, phase, steps, sysctls.value, Deadline(v, rest), rest[DeadlineLen(v)..])
  }

  /** Only version 3 is read as carrying a deadline. */
  function Deadline(v: Version, rest: seq<byte>): (d: u64)
    requires |rest| >= DeadlineLen(v)
  {
    Widths();
    if v.V3? then FromBigEndian(rest[..8]) else 0
  }

  function Decoded(codec: Codec, sha: Sha256, b: seq<byte>): Result<TransactionRecord, NetworkError> {
    if |b| < HEADER_LEN + CHECKSUM_LEN || VersionOf(b[..8]).None? then Err(Journal) else
      var content := b[..|b| - CHECKSUM_LEN];
      if sha(content) != b[|b| - CHECKSUM_LEN..] then Err(Journal) else
        match ParseContent(codec, VersionOf(b[..8]).value, content[8..])
        case Some(r) => Ok(r)
        case None => Err(Journal)
  }
}
