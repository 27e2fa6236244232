/** The journal over the request codec it uses in the program. */
module JournalNetd {
  import opened Bytes
  import opened JournalFormat
  import opened Wrappers
  import Journal
  import JournalProofs
  import opened Netd
  import NetdProto
  import NetdSamples

  /** With the protocol's own request frames: what was stored is loaded again exactly for the
      representable records, and a file loaded from any version is stored and loaded as the same record
      unless it is a version 4 file with a candidate. */
  lemma StoreLoadStore(sha: Sha256, record: TransactionRecord, file: seq<byte>)
    requires Encoded(NetdProto.ProtoCodec(), sha, record).Ok? && Decoded(NetdProto.ProtoCodec(), sha, file).Ok?
    ensures var codec := NetdProto.ProtoCodec();
            && (Journal.Loaded(codec, sha, Some(Encoded(codec, sha, record).value), true)
                == Ok(Some(JournalProofs.Normalized(record)))
                <==> JournalProofs.Representable(record))
            && var read := Decoded(codec, sha, file).value;
               && Encoded(codec, sha, read).Ok?
               && (Decoded(codec, sha, Encoded(codec, sha, read).value) == Ok(read)
                   <==> !(VersionOf(file[..8]) == Some(V4) && read.recoveryCandidate.Some?))
  {
    hide Encoded, Decoded, JournalProofs.Representable, JournalProofs.Normalized, Journal.Loaded;
    NetdProto.ProtoCodecIsFaithful();
    Journal.LoadAfterStore(NetdProto.ProtoCodec(), sha, record);
    JournalProofs.ReencodedFileAgrees(NetdProto.ProtoCodec(), sha, file);
  }

  /** With these frames a record with failed prefixes and a candidate is refused for every deadline below
      49 * 2^32 milliseconds, more than six years of monotonic clock. */
  lemma LostBelowTheSmallestFrame(sha: Sha256, r: TransactionRecord)
    requires Encoded(NetdProto.ProtoCodec(), sha, r).Ok?
    requires r.recoveryCandidate.Some? && r.failedPrefixes != []
    requires r.drainDeadlineMonoMs < NetdSamples.MIN_PREPARE_FRAME * 0x1_0000_0000
    ensures Decoded(NetdProto.ProtoCodec(), sha, Encoded(NetdProto.ProtoCodec(), sha, r).value) == Err(Journal)
  {
    hide Encoded, Decoded, NetdProto.Decode, NetdProto.Encode;
    var codec := NetdProto.ProtoCodec();
    var length := r.drainDeadlineMonoMs / 0x1_0000_0000;
    if JournalProofs.PreparesIn(codec, length) {
      var frame :| |frame| == length && codec.decode(frame).Some? && codec.decode(frame).value.operation.Prepare?;
      NetdSamples.NoSmallerPreparation(frame);
    }
    JournalProofs.StoredButNotLoadable(codec, sha, r);
  }
}
