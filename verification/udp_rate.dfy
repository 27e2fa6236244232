/** Accounting for the packets of one UDP rate run: what came back, and whether it is exactly what was
    sent. */
module UdpRate {
  import opened Bytes
  import opened Wrappers

  /** The sequence number of the warm-up packet. */
  const WARM_UP: nat := 0xFFFF_FFFF_FFFF_FFFF

  /** Every packet is the prefix of its run, an eight-byte sequence number and the body of its run. */
  datatype Run = Run(prefix: seq<byte>, body: seq<byte>, count: nat)
  {
    predicate Valid() {
      |prefix| == 8 && count <= WARM_UP
    }

    function Packet(sequence: nat): seq<byte> {
      prefix + (BigEndian(sequence, 8) + body)
    }
  }

  datatype Class = Foreign | WarmUp | Corrupt(sequence: nat) | Reply(sequence: nat)

  function Classify(run: Run, payload: seq<byte>): Class
    requires run.Valid()
  {
    if |payload| != 16 + |run.body| || payload[..8] != run.prefix then Foreign
    else
      var sequence := FromBigEndian(payload[8..16]);
      if sequence == WARM_UP then WarmUp
      else if sequence >= run.count || payload[16..] != run.body then Corrupt(sequence)
      else Reply(sequence)
  }

  datatype Arrival = Arrival(payload: seq<byte>, at: real)

  datatype Tally = Tally(received: map<nat, real>, duplicates: seq<nat>, corrupt: seq<nat>, foreign: seq<seq<byte>>)

  const NOTHING := Tally(map[], [], [], [])

  function Count(run: Run, t: Tally, a: Arrival): Tally
    requires run.Valid()
  {
    match Classify(run, a.payload)
    case WarmUp => t
    case Foreign => t.(foreign := t.foreign + [if |a.payload| < 16 then a.payload else a.payload[..16]])
    case Corrupt(sequence) => t.(corrupt := t.corrupt + [sequence])
    case Reply(sequence) =>
      if sequence in t.received then t.(duplicates := t.duplicates + [sequence])
      else t.(received := t.received[sequence := a.at])
  }

  function Counted(run: Run, arrivals: seq<Arrival>): Tally
    requires run.Valid()
  {
    if arrivals == [] then NOTHING else Count(run, Counted(run, arrivals[..|arrivals| - 1]), arrivals[|arrivals| - 1])
  }

  /** The receive loop over the datagrams that arrive in time. */
  method Receive(run: Run, arrivals: seq<Arrival>) returns (t: Tally)
    requires run.Valid()
    ensures t == Counted(run, arrivals)
  {
    hide FromBigEndian;
    var received: map<nat, real>, duplicates: seq<nat>, corrupt: seq<nat>, foreign: seq<seq<byte>> := map[], [], [], [];
    for i := 0 to |arrivals|
      invariant Tally(received, duplicates, corrupt, foreign) == Counted(run, arrivals[..i])
    {
      assert arrivals[..i + 1][..i] == arrivals[..i];
      var payload, now := arrivals[i].payload, arrivals[i].at;
      if |payload| != 16 + |run.body| || payload[..8] != run.prefix {
        foreign := foreign + [if |payload| < 16 then payload else payload[..16]];
        continue;
      }
      var sequence := FromBigEndian(payload[8..16]);
      if sequence == WARM_UP {
        continue;
      }
      if sequence >= run.count || payload[16..] != run.body {
        corrupt := corrupt + [sequence];
      } else if sequence in received {
        duplicates := duplicates + [sequence];
      } else {
        received := received[sequence := now];
      }
    }
    assert arrivals[..|arrivals|] == arrivals;
    t := Tally(received, duplicates, corrupt, foreign);
  }

  function Missing(run: Run, t: Tally): set<nat> {
    set n | 0 <= n < run.count && n !in t.received
  }

  /** `network_integrity_gate` after all packets of the run were sent. */
  predicate IntegrityPasses(run: Run, t: Tally) {
    Missing(run, t) == {} && t.duplicates == [] && t.corrupt == [] && t.foreign == []
  }

  // ---- what a passing gate means ----

  lemma PacketParts(run: Run, sequence: nat)
    requires run.Valid()
    ensures var p := run.Packet(sequence);
            |p| == 16 + |run.body| && p[..8] == run.prefix && p[8..16] == BigEndian(sequence, 8) && p[16..] == run.body
  {
    hide BigEndian;
    var number := BigEndian(sequence, 8);
    var p := run.Packet(sequence);
    SplitAt(run.prefix, number + run.body);
    SplitAt(number, run.body);
    assert p[8..16] == p[8..][..8] && p[16..] == p[8..][8..];
  }

  /** A reply is one of the packets sent, byte for byte, and every packet sent counts as its reply. */
  lemma ReplyIsThePacket(run: Run, payload: seq<byte>, sequence: nat)
    requires run.Valid() && sequence < run.count
    ensures Classify(run, payload) == Reply(sequence) <==> payload == run.Packet(sequence)
  {
    hide BigEndian, FromBigEndian;
    PacketParts(run, sequence);
    Widths();
    BigEndianRoundTrip(sequence, 8);
    if Classify(run, payload) == Reply(sequence) {
      FromBigEndianRoundTrip(payload[8..16]);
      assert payload == payload[..8] + (payload[8..16] + payload[16..]);
    }
  }

  ghost predicate Arrived(run: Run, arrivals: seq<Arrival>, n: nat) {
    exists i :: 0 <= i < |arrivals| && arrivals[i].payload == run.Packet(n)
  }

  ghost predicate ArrivedTwice(run: Run, arrivals: seq<Arrival>, n: nat) {
    exists i, j :: 0 <= i < j < |arrivals| && arrivals[i].payload == run.Packet(n) && arrivals[j].payload == run.Packet(n)
  }

  /** Nothing arrives but warm-up packets and packets of the run. */
  ghost predicate OnlyOwn(run: Run, arrivals: seq<Arrival>)
    requires run.Valid()
  {
    forall i :: 0 <= i < |arrivals| ==> OwnPayload(run, arrivals[i].payload)
  }

  ghost predicate OwnPayload(run: Run, payload: seq<byte>)
    requires run.Valid()
  {
    Classify(run, payload).WarmUp? || exists n :: 0 <= n < run.count && payload == run.Packet(n)
  }

  lemma OwnIsReply(run: Run, payload: seq<byte>)
    requires run.Valid()
    ensures OwnPayload(run, payload) <==> Classify(run, payload).WarmUp? || Classify(run, payload).Reply?
  {
    hide BigEndian, FromBigEndian, Run.Packet;
    var c := Classify(run, payload);
    if c.Reply? {
      ReplyIsThePacket(run, payload, c.sequence);
    } else if OwnPayload(run, payload) && !c.WarmUp? {
      var n :| 0 <= n < run.count && payload == run.Packet(n);
      ReplyIsThePacket(run, payload, n);
    }
  }

  /** What the four tallies say about the arrivals. */
  lemma {:induction false} TallyMeans(run: Run, arrivals: seq<Arrival>, n: nat)
    requires run.Valid() && n < run.count
    ensures var t := Counted(run, arrivals);
            && (n in t.received <==> Arrived(run, arrivals, n))
            && (n in t.duplicates <==> ArrivedTwice(run, arrivals, n))
  {
    hide Classify, Run.Packet;
    if arrivals != [] {
      var before, last := arrivals[..|arrivals| - 1], arrivals[|arrivals| - 1];
      TallyMeans(run, before, n);
      ReplyIsThePacket(run, last.payload, n);
      OneMoreArrival(run, before, last, n);
      InitAndLast(arrivals);
      assert arrivals == before + [last];
    }
  }

  lemma OneMoreArrival(run: Run, before: seq<Arrival>, last: Arrival, n: nat)
    ensures Arrived(run, before + [last], n) <==> Arrived(run, before, n) || last.payload == run.Packet(n)
    ensures ArrivedTwice(run, before + [last], n)
            <==> ArrivedTwice(run, before, n) || (Arrived(run, before, n) && last.payload == run.Packet(n))
  {
    hide Run.Packet;
    var all := before + [last];
    assert all[|before|] == last && forall i :: 0 <= i < |before| ==> all[i] == before[i];
    if Arrived(run, before, n) {
      var i :| 0 <= i < |before| && before[i].payload == run.Packet(n);
      assert all[i].payload == run.Packet(n);
    }
    if ArrivedTwice(run, before, n) {
      var i, j :| 0 <= i < j < |before| && before[i].payload == run.Packet(n) && before[j].payload == run.Packet(n);
      assert all[i].payload == run.Packet(n) && all[j].payload == run.Packet(n);
    }
  }

  lemma {:induction false} StrayMeans(run: Run, arrivals: seq<Arrival>)
    requires run.Valid()
    ensures var t := Counted(run, arrivals);
            && (t.corrupt == [] && t.foreign == [] <==> OnlyOwn(run, arrivals))
            && (forall n :: n in t.received || n in t.duplicates ==> n < run.count)
  {
    hide FromBigEndian, OwnPayload;
    if arrivals != [] {
      var before, last := arrivals[..|arrivals| - 1], arrivals[|arrivals| - 1];
      StrayMeans(run, before);
      OwnIsReply(run, last.payload);
      assert OnlyOwn(run, arrivals) <==> OnlyOwn(run, before) && OwnPayload(run, last.payload) by {
        assert forall i :: 0 <= i < |before| ==> arrivals[i] == before[i];
      }
    }
  }

  /** The integrity gate passes exactly when every packet sent came back once and nothing else came
      back, warm-up packets aside. */
  lemma IntegrityMeansExactlyOnce(run: Run, arrivals: seq<Arrival>)
    requires run.Valid()
    ensures IntegrityPasses(run, Counted(run, arrivals))
            <==> OnlyOwn(run, arrivals)
                 && forall n :: 0 <= n < run.count ==> Arrived(run, arrivals, n) && !ArrivedTwice(run, arrivals, n)
  {
    hide Counted, OnlyOwn, Arrived, ArrivedTwice;
    StrayMeans(run, arrivals);
    var t := Counted(run, arrivals);
    forall n: nat | n < run.count
      ensures n in t.received <==> Arrived(run, arrivals, n)
      ensures n in t.duplicates <==> ArrivedTwice(run, arrivals, n)
    {
      TallyMeans(run, arrivals, n);
    }
    assert Missing(run, t) == {} <==> forall n: nat :: n < run.count ==> n in t.received by {
      assert forall n: nat :: n < run.count && n !in t.received ==> n in Missing(run, t);
    }
    assert t.duplicates == [] <==> forall n :: n !in t.duplicates by {
      HasItsFirst(t.duplicates);
    }
  }

  lemma HasItsFirst(s: seq<nat>)
    ensures s != [] ==> s[0] in s
  {
  }
}
