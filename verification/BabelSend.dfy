/** What an interface has to send, what its packets hold, and what receivers of them hear. */
module BabelSend {
  import opened Basics
  import opened Address
  import opened BabelPrefix
  import opened BabelTlv
  import opened BabelDecode
  import opened BabelEncode
  import opened BabelRoundTrip

  /** What the route tables say about a destination when its update is sent. */
  datatype Lookup =
    | Xroute(metric: u16)
    | Installed(id: Id, seqno: u16, metric: u16, channels: seq<u8>, hidden: bool)
    | NoRoute

  /** Everything about a node that sending depends on and does not change. */
  datatype Env = Env(up: bool, snd: Sender, diversity: bool, myid: Id, myseqno: u16,
                     table: Prefix -> Lookup, filter: (Id, Prefix) -> nat)

  predicate LookupOk(l: Lookup) { l.Installed? ==> ChannelsOk(l.channels) }

  ghost predicate EnvOk(env: Env) { forall p :: LookupOk(env.table(p)) }

  predicate AllMasked(ps: seq<Prefix>) { forall p | p in ps :: Masked(p) }

  // ---- What is to be sent

  function Outgoing(env: Env, id: Id, p: Prefix, seqno: u16, metric: u16, channels: Option<seq<u8>>): (r: seq<Sent>)
    requires Masked(p) && (channels.Some? ==> ChannelsOk(channels.value))
    ensures AllOk(r)
  {
    var add := env.filter(id, p);
    if !env.up || add >= INFINITY || (IsV4(p) && env.snd.ipv4.None?) then []
    else
      var m := SendUpdate(id, p, seqno, Plus(metric, add), if env.diversity then channels else None);
      assert MessageOk(env.snd, m);
      [Sent(env.snd, m)]
  }

  function Plus(metric: u16, add: nat): u16 { if metric + add < INFINITY then metric + add else INFINITY }

  /** The update for one pending destination. */
  function Answer(env: Env, p: Prefix): seq<Sent>
    requires Masked(p) && LookupOk(env.table(p))
  {
    match env.table(p)
    case Xroute(metric) => Outgoing(env, env.myid, p, env.myseqno, metric, Some([]))
    case Installed(id, seqno, metric, channels, hidden) =>
      if hidden then [] else Outgoing(env, id, p, seqno, metric, Some(channels))
    case NoRoute => Outgoing(env, env.myid, p, env.myseqno, INFINITY, None)
  }

  /** A destination that was just announced is not announced again. */
  function NextLast(env: Env, p: Prefix, last: Option<Prefix>): Option<Prefix> {
    match env.table(p)
    case Xroute(_) => Some(p)
    case Installed(_, _, _, _, hidden) => if hidden then last else Some(p)
    case NoRoute => last
  }

  ghost function Announced(env: Env, ps: seq<Prefix>, last: Option<Prefix>): seq<Sent>
    requires EnvOk(env) && AllMasked(ps)
    decreases |ps|
  {
    if |ps| == 0 then []
    else if last == Some(ps[0]) then Announced(env, ps[1..], last)
    else Answer(env, ps[0]) + Announced(env, ps[1..], NextLast(env, ps[0], last))
  }

  lemma {:induction false} NothingWhenDown(env: Env, ps: seq<Prefix>, last: Option<Prefix>)
    requires EnvOk(env) && AllMasked(ps) && !env.up
    ensures Announced(env, ps, last) == []
    decreases |ps|
  {
    if |ps| > 0 {
      NothingWhenDown(env, ps[1..], last);
      NothingWhenDown(env, ps[1..], NextLast(env, ps[0], last));
    }
  }

  // ---- Time stamps

  /** A Hello that leaves room for a time stamp, as it is when sent at `time`. */
  function Filled(s: Sent, time: u32): Sent {
    if s.m.SendHello? && s.m.stamp == Blank then s.(m := s.m.(stamp := At(time))) else s
  }

  function Stamped(log: seq<Sent>, time: u32): (r: seq<Sent>)
    ensures |r| == |log| && forall i | 0 <= i < |log| :: r[i] == Filled(log[i], time)
    ensures AllOk(log) ==> AllOk(r)
  {
    seq(|log|, i requires 0 <= i < |log| => Filled(log[i], time))
  }

  /** The TLV of such a Hello. */
  predicate Padded(t: Tlv) { t.Tlv? && t.kind == HELLO && |t.body| == 12 && t.body[6] == 1 && t.body[7] == 4 }

  function StampTlv(t: Tlv, time: u32): (r: Tlv)
    ensures Fits(t) ==> Fits(r)
  {
    if Padded(t) then Tlv(HELLO, t.body[..6] + [3, 4] + Long(time)) else t
  }

  function StampTlvs(ts: seq<Tlv>, time: u32): (r: seq<Tlv>)
    ensures |r| == |ts| && forall i | 0 <= i < |ts| :: r[i] == StampTlv(ts[i], time)
    ensures AllFit(ts) ==> AllFit(r)
  {
    seq(|ts|, i requires 0 <= i < |ts| => StampTlv(ts[i], time))
  }

  predicate NonePadded(ts: seq<Tlv>) { forall t | t in ts :: !Padded(t) }

  lemma {:induction false} StampsNothing(ts: seq<Tlv>, time: u32)
    requires NonePadded(ts)
    ensures StampTlvs(ts, time) == ts
  {
  }

  lemma {:induction false} EmitPadded(snd: Sender, enc: Encoder, m: Message)
    requires MessageOk(snd, m) && !(m.SendHello? && m.stamp == Blank)
    ensures NonePadded(Emit(snd, enc, m))
  {
  }

  /** Filling in the time stamp turns what was written into what would have been written at the time of sending. */
  lemma {:induction false} StampEmit(snd: Sender, enc: Encoder, m: Message, time: u32)
    requires MessageOk(snd, m)
    ensures
      var f := Filled(Sent(snd, m), time).m;
      && MessageOk(snd, f) && StampTlvs(Emit(snd, enc, m), time) == Emit(snd, enc, f)
      && Next(snd, enc, f) == Next(snd, enc, m)
  {
    if m.SendHello? && m.stamp == Blank {
      var b := HelloBody(m.seqno, m.interval, Blank);
      assert b[6..] == HelloStampBytes(Blank) && b[6] == b[6..][0] && b[7] == b[6..][1];
      assert b[..6] + [3, 4] + Long(time) == HelloBody(m.seqno, m.interval, At(time));
    } else {
      EmitPadded(snd, enc, m);
      StampsNothing(Emit(snd, enc, m), time);
    }
  }

  /** Whenever the packet is sent, its TLVs then hold exactly the messages with that time filled in. */
  ghost predicate CarriesStamped(ts: seq<Tlv>, log: seq<Sent>, enc: Encoder) {
    AllFit(ts) && AllOk(log) && forall time: u32 :: Carries(StampTlvs(ts, time), Stamped(log, time), enc)
  }

  lemma {:induction false} CarriesStampedNothing()
    ensures CarriesStamped([], [], EMPTY)
  {
    CarriesNothing();
  }

  lemma {:induction false} CarriesStampedMore(ts: seq<Tlv>, log: seq<Sent>, enc: Encoder, snd: Sender, m: Message)
    requires CarriesStamped(ts, log, enc) && MessageOk(snd, m)
    ensures CarriesStamped(ts + Emit(snd, enc, m), log + [Sent(snd, m)], Next(snd, enc, m))
  {
    hide Carries, Emit, Next, StampTlv, Filled;
    var more, all := Emit(snd, enc, m), log + [Sent(snd, m)];
    EmitFits(snd, enc, m);
    forall time: u32 ensures Carries(StampTlvs(ts + more, time), Stamped(all, time), Next(snd, enc, m)) {
      var f := Filled(Sent(snd, m), time);
      FilledSender(Sent(snd, m), time);
      StampEmit(snd, enc, m, time);
      CarriesMore(StampTlvs(ts, time), Stamped(log, time), enc, snd, f.m);
      assert StampTlvs(ts + more, time) == StampTlvs(ts, time) + StampTlvs(more, time);
      assert Stamped(all, time) == Stamped(log, time) + [f];
    }
  }

  lemma {:induction false} FilledSender(s: Sent, time: u32)
    ensures Filled(s, time) == Sent(s.snd, Filled(s, time).m)
  {
  }

  lemma {:induction false} EmitFits(snd: Sender, enc: Encoder, m: Message)
    requires MessageOk(snd, m)
    ensures AllFit(Emit(snd, enc, m))
  {
    if m.SendUpdate? {
      UpdateFits(snd, enc, m);
    }
  }

  // ---- Packets

  /** A finished packet, what was put into it, when it was finished, and whether it left or was dropped. */
  datatype Frame = Frame(packet: seq<u8>, msgs: seq<Sent>, time: u32, sent: bool)

  function Hellos(log: seq<Sent>): nat {
    if |log| == 0 then 0 else Hellos(log[..|log| - 1]) + if log[|log| - 1].m.SendHello? then 1 else 0
  }

  lemma {:induction false} HellosMore(log: seq<Sent>, s: Sent)
    ensures Hellos(log + [s]) == Hellos(log) + if s.m.SendHello? then 1 else 0
  {
    var all := log + [s];
    assert all[..|all| - 1] == log;
  }

  /** The packet alone tells every receiver exactly what was put into it. */
  ghost predicate Standalone(f: Frame) {
    AllOk(f.msgs) && forall rx :: PacketEvents(rx, f.packet) == DeliveredAll(rx, Stamped(f.msgs, f.time))
  }

  /** Standalone if it left, and with at most one Hello, on which link quality estimation relies. */
  ghost predicate FrameOk(f: Frame) { (f.sent ==> Standalone(f)) && Hellos(f.msgs) <= 1 && AllOk(f.msgs) }

  ghost predicate FramesOk(fs: seq<Frame>) { forall f | f in fs :: FrameOk(f) }

  function Written(fs: seq<Frame>): seq<Sent> {
    if |fs| == 0 then [] else Written(fs[..|fs| - 1]) + fs[|fs| - 1].msgs
  }

  function OnWire(fs: seq<Frame>): seq<seq<u8>> {
    if |fs| == 0 then []
    else OnWire(fs[..|fs| - 1]) + if fs[|fs| - 1].sent then [fs[|fs| - 1].packet] else []
  }

  lemma {:induction false} AddFrame(fs: seq<Frame>, f: Frame)
    ensures Written(fs + [f]) == Written(fs) + f.msgs
    ensures OnWire(fs + [f]) == OnWire(fs) + if f.sent then [f.packet] else []
  {
    var all := fs + [f];
    assert all[..|all| - 1] == fs;
  }

  /** What a receiver makes of the packets it gets, each read on its own. */
  function Heard(rx: Receiver, packets: seq<seq<u8>>): seq<Event> {
    if |packets| == 0 then [] else Heard(rx, packets[..|packets| - 1]) + PacketEvents(rx, packets[|packets| - 1])
  }

  function Kept(fs: seq<Frame>): seq<Sent> {
    if |fs| == 0 then []
    else Kept(fs[..|fs| - 1]) + if fs[|fs| - 1].sent then Stamped(fs[|fs| - 1].msgs, fs[|fs| - 1].time) else []
  }

  lemma {:induction false} DeliveredConcat(rx: Receiver, a: seq<Sent>, b: seq<Sent>)
    requires AllOk(a) && AllOk(b)
    ensures AllOk(a + b) && DeliveredAll(rx, a + b) == DeliveredAll(rx, a) + DeliveredAll(rx, b)
    decreases |b|
  {
    if |b| == 0 {
      assert a + b == a;
    } else {
      var c := b[..|b| - 1];
      DeliveredConcat(rx, a, c);
      assert (a + b)[..|a + b| - 1] == a + c && (a + b)[|a + b| - 1] == b[|b| - 1];
      Regroup(DeliveredAll(rx, a), DeliveredAll(rx, c), DeliveredOne(rx, b[|b| - 1]));
    }
  }

  /** Losing packets loses what was in them and nothing else: a receiver hears, in order, exactly the messages
      of the packets that left. */
  lemma {:induction false} HeardIsKept(rx: Receiver, fs: seq<Frame>)
    requires FramesOk(fs)
    ensures AllOk(Kept(fs)) && Heard(rx, OnWire(fs)) == DeliveredAll(rx, Kept(fs))
  {
    if |fs| > 0 {
      var before, f := fs[..|fs| - 1], fs[|fs| - 1];
      assert f in fs;
      assert FrameOk(f);
      HeardIsKept(rx, before);
      if f.sent {
        var w := OnWire(before) + [f.packet];
        assert w[..|w| - 1] == OnWire(before);
        DeliveredConcat(rx, Kept(before), Stamped(f.msgs, f.time));
      } else {
        assert OnWire(fs) == OnWire(before) && Kept(fs) == Kept(before);
      }
    }
  }

  /** The message as it is before its time stamp is filled in. */
  function Unstamped(s: Sent): Sent {
    if s.m.SendHello? && s.m.stamp.At? then s.(m := s.m.(stamp := Blank)) else s
  }

  /** The same messages, but for time stamps filled in. */
  predicate SameButStamps(a: seq<Sent>, b: seq<Sent>) {
    |a| == |b| && forall i | 0 <= i < |a| :: Unstamped(a[i]) == Unstamped(b[i])
  }

  lemma {:induction false} StampedSame(log: seq<Sent>, time: u32)
    ensures SameButStamps(log, Stamped(log, time))
  {
  }

  lemma {:induction false} SameConcat(a: seq<Sent>, b: seq<Sent>, c: seq<Sent>, d: seq<Sent>)
    requires SameButStamps(a, b) && SameButStamps(c, d)
    ensures SameButStamps(a + c, b + d)
  {
    hide Unstamped;
  }

  /** When no packet is dropped, the receiver hears everything that was written. */
  lemma {:induction false} KeptAll(fs: seq<Frame>)
    requires forall f | f in fs :: f.sent
    ensures SameButStamps(Written(fs), Kept(fs))
  {
    hide Filled, SameButStamps;
    if |fs| == 0 {
      StampedSame([], 0);
      assert Stamped([], 0) == [];
    } else {
      var before, f := fs[..|fs| - 1], fs[|fs| - 1];
      KeptAll(before);
      StampedSame(f.msgs, f.time);
      SameConcat(Written(before), Kept(before), f.msgs, Stamped(f.msgs, f.time));
    }
  }
}
