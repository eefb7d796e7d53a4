/** The send buffer of an interface: messages are gathered into packets that stand alone. */
module BabelInterface {
  import opened Basics
  import opened Address
  import opened BabelPrefix
  import opened BabelTlv
  import opened BabelDecode
  import opened BabelEncode
  import opened BabelRoundTrip
  import opened BabelSend
  import opened BabelOrder

  /** The room that an Update and all it depends on is granted. */
  const WORST_CASE := 60

  /** The one TLV of a message other than an Update. */
  function TlvOf(m: Message): (t: Tlv)
    requires !m.SendUpdate? && (m.SendRequest? || m.SendSeqnoRequest? ==> Masked(m.prefix))
    ensures t.Tlv? && Fits(t) && |t.body| <= 32
  {
    match m
    case SendHello(seqno, interval, stamp) => Tlv(HELLO, HelloBody(seqno, interval, stamp))
    case SendIhu(_, _, _, _) => IhuTlv(m)
    case SendRetractAll(seqno) => Tlv(UPDATE, RetractBody(seqno))
    case SendRequestAll => Tlv(REQUEST, [0, 0])
    case SendRequest(p) => Tlv(REQUEST, RequestBody(p))
    case SendSeqnoRequest(p, seqno, hops, id) => Tlv(MH_REQUEST, SeqnoRequestBody(p, seqno, hops, id))
  }

  function Clip(interval: nat): u16 { if interval > 0xFFFF then 0xFFFF else interval }

  lemma {:induction false} SerialMore(ts: seq<Tlv>, t: Tlv)
    requires AllFit(ts) && Fits(t)
    ensures AllFit(ts + [t]) && Serial(ts + [t]) == Serial(ts) + Bytes(t)
  {
    assert [t][1..] == [];
    SerialConcat(ts, [t]);
  }

  /** The largest body of a packet that fits in a datagram together with its header. */
  const LARGEST := 65523

  // ---- Where the Hello is

  /** The Hello in the buffer is the TLV `h`, at offset `at`; it alone has room for a time stamp, if wanted. */
  predicate HelloIs(tlvs: seq<Tlv>, at: nat, h: nat, stamps: bool) {
    && h < |tlvs| && AllFit(tlvs) && |Serial(tlvs[..h])| == at
    && tlvs[h].Tlv? && (stamps <==> Padded(tlvs[h]))
    && forall i | 0 <= i < |tlvs| && i != h :: !Padded(tlvs[i])
  }

  ghost predicate HelloPlaced(tlvs: seq<Tlv>, hello: Option<nat>, stamps: bool) {
    if hello.None? then NonePadded(tlvs) else exists h :: HelloIs(tlvs, hello.value, h, stamps)
  }

  lemma {:induction false} HelloStays(tlvs: seq<Tlv>, hello: Option<nat>, stamps: bool, more: seq<Tlv>)
    requires HelloPlaced(tlvs, hello, stamps) && NonePadded(more) && AllFit(more)
    ensures HelloPlaced(tlvs + more, hello, stamps)
  {
    hide Serial, Padded, Fits;
    if hello.Some? {
      var h: nat :| HelloIs(tlvs, hello.value, h, stamps);
      var all := tlvs + more;
      assert all[..h] == tlvs[..h];
      forall i | 0 <= i < |all| && i != h ensures !Padded(all[i]) {
        if i >= |tlvs| {
          assert all[i] in more;
        }
      }
      assert HelloIs(all, hello.value, h, stamps);
    }
  }

  lemma {:induction false} HelloComes(tlvs: seq<Tlv>, stamps: bool, t: Tlv)
    requires HelloPlaced(tlvs, None, stamps) && AllFit(tlvs) && Fits(t) && t.Tlv? && (stamps <==> Padded(t))
    ensures HelloPlaced(tlvs + [t], Some(|Serial(tlvs)|), stamps)
  {
    hide Serial, Padded, Fits;
    var all := tlvs + [t];
    assert all[..|tlvs|] == tlvs;
    assert HelloIs(all, |Serial(tlvs)|, |tlvs|, stamps);
  }

  /** Filling in the time in place gives the TLVs with the time filled in. */
  lemma {:induction false} StampSerial(tlvs: seq<Tlv>, at: nat, h: nat, time: u32)
    requires HelloIs(tlvs, at, h, true)
    ensures
      var b := Serial(tlvs);
      && at + 14 <= |b| && b[at + 8] == 1 && b[at + 9] == 4
      && Serial(StampTlvs(tlvs, time)) == b[..at + 8] + [3, 4] + Long(time) + b[at + 14..]
  {
    hide Serial, Bytes, Padded;
    var t, u := tlvs[h], StampTlv(tlvs[h], time);
    var before, after := Serial(tlvs[..h]), Serial(tlvs[h + 1..]);
    SerialAround(tlvs, h, t);
    SerialAround(tlvs, h, u);
    assert tlvs[h := t] == tlvs;
    assert StampTlvs(tlvs, time) == tlvs[h := u];
    StampPatches(t, time);
    PatchAt(before, Bytes(t), after, Bytes(u));
  }

  lemma {:induction false} StampPatches(t: Tlv, time: u32)
    requires Fits(t) && Padded(t)
    ensures
      var b := Bytes(t);
      |b| == 14 && b[8] == 1 && b[9] == 4 && Bytes(StampTlv(t, time)) == b[..8] + [3, 4] + Long(time)
  {
    assert Bytes(t)[..8] == [HELLO, 12] + t.body[..6];
  }

  lemma {:induction false} PatchAt(before: seq<u8>, mid: seq<u8>, after: seq<u8>, patch: seq<u8>)
    requires |mid| == |patch| == 14 && patch[..8] == mid[..8]
    ensures
      var b, at := before + mid + after, |before|;
      && b[at + 8] == mid[8] && b[at + 9] == mid[9]
      && before + patch + after == b[..at + 8] + patch[8..] + b[at + 14..]
  {
    var b, at := before + mid + after, |before|;
    assert b[..at + 8] == before + mid[..8] && b[at + 14..] == after;
    assert patch == patch[..8] + patch[8..];
  }

  lemma {:induction false} SerialAround(ts: seq<Tlv>, h: nat, t: Tlv)
    requires AllFit(ts) && h < |ts| && Fits(t)
    ensures AllFit(ts[h := t]) && Serial(ts[h := t]) == Serial(ts[..h]) + Bytes(t) + Serial(ts[h + 1..])
  {
    hide Serial, Bytes, Fits;
    SerialMore(ts[..h], t);
    SerialConcat(ts[..h] + [t], ts[h + 1..]);
    assert ts[h := t] == ts[..h] + [t] + ts[h + 1..];
  }

  // ---- The books

  /** The packets so far and the TLVs since hold the whole log, and the packets stand alone. */
  ghost predicate Books(tlvs: seq<Tlv>, msgs: seq<Sent>, enc: Encoder, hello: Option<nat>, stamps: bool,
                        frames: seq<Frame>, wire: seq<seq<u8>>, log: seq<Sent>)
  {
    && CarriesStamped(tlvs, msgs, enc) && (tlvs == [] ==> msgs == [])
    && HelloPlaced(tlvs, hello, stamps) && Hellos(msgs) <= (if hello.Some? then 1 else 0)
    && FramesOk(frames) && wire == OnWire(frames) && log == Written(frames) + msgs
  }

  lemma {:induction false} BooksEmpty(stamps: bool, frames: seq<Frame>, wire: seq<seq<u8>>, log: seq<Sent>)
    requires FramesOk(frames) && wire == OnWire(frames) && log == Written(frames)
    ensures Books([], [], EMPTY, None, stamps, frames, wire, log)
  {
    CarriesStampedNothing();
    assert Written(frames) + [] == Written(frames);
  }

  /** Nothing has been written since the last packet. */
  lemma {:induction false} BooksIdle(tlvs: seq<Tlv>, msgs: seq<Sent>, enc: Encoder, hello: Option<nat>, stamps: bool,
                                     frames: seq<Frame>, wire: seq<seq<u8>>, log: seq<Sent>)
    requires Books(tlvs, msgs, enc, hello, stamps, frames, wire, log) && Serial(tlvs) == []
    ensures Books([], [], EMPTY, None, stamps, frames, wire, log)
  {
    SerialEmpty(tlvs);
    assert Written(frames) + [] == Written(frames);
    BooksEmpty(stamps, frames, wire, log);
  }

  /** A finished packet, sent or dropped. */
  lemma {:induction false} BooksShipped(tlvs: seq<Tlv>, msgs: seq<Sent>, enc: Encoder, hello: Option<nat>, stamps: bool,
                                        frames: seq<Frame>, wire: seq<seq<u8>>, log: seq<Sent>, f: Frame)
    requires Books(tlvs, msgs, enc, hello, stamps, frames, wire, log) && f.msgs == msgs
    requires f.sent ==> |Serial(StampTlvs(tlvs, f.time))| < 0x10000
    requires f.sent ==> f.packet == Packet(Serial(StampTlvs(tlvs, f.time)))
    ensures Books([], [], EMPTY, None, stamps, frames + [f], wire + if f.sent then [f.packet] else [], log)
  {
    hide HelloPlaced;
    FrameMade(tlvs, msgs, enc, f);
    AddFrame(frames, f);
    BooksEmpty(stamps, frames + [f], wire + if f.sent then [f.packet] else [], log);
  }

  lemma {:induction false} BooksMore(tlvs: seq<Tlv>, msgs: seq<Sent>, enc: Encoder, hello: Option<nat>, stamps: bool,
                                     frames: seq<Frame>, wire: seq<seq<u8>>, log: seq<Sent>, snd: Sender, m: Message)
    requires Books(tlvs, msgs, enc, hello, stamps, frames, wire, log) && MessageOk(snd, m)
    requires m.SendHello? ==> hello.None? && m.stamp == if stamps then Blank else Absent
    ensures Books(tlvs + Emit(snd, enc, m), msgs + [Sent(snd, m)], Next(snd, enc, m),
                  if m.SendHello? then Some(|Serial(tlvs)|) else hello, stamps, frames, wire, log + [Sent(snd, m)])
  {
    hide CarriesStamped, HelloPlaced, Hellos, Written, FramesOk, OnWire, Next;
    assert AllFit(tlvs) by { StampedFits(tlvs, msgs, enc); }
    CarriesStampedMore(tlvs, msgs, enc, snd, m);
    HellosMore(msgs, Sent(snd, m));
    Regroup(Written(frames), msgs, [Sent(snd, m)]);
    EmitsSomething(snd, enc, m);
    EmitFits(snd, enc, m);
    if m.SendHello? {
      HelloPads(m);
      HelloComes(tlvs, stamps, Tlv(HELLO, HelloBody(m.seqno, m.interval, m.stamp)));
    } else {
      EmitPadded(snd, enc, m);
      HelloStays(tlvs, hello, stamps, Emit(snd, enc, m));
    }
  }

  lemma {:induction false} StampedFits(tlvs: seq<Tlv>, msgs: seq<Sent>, enc: Encoder)
    requires CarriesStamped(tlvs, msgs, enc)
    ensures AllFit(tlvs)
  {
  }

  lemma {:induction false} HelloPads(m: Message)
    requires m.SendHello? && !m.stamp.At?
    ensures Padded(Tlv(HELLO, HelloBody(m.seqno, m.interval, m.stamp))) <==> m.stamp == Blank
  {
    var b := HelloBody(m.seqno, m.interval, m.stamp);
    if m.stamp == Blank {
      assert b[6..] == HelloStampBytes(Blank) && b[6] == b[6..][0] && b[7] == b[6..][1];
    }
  }

  lemma {:induction false} EmitsSomething(snd: Sender, enc: Encoder, m: Message)
    requires MessageOk(snd, m)
    ensures |Emit(snd, enc, m)| > 0
  {
  }

  lemma {:induction false} EmitSingle(snd: Sender, enc: Encoder, m: Message)
    requires MessageOk(snd, m) && !m.SendUpdate?
    ensures Emit(snd, enc, m) == [TlvOf(m)]
    ensures Next(snd, enc, m) == if m.SendRetractAll? then enc.(id := None) else enc
  {
  }

  lemma {:induction false} BooksSingle(tlvs: seq<Tlv>, msgs: seq<Sent>, enc: Encoder, hello: Option<nat>, stamps: bool,
                                       frames: seq<Frame>, wire: seq<seq<u8>>, log: seq<Sent>, snd: Sender, m: Message,
                                       t: Tlv)
    requires Books(tlvs, msgs, enc, hello, stamps, frames, wire, log) && MessageOk(snd, m)
    requires m.SendHello? ==> hello.None? && m.stamp == if stamps then Blank else Absent
    requires !m.SendUpdate? && t == TlvOf(m)
    ensures Books(tlvs + [t], msgs + [Sent(snd, m)], if m.SendRetractAll? then enc.(id := None) else enc,
                  if m.SendHello? then Some(|Serial(tlvs)|) else hello, stamps, frames, wire, log + [Sent(snd, m)])
  {
    BooksMore(tlvs, msgs, enc, hello, stamps, frames, wire, log, snd, m);
    EmitSingle(snd, enc, m);
  }

  /** The fields of an Update in the order they are written. */
  method UpdateBody(snd: Sender, m: Message, flags: u8, omit: nat, ghost enc: Encoder) returns (body: seq<u8>)
    requires m.SendUpdate? && MessageOk(snd, m) && flags == Flags(enc, m.id, m.prefix) && omit == Omitted(enc, m.prefix)
    ensures body == UpdateTlv(snd, enc, m).body
  {
    hide Flags, Mask;
    var p := m.prefix;
    var family, length := 2, p.plen as int;
    if IsV4(p) {
      family, length := 1, p.plen as int - 96;
    }
    var head := [family, flags, length, omit] + Short(snd.interval) + Short(m.seqno) + Short(m.metric);
    assert head == UpdateHead(snd, enc, m);
    var n := (length + 7) / 8;
    var tail := if IsV4(p) then p.addr[12..12 + n] else p.addr[omit..n];
    var attributes := if m.channels.Some? then [2, |m.channels.value|] + m.channels.value else [];
    body := head + tail + attributes;
  }

  class Interface {
    const sendbuf: array<u8>
    var buffered: nat
    var enc: Encoder
    /** Whether Hellos carry the time they are sent. */
    const timestamps: bool
    /** Where the Hello in the buffer is, if there is one. */
    var hello: Option<nat>
    /** Destinations whose updates are to be sent. */
    var pending: seq<Prefix>
    var env: Env
    /** The packets that have left. */
    var wire: seq<seq<u8>>
    ghost var tlvs: seq<Tlv>
    ghost var msgs: seq<Sent>
    ghost var frames: seq<Frame>
    /** All messages ever written, in order. */
    ghost var log: seq<Sent>

    ghost predicate Sized()
      reads this
    {
      64 <= sendbuf.Length && buffered <= sendbuf.Length
    }

    /** The bytes in the buffer. */
    ghost function Contents(): seq<u8>
      requires buffered <= sendbuf.Length
      reads this, sendbuf
    {
      sendbuf[..buffered]
    }

    /** All but the bytes. */
    ghost predicate Consistent()
      reads this
    {
      && Sized() && EnvOk(env) && AllMasked(pending)
      && Books(tlvs, msgs, enc, hello, timestamps, frames, wire, log)
    }

    /** The buffer holds whole TLVs that tell the messages since the last packet. */
    ghost predicate Valid()
      reads this, sendbuf
    {
      Consistent() && Contents() == Serial(tlvs)
    }

    ghost predicate Empty()
      reads this
    {
      tlvs == [] && msgs == [] && enc == EMPTY && pending == []
    }

    predicate Room(n: nat)
      reads this
    {
      sendbuf.Length - buffered >= n
    }

    constructor (mtu: nat, timestamps: bool, env: Env)
      requires EnvOk(env)
      ensures Valid() && Empty() && log == [] && fresh(sendbuf)
    {
      var m := if mtu < 128 then 128 else mtu;
      sendbuf := new u8[m - 64];
      buffered, enc, hello, pending, wire := 0, EMPTY, None, [], [];
      this.env, this.timestamps := env, timestamps;
      tlvs, msgs, frames, log := [], [], [], [];
      new;
      BooksEmpty(timestamps, frames, wire, log);
    }

    // ---- Bytes

    method Accumulate(b: seq<u8>)
      requires Room(|b|)
      modifies this`buffered, sendbuf
      ensures buffered == old(buffered) + |b| <= sendbuf.Length && Contents() == old(Contents()) + b
    {
      var i := 0;
      while i < |b|
        invariant i <= |b| && buffered == old(buffered) + i && buffered <= sendbuf.Length
        invariant sendbuf[..buffered] == old(sendbuf[..buffered]) + b[..i]
      {
        sendbuf[buffered] := b[i];
        buffered := buffered + 1;
        i := i + 1;
      }
      assert b[..i] == b;
    }

    /** start_message: flushes first when there is no room. */
    method StartMessage(kind: u8, len: u8)
      requires Sized() && len <= 60 && (Room(len as int + 2) || Valid())
      modifies this, sendbuf
      ensures Sized() && Room(len as int)
      ensures old(Room(len as int + 2)) ==>
                && buffered == old(buffered) + 2 && Contents() == old(Contents()) + [kind, len]
                && unchanged(`enc, `hello, `pending, `env, `wire, `tlvs, `msgs, `frames, `log)
      ensures !old(Room(len as int + 2)) ==>
                && Consistent() && Empty() && hello.None? && env == old(env) && Contents() == [kind, len]
                && log == old(log) + Due(old(env), old(pending))
      decreases |pending|, 3
    {
      if sendbuf.Length - buffered < len as int + 2 {
        FlushBuf();
      }
      Accumulate([kind, len]);
    }

    /** end_message: the TLV just written is where its start was put. */
    method EndMessage(kind: u8, bytes: u8, ghost body: seq<u8>)
      requires Sized() && AllFit(tlvs) && kind != 0 && |body| == bytes as int
      requires Contents() == Serial(tlvs) + [kind, bytes] + body
      modifies this`tlvs
      ensures tlvs == old(tlvs) + [Tlv(kind, body)] && AllFit(tlvs) && Contents() == Serial(tlvs)
    {
      hide Serial;
      ghost var t := Tlv(kind, body);
      SerialMore(tlvs, t);
      ghost var at := |Serial(tlvs)|;
      assert Contents()[at] == kind && Contents()[at + 1] == bytes && at == buffered - bytes as int - 2;
      assert buffered >= bytes as int + 2
          && sendbuf[buffered - bytes as int - 2] == kind && sendbuf[buffered - bytes as int - 1] == bytes;
      assert Serial(tlvs) + [kind, bytes] + body == Serial(tlvs) + Bytes(t);
      tlvs := tlvs + [t];
    }

    method WriteTlv(kind: u8, body: seq<u8>)
      requires Sized() && AllFit(tlvs) && Contents() == Serial(tlvs)
      requires kind != 0 && |body| <= 58 && Room(|body| + 2)
      modifies this, sendbuf
      ensures Sized() && AllFit(tlvs) && Contents() == Serial(tlvs)
      ensures tlvs == old(tlvs) + [Tlv(kind, body)] && buffered == old(buffered) + |body| + 2
      ensures unchanged(`enc, `hello, `pending, `env, `wire, `msgs, `frames, `log)
      decreases |pending|, 4
    {
      StartMessage(kind, |body|);
      FinishTlv(kind, body);
    }

    // ---- Flushing

    /** flushbuf: `pending` goes out first, then the packet; afterwards nothing is remembered. */
    method FlushBuf()
      requires Valid()
      modifies this, sendbuf
      ensures Valid() && Empty() && buffered == 0 && hello.None? && env == old(env)
      ensures log == old(log) + Due(old(env), old(pending))
      decreases |pending|, 1
    {
      FlushUpdates();
      FlushPacket();
    }

    method FlushPacket()
      requires Valid() && pending == []
      modifies this, sendbuf
      ensures Valid() && Empty() && buffered == 0 && hello.None? && env == old(env) && log == old(log)
    {
      assert Serial([]) == [];
      hide Books, EnvOk, AllMasked, Serial;
      if buffered > 0 {
        Transmit();
      } else {
        BooksIdle(tlvs, msgs, enc, hello, timestamps, frames, wire, log);
      }
      buffered, hello, enc, tlvs, msgs := 0, None, EMPTY, [], [];
    }

    /** A packet is dropped if the bucket is empty, or the socket does not take it. */
    method Transmit()
      requires Valid()
      modifies `wire, `frames, sendbuf
      ensures Books([], [], EMPTY, None, timestamps, frames, wire, log)
    {
      hide Books, EnvOk, AllMasked, Serial;
      var time: u32 := *;
      var sent: bool := *;
      sent := sent && buffered <= LARGEST;
      var header := [42, 2] + Short(buffered % 0x1_0000);
      if sent {
        FillStamp(time);
      }
      var packet := header + sendbuf[..buffered];
      ghost var f := Frame(packet, msgs, time, sent);
      BooksShipped(tlvs, msgs, enc, hello, timestamps, frames, wire, log, f);
      wire, frames := wire + if sent then [packet] else [], frames + [f];
    }

    /** fill_rtt_message: the padding in the Hello becomes the time of sending; there always is such padding. */
    method FillStamp(time: u32)
      requires Valid()
      modifies sendbuf
      ensures Contents() == Serial(StampTlvs(tlvs, time)) && |Contents()| == buffered
    {
      hide Serial, Books;
      BooksPlaced(tlvs, msgs, enc, hello, timestamps, frames, wire, log);
      if timestamps && hello.Some? {
        var at := hello.value;
        ghost var h: nat :| HelloIs(tlvs, at, h, true);
        StampSerial(tlvs, at, h, time);
        ghost var b := Contents();
        if sendbuf[at + 8] == 1 && sendbuf[at + 9] == 4 {
          sendbuf[at + 8] := 3;
          var long := Long(time);
          sendbuf[at + 10], sendbuf[at + 11], sendbuf[at + 12], sendbuf[at + 13] := long[0], long[1], long[2], long[3];
        }
        assert Contents() == b[..at + 8] + [3, 4] + Long(time) + b[at + 14..];
      } else {
        NothingToStamp(tlvs, hello, timestamps, time);
      }
    }

    method EnsureSpace(space: nat)
      requires Valid() && space <= 64
      modifies this, sendbuf
      ensures Valid() && Room(space) && env == old(env)
      ensures old(Room(space)) ==> unchanged(this, sendbuf)
      ensures !old(Room(space)) ==> Empty() && log == old(log) + Due(old(env), old(pending))
      decreases |pending|, 2
    {
      if sendbuf.Length - buffered < space {
        FlushBuf();
      }
    }

    /** flushupdates. */
    method FlushUpdates()
      requires Valid()
      modifies this, sendbuf
      ensures Valid() && pending == [] && env == old(env)
      ensures log == old(log) + Due(old(env), old(pending))
      decreases |pending|, 0
    {
      hide Books, Answer, NextLast, Serial;
      if |pending| == 0 {
        return;
      }
      SortedMasked(env, pending);
      var b := SortUpdates(env, pending);
      pending := [];
      if !env.up {
        NothingWhenDown(env, b, None);
        return;
      }
      var i, last := 0, None;
      assert b[0..] == b;
      while i < |b|
        invariant i <= |b| && Valid() && pending == [] && env == old(env) && AllMasked(b)
        invariant log + Announced(env, b[i..], last) == old(log) + Announced(env, b, None)
      {
        var p := b[i];
        ghost var before := log;
        assert b[i..][1..] == b[i + 1..];
        if last != Some(p) {
          SendAnswer(p);
          last := NextLast(env, p, last);
          Regroup(before, Answer(env, p), Announced(env, b[i + 1..], last));
        }
        i := i + 1;
      }
      assert b[i..] == [];
      assert log + [] == log;
    }

    method SendAnswer(p: Prefix)
      requires Valid() && pending == [] && Masked(p)
      modifies this, sendbuf
      ensures Valid() && pending == [] && env == old(env) && log == old(log) + Answer(env, p)
      decreases |pending|, 9
    {
      match env.table(p)
      case Xroute(metric) =>
        ReallySendUpdate(env.myid, p, env.myseqno, metric, Some([]));
      case Installed(id, seqno, metric, channels, hidden) =>
        if !hidden {
          ReallySendUpdate(id, p, seqno, metric, Some(channels));
        }
      case NoRoute =>
        ReallySendUpdate(env.myid, p, env.myseqno, INFINITY, None);
    }

    // ---- Updates

    method PutNextHop(p: Prefix, ghost m: Message)
      requires Sized() && AllFit(tlvs) && Contents() == Serial(tlvs) && Room(8)
      requires m.SendUpdate? && m.prefix == p && MessageOk(env.snd, m)
      modifies this, sendbuf
      ensures Sized() && AllFit(tlvs) && Contents() == Serial(tlvs) && buffered <= old(buffered) + 8
      ensures tlvs == old(tlvs) + NextHopPart(old(env).snd, old(enc), m)
      ensures enc == old(enc).(nh := if IsV4(p) then old(env).snd.ipv4 else old(enc).nh)
      ensures unchanged(`hello, `pending, `env, `wire, `msgs, `frames, `log)
      decreases |pending|, 5
    {
      if IsV4(p) && enc.nh != env.snd.ipv4 {
        WriteTlv(NEXT_HOP, [1, 0] + env.snd.ipv4.value);
        enc := enc.(nh := env.snd.ipv4);
      } else {
        assert tlvs + [] == tlvs;
      }
    }

    /** The router-id, in the Update itself if its prefix ends in it. */
    method PutId(id: Id, p: Prefix, ghost m: Message) returns (flag: u8)
      requires Sized() && AllFit(tlvs) && Contents() == Serial(tlvs) && Room(12)
      requires m.SendUpdate? && m.prefix == p && m.id == id
      modifies this, sendbuf
      ensures Sized() && AllFit(tlvs) && Contents() == Serial(tlvs) && buffered <= old(buffered) + 12
      ensures tlvs == old(tlvs) + IdPart(old(enc), m)
      ensures flag == if NeedsId(old(enc), id) && IdInPrefix(id, p) then 0x40 else 0
      ensures enc == old(enc).(id := Some(id))
      ensures unchanged(`hello, `pending, `env, `wire, `msgs, `frames, `log)
      decreases |pending|, 5
    {
      flag := 0;
      if enc.id != Some(id) {
        if !IsV4(p) && p.plen == 128 && p.addr[8..] == id {
          flag := 0x40;
          assert tlvs + [] == tlvs;
        } else {
          WriteTlv(ROUTER_ID, Short(0) + id);
        }
        enc := enc.(id := Some(id));
      } else {
        assert tlvs + [] == tlvs;
      }
    }

    /** How many leading bytes the last prefix already has. */
    method CountOmitted(p: Prefix) returns (omit: nat)
      requires p.plen <= 128
      ensures omit == Omitted(enc, p)
    {
      omit := 0;
      if !IsV4(p) && enc.prefix.Some? {
        while omit < p.plen / 8 && enc.prefix.value[omit] == p.addr[omit]
          invariant omit <= p.plen / 8 && enc.prefix.value[..omit] == p.addr[..omit]
          invariant CommonFrom(enc.prefix.value, p.addr, p.plen / 8, 0)
                 == CommonFrom(enc.prefix.value, p.addr, p.plen / 8, omit)
        {
          omit := omit + 1;
        }
      }
    }

    /** really_send_update: once there is room for the worst case, nothing is flushed before the Update is complete. */
    method ReallySendUpdate(id: Id, p: Prefix, seqno: u16, metric: u16, channels: Option<seq<u8>>)
      requires Valid() && pending == [] && Masked(p) && (channels.Some? ==> ChannelsOk(channels.value))
      modifies this, sendbuf
      ensures Valid() && pending == [] && env == old(env)
      ensures log == old(log) + Outgoing(env, id, p, seqno, metric, channels)
      decreases |pending|, 8
    {
      var add := env.filter(id, p);
      if !env.up || add >= INFINITY {
        assert log + [] == log;
        return;
      }
      EnsureSpace(WORST_CASE);
      assert log + [] == log;
      if IsV4(p) && env.snd.ipv4.None? {
        return;
      }
      var chosen := if env.diversity then channels else None;
      var m := SendUpdate(id, p, seqno, Plus(metric, add), chosen);
      WriteUpdate(m);
    }

    method WriteUpdate(m: Message)
      requires Valid() && Room(WORST_CASE) && m.SendUpdate? && MessageOk(env.snd, m)
      modifies this, sendbuf
      ensures Valid() && log == old(log) + [Sent(env.snd, m)]
      ensures unchanged(`hello, `pending, `env, `wire, `frames)
      decreases |pending|, 7
    {
      hide Emit, Next;
      BooksMore(tlvs, msgs, enc, hello, timestamps, frames, wire, log, env.snd, m);
      WriteParts(m);
      Logged(m);
    }

    method WriteParts(m: Message)
      requires Sized() && AllFit(tlvs) && Contents() == Serial(tlvs) && Room(WORST_CASE)
      requires m.SendUpdate? && MessageOk(env.snd, m)
      modifies this, sendbuf
      ensures unchanged(`hello, `pending, `env, `wire, `msgs, `frames, `log)
      ensures Sized() && AllFit(tlvs) && Contents() == Serial(tlvs)
      ensures tlvs == old(tlvs) + Emit(old(env).snd, old(enc), m) && enc == Next(old(env).snd, old(enc), m)
      decreases |pending|, 6
    {
      hide Emit, Next, NextHopPart, UpdateTlv, Omitted, IdInPrefix, Serial;
      var p := m.prefix;
      ghost var enc0, tlvs0 := enc, tlvs;
      var omit := CountOmitted(p);
      var keep := !IsV4(p) && (enc.prefix.None? || p.plen >= 48);
      PutNextHop(p, m);
      var flag := PutId(m.id, p, m);
      PutUpdate(m, (if keep then 0x80 else 0) + flag, omit, enc0);
      if keep {
        enc := enc.(prefix := Some(p.addr));
      }
      EmitParts(tlvs0, env.snd, enc0, m);
    }

    /** The Update itself. */
    method PutUpdate(m: Message, flags: u8, omit: nat, ghost enc0: Encoder)
      requires Sized() && AllFit(tlvs) && Contents() == Serial(tlvs) && Room(38)
      requires m.SendUpdate? && MessageOk(env.snd, m)
      requires flags == Flags(enc0, m.id, m.prefix) && omit == Omitted(enc0, m.prefix)
      modifies this, sendbuf
      ensures unchanged(`enc, `hello, `pending, `env, `wire, `msgs, `frames, `log)
      ensures Sized() && AllFit(tlvs) && Contents() == Serial(tlvs)
      ensures tlvs == old(tlvs) + [UpdateTlv(old(env).snd, enc0, m)]
      decreases |pending|, 5
    {
      UpdateFits(env.snd, enc0, m);
      var body := UpdateBody(env.snd, m, flags, omit, enc0);
      WriteTlv(UPDATE, body);
    }

    /** buffer_update: a full list of pending updates is sent first. */
    method BufferUpdate(p: Prefix, capacity: nat)
      requires Valid() && Masked(p)
      modifies this, sendbuf
      ensures Valid() && env == old(env)
      ensures if 0 < |old(pending)| && |old(pending)| >= capacity
              then pending == [p] && log == old(log) + Due(old(env), old(pending))
              else pending == old(pending) + [p] && log == old(log)
    {
      if |pending| > 0 && |pending| >= capacity {
        FlushUpdates();
      }
      pending := pending + [p];
    }

    /** The tables, the address of the interface and the like change. */
    method Reconfigure(next: Env)
      requires Valid() && EnvOk(next)
      modifies `env
      ensures Valid() && env == next
    {
      env := next;
    }

    // ---- Other messages

    /** Writes a message of one TLV, after a flush if there is no room for it. */
    method SendSingle(m: Message)
      requires Valid() && !m.SendUpdate? && MessageOk(env.snd, m)
      requires m.SendHello? ==> hello.None? && m.stamp == if timestamps then Blank else Absent
      modifies this, sendbuf
      ensures Valid() && env == old(env)
      ensures var flushed := !old(Room(|TlvOf(m).body| + 2));
              && pending == (if flushed then [] else old(pending))
              && log == old(log) + (if flushed then Due(old(env), old(pending)) else []) + [Sent(env.snd, m)]
    {
      hide Books, TlvOf, Serial, EnvOk, AllMasked, Clip;
      var t := TlvOf(m);
      BeginSingle(t);
      BooksSingle(tlvs, msgs, enc, hello, timestamps, frames, wire, log, env.snd, m, t);
      var next := if m.SendRetractAll? then enc.(id := None) else enc;
      var at := if m.SendHello? then Some(buffered - 2) else hello;
      FinishSingle(t.kind, t.body, next, at, Sent(env.snd, m));
    }

    method FinishSingle(kind: u8, body: seq<u8>, next: Encoder, at: Option<nat>, ghost s: Sent)
      requires Consistent() && kind != 0 && |body| < 0x100
      requires Contents() == Serial(tlvs) + [kind, |body|] && Room(|body|)
      requires Books(tlvs + [Tlv(kind, body)], msgs + [s], next, at, timestamps, frames, wire, log + [s])
      modifies this, sendbuf
      ensures Valid() && unchanged(`pending, `env) && log == old(log) + [s]
    {
      FinishTlv(kind, body);
      enc, hello, msgs, log := next, at, msgs + [s], log + [s];
    }

    method FinishTlv(kind: u8, body: seq<u8>)
      requires Sized() && AllFit(tlvs) && kind != 0 && |body| < 0x100 && Room(|body|)
      requires Contents() == Serial(tlvs) + [kind, |body|]
      modifies `buffered, `tlvs, sendbuf
      ensures Sized() && buffered == old(buffered) + |body| && tlvs == old(tlvs) + [Tlv(kind, body)]
      ensures AllFit(tlvs) && Contents() == Serial(tlvs)
    {
      Accumulate(body);
      EndMessage(kind, |body|, body);
    }

    method BeginSingle(t: Tlv)
      requires Valid() && t.Tlv? && Fits(t) && |t.body| <= 32
      modifies this, sendbuf
      ensures Consistent() && Contents() == Serial(tlvs) + [t.kind, |t.body|] && Room(|t.body|) && env == old(env)
      ensures old(hello).None? ==> hello.None?
      ensures var flushed := !old(Room(|t.body| + 2));
              && pending == (if flushed then [] else old(pending))
              && log == old(log) + if flushed then Due(old(env), old(pending)) else []
    {
      assert log + [] == log;
      StartMessage(t.kind, |t.body|);
    }

    function HelloOf(seqno: u16, interval: nat): Message {
      SendHello(seqno, Clip(interval), if timestamps then Blank else Absent)
    }

    /** send_hello_noupdate: a second Hello starts a new packet. */
    method SendHelloMessage(seqno: u16, interval: nat)
      requires Valid()
      modifies this, sendbuf
      ensures Valid() && env == old(env)
      ensures pending == old(pending) || pending == []
      ensures log == old(log)
                     + (if pending == old(pending) then [] else Due(old(env), old(pending)))
                     + (if env.up then [Sent(env.snd, HelloOf(seqno, interval))] else [])
    {
      assert log + [] == log;
      if hello.Some? {
        FlushBuf();
      }
      if env.up {
        SendSingle(HelloOf(seqno, interval));
      }
    }

    /** send_ihu and send_wildcard_retraction: nothing is sent while the interface is down. */
    method SendWhenUp(m: Message)
      requires Valid() && (m.SendIhu? || m.SendRetractAll?)
      modifies this, sendbuf
      ensures Valid() && env == old(env)
      ensures pending == old(pending) || pending == []
      ensures log == old(log)
                     + (if pending == old(pending) then [] else Due(old(env), old(pending)))
                     + (if env.up then [Sent(env.snd, m)] else [])
    {
      assert log + [] == log;
      if env.up {
        SendSingle(m);
      }
    }

    /** send_request and send_multihop_request: pending updates go out before the request. */
    method SendRequestMessage(m: Message)
      requires Valid() && (m.SendRequestAll? || m.SendRequest? || m.SendSeqnoRequest?) && MessageOk(env.snd, m)
      modifies this, sendbuf
      ensures Valid() && env == old(env) && pending == []
      ensures log == old(log) + Due(old(env), old(pending)) + (if env.up then [Sent(env.snd, m)] else [])
    {
      FlushUpdates();
      assert log + [] == log;
      if env.up {
        SendSingle(m);
      }
    }

    /** The message is complete. */
    ghost method Logged(m: Message)
      modifies `msgs, `log
      ensures msgs == old(msgs) + [Sent(env.snd, m)] && log == old(log) + [Sent(env.snd, m)]
    {
      msgs, log := msgs + [Sent(env.snd, m)], log + [Sent(env.snd, m)];
    }
  }

  lemma {:induction false} EmitParts(ts: seq<Tlv>, snd: Sender, enc: Encoder, m: Message)
    requires m.SendUpdate? && MessageOk(snd, m)
    ensures ts + NextHopPart(snd, enc, m) + IdPart(enc, m) + [UpdateTlv(snd, enc, m)] == ts + Emit(snd, enc, m)
    ensures Next(snd, enc, m) == Encoder(Some(m.id), if IsV4(m.prefix) then snd.ipv4 else enc.nh,
                                         if KeepsPrefix(enc, m.prefix) then Some(m.prefix.addr) else enc.prefix)
  {
  }

  lemma {:induction false} SerialEmpty(ts: seq<Tlv>)
    requires AllFit(ts) && Serial(ts) == []
    ensures ts == []
  {
  }

  lemma {:induction false} BooksPlaced(tlvs: seq<Tlv>, msgs: seq<Sent>, enc: Encoder, hello: Option<nat>, stamps: bool,
                                       frames: seq<Frame>, wire: seq<seq<u8>>, log: seq<Sent>)
    requires Books(tlvs, msgs, enc, hello, stamps, frames, wire, log)
    ensures AllFit(tlvs) && HelloPlaced(tlvs, hello, stamps)
  {
  }

  lemma {:induction false} NothingToStamp(tlvs: seq<Tlv>, hello: Option<nat>, stamps: bool, time: u32)
    requires HelloPlaced(tlvs, hello, stamps) && !(stamps && hello.Some?)
    ensures StampTlvs(tlvs, time) == tlvs
  {
    if hello.Some? {
      var h: nat :| HelloIs(tlvs, hello.value, h, stamps);
    }
    StampsNothing(tlvs, time);
  }

  lemma {:induction false} FrameMade(ts: seq<Tlv>, msgs: seq<Sent>, enc: Encoder, f: Frame)
    requires CarriesStamped(ts, msgs, enc) && Hellos(msgs) <= 1 && f.msgs == msgs
    requires f.sent ==> |Serial(StampTlvs(ts, f.time))| < 0x10000
    requires f.sent ==> f.packet == Packet(Serial(StampTlvs(ts, f.time)))
    ensures FrameOk(f)
  {
    if f.sent {
      forall rx ensures PacketEvents(rx, f.packet) == DeliveredAll(rx, Stamped(f.msgs, f.time)) {
        PacketDelivers(StampTlvs(ts, f.time), Stamped(msgs, f.time), enc, rx);
      }
    }
  }

  /** Whatever was done with an interface: a receiver hears, in order, exactly the messages of the packets that left;
      and if none was dropped, that is the whole log but for what is still in the buffer and for the time stamps, which
      are filled in when a packet leaves. */
  lemma {:induction false} ReceiverHears(i: Interface, rx: Receiver)
    requires i.Valid()
    ensures AllOk(Kept(i.frames)) && Heard(rx, i.wire) == DeliveredAll(rx, Kept(i.frames))
    ensures AllOk(i.msgs) && AllOk(Kept(i.frames) + i.msgs)
         && DeliveredAll(rx, Kept(i.frames) + i.msgs) == Heard(rx, i.wire) + DeliveredAll(rx, i.msgs)
    ensures (forall f | f in i.frames :: f.sent) ==> SameButStamps(i.log, Kept(i.frames) + i.msgs)
  {
    hide Books, EnvOk, AllMasked, Serial, Kept, OnWire, DeliveredAll, Heard, AllOk;
    BooksHeard(i.tlvs, i.msgs, i.enc, i.hello, i.timestamps, i.frames, i.wire, i.log, rx);
  }

  lemma {:induction false} BooksHeard(tlvs: seq<Tlv>, msgs: seq<Sent>, enc: Encoder, hello: Option<nat>, stamps: bool,
                                      frames: seq<Frame>, wire: seq<seq<u8>>, log: seq<Sent>, rx: Receiver)
    requires Books(tlvs, msgs, enc, hello, stamps, frames, wire, log)
    ensures AllOk(Kept(frames)) && Heard(rx, wire) == DeliveredAll(rx, Kept(frames))
    ensures AllOk(msgs) && AllOk(Kept(frames) + msgs)
         && DeliveredAll(rx, Kept(frames) + msgs) == Heard(rx, wire) + DeliveredAll(rx, msgs)
    ensures (forall f | f in frames :: f.sent) ==> SameButStamps(log, Kept(frames) + msgs)
  {
    hide HelloPlaced, Hellos, Written, Kept, OnWire, SameButStamps;
    HeardIsKept(rx, frames);
    DeliveredConcat(rx, Kept(frames), msgs);
    if forall f | f in frames :: f.sent {
      KeptAll(frames);
      SameConcat(Written(frames), Kept(frames), msgs, msgs) by { SameSelf(msgs); }
    }
  }

  lemma {:induction false} SameSelf(msgs: seq<Sent>)
    ensures SameButStamps(msgs, msgs)
  {
  }
}
