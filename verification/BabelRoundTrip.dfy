/** Whatever babeld writes into a packet is what its parser reads out of it. */
module BabelRoundTrip {
  import opened Basics
  import opened Address
  import opened BabelPrefix
  import opened BabelTlv
  import opened BabelDecode
  import opened BabelEncode

  // ---- Reading fields

  lemma {:induction false} ShortAt(b: seq<u8>, i: nat, v: u16)
    requires i + 2 <= |b| && b[i..i + 2] == Short(v)
    ensures GetShort(b[i..]) == v
  {
    assert b[i..][0] == b[i..i + 2][0] && b[i..][1] == b[i..i + 2][1];
  }

  lemma {:induction false} LongAt(b: seq<u8>, i: nat, v: u32)
    requires i + 4 <= |b| && b[i..i + 4] == Long(v)
    ensures GetLong(b[i..]) == v
  {
    assert b[i..] == b[i..i + 4] + b[i + 4..];
    LongRoundTrip(v, b[i + 4..]);
  }

  // ---- Messages that leave the parser state alone

  lemma {:induction false} HelloStampRead(stamp: Stamp)
    ensures HelloStamp(HelloStampBytes(stamp), None) == if stamp.At? then Some(stamp.time) else None
  {
    if !stamp.Absent? {
      var a := HelloStampBytes(stamp);
      assert a[6..] == [];
      if stamp.At? {
        assert a[2..6] == Long(stamp.time);
        LongAt(a, 2, stamp.time);
      }
    }
  }

  lemma {:induction false} HelloRead(seqno: u16, interval: u16, stamp: Stamp)
    ensures
      var b := HelloBody(seqno, interval, stamp);
      DecodeHello(b)
      == if interval == 0 then [] else [Hello(seqno, interval, if stamp.At? then Some(stamp.time) else None)]
  {
    hide HelloStamp;
    var b := HelloBody(seqno, interval, stamp);
    assert b[2..4] == Short(seqno) && b[4..6] == Short(interval) && b[0..2] == Short(0);
    assert b[6..] == HelloStampBytes(stamp);
    ShortAt(b, 0, 0);
    ShortAt(b, 2, seqno);
    ShortAt(b, 4, interval);
    HelloStampRead(stamp);
    assert b[0..] == b;
  }

  lemma {:induction false} AddressRead(a: Addr, rest: seq<u8>)
    ensures NetworkPrefix(if LinkLocal(a) then 3 else 2, -1, 0, IhuAddress(a) + rest, None)
         == Some((|IhuAddress(a)|, a))
  {
    var tail := IhuAddress(a);
    assert (tail + rest)[..|tail|] == tail;
    assert Pad(a) == a;
    if LinkLocal(a) {
      assert LLPREFIX + tail == a;
    } else {
      assert [] + tail == a;
    }
  }

  lemma {:induction false} StampsRead(stamps: Option<(u32, u32)>)
    ensures IhuStamps(StampBytes(stamps), None) == stamps
  {
    if stamps.Some? {
      var a := StampBytes(stamps);
      assert a[2..6] == Long(stamps.value.0) && a[6..10] == Long(stamps.value.1);
      LongAt(a, 2, stamps.value.0);
      LongAt(a, 6, stamps.value.1);
      assert a[10..] == [];
    }
  }

  lemma {:induction false} IhuFields(m: Message)
    requires m.SendIhu?
    ensures
      var b := IhuTlv(m).body;
      && b[0] == (if LinkLocal(m.neighbour) then 3 else 2)
      && GetShort(b[2..]) == m.rxcost && GetShort(b[4..]) == m.interval
      && b[6..] == IhuAddress(m.neighbour) + StampBytes(m.stamps)
      && b[6 + |IhuAddress(m.neighbour)|..] == StampBytes(m.stamps)
  {
    hide GetShort, StampBytes, IhuAddress;
    var b := IhuTlv(m).body;
    var h := IhuHead(m);
    assert b[..6] == h;
    assert b[2..4] == h[2..4] == Short(m.rxcost) && b[4..6] == h[4..6] == Short(m.interval);
    ShortAt(b, 2, m.rxcost);
    ShortAt(b, 4, m.interval);
    assert b[0] == h[0];
  }

  lemma {:induction false} IhuRead(snd: Sender, rx: Receiver, m: Message)
    requires m.SendIhu?
    ensures |IhuTlv(m).body| >= 6 && DecodeIhu(rx, IhuTlv(m).body) == Delivered(snd, rx, m)
  {
    hide IhuStamps, NetworkPrefix, GetShort, IhuTlv, LinkLocal, StampBytes;
    IhuFields(m);
    AddressRead(m.neighbour, StampBytes(m.stamps));
    StampsRead(m.stamps);
    assert |IhuTlv(m).body| == 6 + |IhuAddress(m.neighbour)| + |StampBytes(m.stamps)| by {
      assert IhuTlv(m).body[6..] == IhuAddress(m.neighbour) + StampBytes(m.stamps);
    }
  }

  lemma {:induction false} RequestRead(p: Prefix)
    requires Masked(p)
    ensures DecodeRequest(RequestBody(p)) == [Request(p)]
  {
    hide NetworkPrefix, PrefixTail;
    var b := RequestBody(p);
    PrefixRoundTrip(p, 0, None, []);
    assert b[2..] == PrefixTail(p, 0) + [];
    assert b[2 + |PrefixTail(p, 0)|..] == [];
  }

  lemma {:induction false} SeqnoRequestRead(snd: Sender, rx: Receiver, m: Message)
    requires m.SendSeqnoRequest? && Masked(m.prefix)
    ensures
      var b := SeqnoRequestBody(m.prefix, m.seqno, m.hops, m.id);
      DecodeSeqnoRequest(b) == Delivered(snd, rx, m)
  {
    hide NetworkPrefix, GetShort;
    var tail := PrefixTail(m.prefix, 0);
    var b := SeqnoRequestBody(m.prefix, m.seqno, m.hops, m.id);
    PrefixRoundTrip(m.prefix, 0, None, []);
    assert b[14..] == tail + [] && b[6..14] == m.id && b[2..4] == Short(m.seqno) && b[4] == m.hops;
    ShortAt(b, 2, m.seqno);
  }

  // ---- Updates

  lemma {:induction false} ChannelsRead(channels: Option<seq<u8>>, other: seq<u8>)
    requires channels.Some? ==> ChannelsOk(channels.value)
    ensures UpdateAttributes(ChannelBytes(channels), other)
         == Attributes(false, if channels.Some? then channels.value else other)
  {
    if channels.Some? {
      var a := ChannelBytes(channels);
      assert a[2..2 + |channels.value|] == channels.value && a[2 + |channels.value|..] == [];
    }
  }

  /** The fixed fields of an Update. */
  lemma {:induction false} HeadRead(snd: Sender, enc: Encoder, m: Message)
    requires m.SendUpdate? && MessageOk(snd, m)
    ensures
      var b := UpdateTlv(snd, enc, m).body;
      && |b| >= 10 && b[..10] == UpdateHead(snd, enc, m)
      && b[0] == Family(m.prefix) && b[1] == Flags(enc, m.id, m.prefix)
      && b[2] == WireLength(m.prefix) && b[3] == Omitted(enc, m.prefix)
      && GetShort(b[4..]) == snd.interval && GetShort(b[6..]) == m.seqno && GetShort(b[8..]) == m.metric
  {
    var h := UpdateHead(snd, enc, m);
    var b := UpdateTlv(snd, enc, m).body;
    assert b[..10] == h;
    assert b[0] == h[0] && b[1] == h[1] && b[2] == h[2] && b[3] == h[3];
    assert b[4..6] == h[4..6] == Short(snd.interval);
    assert b[6..8] == h[6..8] == Short(m.seqno);
    assert b[8..10] == h[8..10] == Short(m.metric);
    ShortAt(b, 4, snd.interval);
    ShortAt(b, 6, m.seqno);
    ShortAt(b, 8, m.metric);
  }

  /** What follows the fixed fields of an Update. */
  lemma {:induction false} TailRead(snd: Sender, enc: Encoder, m: Message)
    requires m.SendUpdate? && MessageOk(snd, m)
    ensures
      var b, tail := UpdateTlv(snd, enc, m).body, PrefixTail(m.prefix, Omitted(enc, m.prefix));
      |b| >= 10 + |tail| && b[10..] == tail + ChannelBytes(m.channels) && b[10 + |tail|..] == ChannelBytes(m.channels)
  {
    hide UpdateHead, PrefixTail, ChannelBytes, Omitted, Mask;
    var b, tail := UpdateTlv(snd, enc, m).body, PrefixTail(m.prefix, Omitted(enc, m.prefix));
    assert b[10..] == tail + ChannelBytes(m.channels);
    assert b[10 + |tail|..] == ChannelBytes(m.channels);
  }

  /** The prefix of an Update is read back by a reader in step. */
  lemma {:induction false} PrefixRead(snd: Sender, enc: Encoder, d: Decoder, m: Message)
    requires m.SendUpdate? && MessageOk(snd, m) && PrefixInStep(enc, d)
    ensures
      var b := UpdateTlv(snd, enc, m).body;
      var n := |PrefixTail(m.prefix, Omitted(enc, m.prefix))|;
      |b| >= 10 + n && UpdatePrefix(d, b) == Some((n, m.prefix.addr)) && b[10 + n..] == ChannelBytes(m.channels)
  {
    hide NetworkPrefix, Flags, GetShort, UpdateTlv, UpdateHead, PrefixTail, ChannelBytes, Omitted, Mask;
    HeadRead(snd, enc, m);
    TailRead(snd, enc, m);
    var omit := Omitted(enc, m.prefix);
    PrefixRoundTrip(m.prefix, omit, if IsV4(m.prefix) then d.prefix4 else d.prefix6, ChannelBytes(m.channels));
  }

  lemma {:induction false} FlagsRead(enc: Encoder, id: Id, p: Prefix)
    ensures SetsPrefix(Flags(enc, id, p)) <==> KeepsPrefix(enc, p)
    ensures SetsId(Flags(enc, id, p)) <==> NeedsId(enc, id) && IdInPrefix(id, p)
  {
  }

  /** The parser state after an Update. */
  lemma {:induction false} StateRead(snd: Sender, enc: Encoder, d: Decoder, m: Message)
    requires m.SendUpdate? && MessageOk(snd, m) && PrefixInStep(enc, d)
    ensures
      var b := UpdateTlv(snd, enc, m).body;
      |b| >= 10 && AfterUpdate(d, b) == d.(
        prefix6 := if KeepsPrefix(enc, m.prefix) then Some(m.prefix.addr) else d.prefix6,
        id := if NeedsId(enc, m.id) && IdInPrefix(m.id, m.prefix) then Some(m.id) else d.id)
  {
    HeadRead(snd, enc, m);
    PrefixRead(snd, enc, d, m);
    FlagsRead(enc, m.id, m.prefix);
  }

  lemma {:induction false} AttributesRead(snd: Sender, rx: Receiver, enc: Encoder, m: Message)
    requires m.SendUpdate? && MessageOk(snd, m)
    ensures
      var b := UpdateTlv(snd, enc, m).body;
      var n := |PrefixTail(m.prefix, Omitted(enc, m.prefix))|;
      |b| >= 10 + n && UpdateChannels(rx, b, n) == Attributes(false,
        if rx.faraway then [] else if m.channels.Some? then m.channels.value else DefaultChannels(m.metric))
  {
    HeadRead(snd, enc, m);
    var b := UpdateTlv(snd, enc, m).body;
    assert b[10 + |PrefixTail(m.prefix, Omitted(enc, m.prefix))|..] == ChannelBytes(m.channels);
    ChannelsRead(m.channels, DefaultChannels(m.metric));
  }

  /** A reader that has seen what an Update depends on gets the Update. */
  lemma {:induction false} UpdateRead(snd: Sender, rx: Receiver, enc: Encoder, d: Decoder, m: Message)
    requires m.SendUpdate? && MessageOk(snd, m) && PrefixInStep(enc, d) && d.nh6.None?
    requires !(NeedsId(enc, m.id) && IdInPrefix(m.id, m.prefix)) ==> d.id == Some(m.id)
    requires IsV4(m.prefix) ==> d.nh4 == Some(V4PREFIX + snd.ipv4.value)
    ensures
      var b := UpdateTlv(snd, enc, m).body;
      |b| >= 10 && UpdateEvents(rx, d, b) == Delivered(snd, rx, m) && AfterUpdate(d, b).id == Some(m.id)
  {
    hide NetworkPrefix, UpdatePrefix, UpdateChannels, GetShort, Flags;
    HeadRead(snd, enc, m);
    PrefixRead(snd, enc, d, m);
    StateRead(snd, enc, d, m);
    AttributesRead(snd, rx, enc, m);
  }

  lemma {:induction false} NextHopRead(d: Decoder, a: V4)
    ensures DecodeNextHop(d, [1, 0] + a) == d.(nh4 := Some(V4PREFIX + a))
  {
    var b := [1, 0] + a;
    assert b[2..] == a && a[..4] == a;
    assert Pad(V4PREFIX + a) == V4PREFIX + a;
  }

  // ---- The writer and the reader keep in step

  predicate GoodTlvs(ts: seq<Tlv>) { AllFit(ts) && AllLongEnough(ts) }

  lemma {:induction false} GoodConcat(a: seq<Tlv>, b: seq<Tlv>)
    requires GoodTlvs(a) && GoodTlvs(b)
    ensures GoodTlvs(a + b)
  {
  }

  lemma {:induction false} NextHopPartRead(snd: Sender, rx: Receiver, enc: Encoder, d: Decoder, m: Message)
    requires m.SendUpdate? && MessageOk(snd, m) && InStep(enc, d)
    ensures
      var ts := NextHopPart(snd, enc, m);
      && GoodTlvs(ts) && Events(rx, d, ts) == []
      && AfterAll(d, ts) == d.(nh4 := if IsV4(m.prefix) then Some(V4PREFIX + snd.ipv4.value) else d.nh4)
  {
    if NeedsNextHop(snd, enc, m.prefix) {
      DecodeOne(rx, d, NextHopTlv(snd.ipv4.value));
      NextHopRead(d, snd.ipv4.value);
    }
  }

  lemma {:induction false} IdPartRead(rx: Receiver, enc: Encoder, d: Decoder, m: Message)
    requires m.SendUpdate? && (enc.id.Some? ==> d.id == enc.id)
    ensures
      var ts := IdPart(enc, m);
      && GoodTlvs(ts) && Events(rx, d, ts) == []
      && AfterAll(d, ts) == d.(id := if IdInPrefix(m.id, m.prefix) && NeedsId(enc, m.id) then d.id else Some(m.id))
  {
    if NeedsId(enc, m.id) && !IdInPrefix(m.id, m.prefix) {
      DecodeOne(rx, d, RouterIdTlv(m.id));
      assert (Short(0) + m.id)[2..10] == m.id;
    }
  }

  /** After the TLVs an Update depends on, the reader knows the router-id and the next hop. */
  lemma {:induction false} PreambleRead(snd: Sender, rx: Receiver, enc: Encoder, d: Decoder, m: Message)
    requires m.SendUpdate? && MessageOk(snd, m) && InStep(enc, d)
    ensures
      var ts := Preamble(snd, enc, m);
      var e := d.(nh4 := if IsV4(m.prefix) then Some(V4PREFIX + snd.ipv4.value) else d.nh4,
                  id := if IdInPrefix(m.id, m.prefix) && NeedsId(enc, m.id) then d.id else Some(m.id));
      GoodTlvs(ts) && AfterAll(d, ts) == e && Events(rx, d, ts) == []
  {
    var a, b := NextHopPart(snd, enc, m), IdPart(enc, m);
    NextHopPartRead(snd, rx, enc, d, m);
    IdPartRead(rx, enc, AfterAll(d, a), m);
    DecodeConcat(rx, d, a, b);
    GoodConcat(a, b);
  }

  lemma {:induction false} LastTlv(rx: Receiver, d: Decoder, before: seq<Tlv>, t: Tlv)
    requires GoodTlvs(before) && Events(rx, d, before) == [] && Fits(t) && LongEnough(t)
    ensures
      var ts, e := before + [t], AfterAll(d, before);
      GoodTlvs(ts) && Events(rx, d, ts) == TlvEvents(rx, e, t) && AfterAll(d, ts) == AfterTlv(e, t)
  {
    DecodeOne(rx, AfterAll(d, before), t);
    DecodeConcat(rx, d, before, [t]);
    GoodConcat(before, [t]);
  }

  /** The TLVs of a message yield exactly what is to be delivered, and leave the reader in step. */
  predicate ReadBack(snd: Sender, rx: Receiver, enc: Encoder, d: Decoder, m: Message)
    requires MessageOk(snd, m)
  {
    var ts := Emit(snd, enc, m);
    GoodTlvs(ts) && Events(rx, d, ts) == Delivered(snd, rx, m) && InStep(Next(snd, enc, m), AfterAll(d, ts))
  }

  lemma {:induction false} UpdateInStep(snd: Sender, enc: Encoder, d: Decoder, e: Decoder, m: Message)
    requires m.SendUpdate? && MessageOk(snd, m) && InStep(enc, d)
    requires e == d.(nh4 := if IsV4(m.prefix) then Some(V4PREFIX + snd.ipv4.value) else d.nh4,
                     id := if IdInPrefix(m.id, m.prefix) && NeedsId(enc, m.id) then d.id else Some(m.id))
    ensures var b := UpdateTlv(snd, enc, m).body; |b| >= 10 && InStep(Next(snd, enc, m), AfterUpdate(e, b))
  {
    StateRead(snd, enc, e, m);
    if KeepsPrefix(enc, m.prefix) && m.prefix.plen < 96 {
      ShortNotMapped(m.prefix);
    }
  }

  lemma {:induction false} UpdateTlvRead(rx: Receiver, d: Decoder, b: seq<u8>)
    requires 10 <= |b| < 0x100
    ensures var t := Tlv(UPDATE, b);
            && Fits(t) && LongEnough(t) && TlvEvents(rx, d, t) == UpdateEvents(rx, d, b)
            && AfterTlv(d, t) == AfterUpdate(d, b)
  {
  }

  lemma {:induction false} UpdateStep(snd: Sender, rx: Receiver, enc: Encoder, d: Decoder, m: Message)
    requires m.SendUpdate? && MessageOk(snd, m) && InStep(enc, d)
    ensures ReadBack(snd, rx, enc, d, m)
  {
    var before := Preamble(snd, enc, m);
    var t := UpdateTlv(snd, enc, m);
    PreambleRead(snd, rx, enc, d, m);
    var e := AfterAll(d, before);
    UpdateFits(snd, enc, m);
    UpdateRead(snd, rx, enc, e, m);
    UpdateInStep(snd, enc, d, e, m);
    UpdateTlvRead(rx, e, t.body);
    LastTlv(rx, d, before, t);
  }

  lemma {:induction false} UpdateFits(snd: Sender, enc: Encoder, m: Message)
    requires m.SendUpdate? && MessageOk(snd, m)
    ensures var t := UpdateTlv(snd, enc, m); Fits(t) && LongEnough(t) && |t.body| <= 36
  {
  }

  /** A withdrawal of everything is read as such, and makes the reader forget its router-id. */
  lemma {:induction false} RetractStep(rx: Receiver, enc: Encoder, d: Decoder, seqno: u16)
    requires InStep(enc, d)
    ensures
      var b := RetractBody(seqno);
      UpdateEvents(rx, d, b) == [RetractAll] && InStep(enc.(id := None), AfterUpdate(d, b))
  {
    var b := RetractBody(seqno);
    assert b[8..10] == Short(0xFFFF);
    ShortAt(b, 8, 0xFFFF);
  }

  /** Every message is read back exactly by a reader in step, and leaves it in step. */
  lemma {:induction false} MessageStep(snd: Sender, rx: Receiver, enc: Encoder, d: Decoder, m: Message)
    requires MessageOk(snd, m) && InStep(enc, d)
    ensures ReadBack(snd, rx, enc, d, m)
  {
    match m
    case SendUpdate(_, _, _, _, _) => UpdateStep(snd, rx, enc, d, m);
    case SendHello(_, _, _) => HelloStep(snd, rx, enc, d, m);
    case SendIhu(_, _, _, _) => IhuStep(snd, rx, enc, d, m);
    case SendRetractAll(_) => RetractAllStep(snd, rx, enc, d, m);
    case SendRequestAll => RequestAllStep(snd, rx, enc, d, m);
    case SendRequest(_) => RequestStep(snd, rx, enc, d, m);
    case SendSeqnoRequest(_, _, _, _) => SeqnoRequestStep(snd, rx, enc, d, m);
  }

  lemma {:induction false} OneTlv(snd: Sender, rx: Receiver, enc: Encoder, d: Decoder, m: Message, t: Tlv)
    requires MessageOk(snd, m) && Emit(snd, enc, m) == [t] && Fits(t) && LongEnough(t)
    requires TlvEvents(rx, d, t) == Delivered(snd, rx, m) && InStep(Next(snd, enc, m), AfterTlv(d, t))
    ensures ReadBack(snd, rx, enc, d, m)
  {
    DecodeOne(rx, d, t);
  }

  lemma {:induction false} HelloStep(snd: Sender, rx: Receiver, enc: Encoder, d: Decoder, m: Message)
    requires m.SendHello? && InStep(enc, d)
    ensures ReadBack(snd, rx, enc, d, m)
  {
    hide DecodeHello;
    HelloRead(m.seqno, m.interval, m.stamp);
    OneTlv(snd, rx, enc, d, m, Tlv(HELLO, HelloBody(m.seqno, m.interval, m.stamp)));
  }

  lemma {:induction false} IhuTlvRead(rx: Receiver, d: Decoder, t: Tlv)
    requires t.Tlv? && t.kind == IHU && 14 <= |t.body| < 0x100
    ensures Fits(t) && LongEnough(t) && TlvEvents(rx, d, t) == DecodeIhu(rx, t.body) && AfterTlv(d, t) == d
  {
    hide DecodeIhu;
  }

  lemma {:induction false} IhuStep(snd: Sender, rx: Receiver, enc: Encoder, d: Decoder, m: Message)
    requires m.SendIhu? && InStep(enc, d)
    ensures ReadBack(snd, rx, enc, d, m)
  {
    hide DecodeIhu, TlvEvents, AfterTlv, LongEnough, Delivered, ReadBack, InStep;
    IhuRead(snd, rx, m);
    IhuTlvRead(rx, d, IhuTlv(m));
    OneTlv(snd, rx, enc, d, m, IhuTlv(m));
  }

  lemma {:induction false} RetractAllStep(snd: Sender, rx: Receiver, enc: Encoder, d: Decoder, m: Message)
    requires m.SendRetractAll? && InStep(enc, d)
    ensures ReadBack(snd, rx, enc, d, m)
  {
    RetractStep(rx, enc, d, m.seqno);
    OneTlv(snd, rx, enc, d, m, Tlv(UPDATE, RetractBody(m.seqno)));
  }

  lemma {:induction false} RequestAllStep(snd: Sender, rx: Receiver, enc: Encoder, d: Decoder, m: Message)
    requires m.SendRequestAll? && InStep(enc, d)
    ensures ReadBack(snd, rx, enc, d, m)
  {
    var b: seq<u8> := [0, 0];
    assert b[2..] == [];
    OneTlv(snd, rx, enc, d, m, Tlv(REQUEST, b));
  }

  lemma {:induction false} RequestTlv(rx: Receiver, d: Decoder, b: seq<u8>)
    requires 2 <= |b| < 0x100
    ensures var t := Tlv(REQUEST, b);
            Fits(t) && LongEnough(t) && TlvEvents(rx, d, t) == DecodeRequest(b) && AfterTlv(d, t) == d
  {
  }

  lemma {:induction false} RequestStep(snd: Sender, rx: Receiver, enc: Encoder, d: Decoder, m: Message)
    requires m.SendRequest? && MessageOk(snd, m) && InStep(enc, d)
    ensures ReadBack(snd, rx, enc, d, m)
  {
    hide DecodeRequest, TlvEvents, AfterTlv, LongEnough, ReadBack, InStep, RequestBody;
    var b := RequestBody(m.prefix);
    RequestRead(m.prefix);
    RequestTlv(rx, d, b);
    OneTlv(snd, rx, enc, d, m, Tlv(REQUEST, b));
  }

  lemma {:induction false} SeqnoRequestTlv(rx: Receiver, d: Decoder, b: seq<u8>)
    requires 14 <= |b| < 0x100
    ensures var t := Tlv(MH_REQUEST, b);
            Fits(t) && LongEnough(t) && TlvEvents(rx, d, t) == DecodeSeqnoRequest(b) && AfterTlv(d, t) == d
  {
  }

  lemma {:induction false} SeqnoRequestStep(snd: Sender, rx: Receiver, enc: Encoder, d: Decoder, m: Message)
    requires m.SendSeqnoRequest? && MessageOk(snd, m) && InStep(enc, d)
    ensures ReadBack(snd, rx, enc, d, m)
  {
    hide DecodeSeqnoRequest, TlvEvents, AfterTlv, LongEnough, Delivered, ReadBack, InStep, SeqnoRequestBody;
    SeqnoRequestRead(snd, rx, m);
    var b := SeqnoRequestBody(m.prefix, m.seqno, m.hops, m.id);
    var t := Tlv(MH_REQUEST, b);
    SeqnoRequestTlv(rx, d, b);
    OneTlv(snd, rx, enc, d, m, t);
  }

  // ---- Whole packets

  /** A message and the interface settings it was written under. */
  datatype Sent = Sent(snd: Sender, m: Message)

  predicate SentOk(s: Sent) { MessageOk(s.snd, s.m) }

  predicate AllOk(log: seq<Sent>) { forall s | s in log :: SentOk(s) }

  function DeliveredOne(rx: Receiver, s: Sent): seq<Event>
    requires SentOk(s)
  {
    Delivered(s.snd, rx, s.m)
  }

  function DeliveredAll(rx: Receiver, log: seq<Sent>): seq<Event>
    requires AllOk(log)
  {
    if |log| == 0 then [] else DeliveredAll(rx, log[..|log| - 1]) + DeliveredOne(rx, log[|log| - 1])
  }

  /** The TLVs hold exactly the logged messages, for every receiver, and readers of them are in step. */
  ghost predicate Carries(ts: seq<Tlv>, log: seq<Sent>, enc: Encoder) {
    && GoodTlvs(ts) && AllOk(log)
    && (forall rx :: Events(rx, FRESH, ts) == DeliveredAll(rx, log))
    && InStep(enc, AfterAll(FRESH, ts))
  }

  lemma {:induction false} CarriesNothing()
    ensures Carries([], [], EMPTY)
  {
  }

  lemma {:induction false} Extend(ts: seq<Tlv>, log: seq<Sent>, enc: Encoder, more: seq<Tlv>, s: Sent, next: Encoder)
    requires Carries(ts, log, enc) && GoodTlvs(more) && SentOk(s)
    requires forall rx :: Events(rx, AfterAll(FRESH, ts), more) == DeliveredOne(rx, s)
    requires InStep(next, AfterAll(AfterAll(FRESH, ts), more))
    ensures Carries(ts + more, log + [s], next)
  {
    var all := log + [s];
    assert all[..|all| - 1] == log;
    GoodConcat(ts, more);
    forall rx ensures Events(rx, FRESH, ts + more) == DeliveredAll(rx, all) {
      DecodeConcat(rx, FRESH, ts, more);
    }
    DecodeConcat(Receiver(false, false, {}), FRESH, ts, more);
  }

  /** Writing one more message. */
  lemma {:induction false} CarriesMore(ts: seq<Tlv>, log: seq<Sent>, enc: Encoder, snd: Sender, m: Message)
    requires Carries(ts, log, enc) && MessageOk(snd, m)
    ensures Carries(ts + Emit(snd, enc, m), log + [Sent(snd, m)], Next(snd, enc, m))
  {
    var d := AfterAll(FRESH, ts);
    forall rx ensures ReadBack(snd, rx, enc, d, m) {
      MessageStep(snd, rx, enc, d, m);
    }
    forall rx ensures Events(rx, d, Emit(snd, enc, m)) == DeliveredOne(rx, Sent(snd, m)) {
      assert ReadBack(snd, rx, enc, d, m);
    }
    assert ReadBack(snd, Receiver(false, false, {}), enc, d, m);
    Extend(ts, log, enc, Emit(snd, enc, m), Sent(snd, m), Next(snd, enc, m));
  }

  /** A packet of such TLVs is accepted and yields the messages, from an empty parser state. */
  lemma {:induction false} PacketDelivers(ts: seq<Tlv>, log: seq<Sent>, enc: Encoder, rx: Receiver)
    requires Carries(ts, log, enc) && |Serial(ts)| < 0x10000
    ensures PacketEvents(rx, Packet(Serial(ts))) == DeliveredAll(rx, log)
  {
    PacketExamined(ts);
  }
}
