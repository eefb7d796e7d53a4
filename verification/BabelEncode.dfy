/** How babeld writes its messages, and that what it writes is read back. */
module BabelEncode {
  import opened Basics
  import opened Address
  import opened BabelPrefix
  import opened BabelTlv
  import opened BabelDecode

  /** The time stamp of a Hello: none, room for one, or the time of sending. */
  datatype Stamp = Absent | Blank | At(time: u32)

  datatype Message =
    | SendHello(seqno: u16, interval: u16, stamp: Stamp)
    | SendIhu(rxcost: u16, interval: u16, neighbour: Addr, stamps: Option<(u32, u32)>)
    | SendUpdate(id: Id, prefix: Prefix, seqno: u16, metric: u16, channels: Option<seq<u8>>)
    | SendRetractAll(seqno: u16)
    | SendRequestAll
    | SendRequest(prefix: Prefix)
    | SendSeqnoRequest(prefix: Prefix, seqno: u16, hops: u8, id: Id)

  type V4 = a: seq<u8> | |a| == 4 witness [0, 0, 0, 0]

  /** The sending interface: its IPv4 address, and the update interval in centiseconds. */
  datatype Sender = Sender(ipv4: Option<V4>, interval: u16)

  /** What is remembered of the TLVs in the buffer. */
  datatype Encoder = Encoder(id: Option<Id>, nh: Option<V4>, prefix: Option<Addr>)

  const EMPTY := Encoder(None, None, None)

  predicate ChannelsOk(c: seq<u8>) { |c| <= DIVERSITY_HOPS && 0 !in c }

  /** Messages as the rest of babeld makes them: prefixes masked, channels terminated by the first zero. */
  predicate MessageOk(snd: Sender, m: Message) {
    match m
    case SendUpdate(_, p, _, _, channels) =>
      Masked(p) && (channels.Some? ==> ChannelsOk(channels.value)) && (IsV4(p) ==> snd.ipv4.Some?)
    case SendRequest(p) => Masked(p)
    case SendSeqnoRequest(p, _, _, _) => Masked(p)
    case _ => true
  }

  // ---- Writing

  function CommonBytes(a: Addr, b: Addr, limit: nat): (n: nat)
    requires limit <= 16
    ensures n <= limit && a[..n] == b[..n]
    ensures n < limit ==> a[n] != b[n]
  {
    CommonFrom(a, b, limit, 0)
  }

  function CommonFrom(a: Addr, b: Addr, limit: nat, i: nat): (n: nat)
    requires i <= limit <= 16 && a[..i] == b[..i]
    ensures n <= limit && a[..n] == b[..n]
    ensures n < limit ==> a[n] != b[n]
    decreases limit - i
  {
    if i < limit && a[i] == b[i] then
      assert a[..i + 1] == a[..i] + [a[i]] && b[..i + 1] == b[..i] + [b[i]];
      CommonFrom(a, b, limit, i + 1)
    else i
  }

  function Omitted(enc: Encoder, p: Prefix): (n: nat)
    requires p.plen <= 128
    ensures if IsV4(p) then n == 0 else n <= p.plen / 8
    ensures n > 0 ==> enc.prefix.Some? && enc.prefix.value[..n] == p.addr[..n]
  {
    if IsV4(p) || enc.prefix.None? then 0 else CommonBytes(enc.prefix.value, p.addr, p.plen / 8)
  }

  predicate KeepsPrefix(enc: Encoder, p: Prefix) { !IsV4(p) && (enc.prefix.None? || p.plen >= 48) }

  predicate NeedsNextHop(snd: Sender, enc: Encoder, p: Prefix) { IsV4(p) && enc.nh != snd.ipv4 }

  predicate NeedsId(enc: Encoder, id: Id) { enc.id != Some(id) }

  /** The router-id is the low half of a host route. */
  predicate IdInPrefix(id: Id, p: Prefix) { !IsV4(p) && p.plen == 128 && p.addr[8..] == id }

  function NextHopTlv(a: V4): Tlv { Tlv(NEXT_HOP, [1, 0] + a) }

  function RouterIdTlv(id: Id): Tlv { Tlv(ROUTER_ID, Short(0) + id) }

  function Flags(enc: Encoder, id: Id, p: Prefix): u8 {
    (if KeepsPrefix(enc, p) then 0x80 else 0) + (if NeedsId(enc, id) && IdInPrefix(id, p) then 0x40 else 0)
  }

  function ChannelBytes(channels: Option<seq<u8>>): seq<u8>
    requires channels.Some? ==> ChannelsOk(channels.value)
  {
    if channels.None? then [] else [2, |channels.value|] + channels.value
  }

  function UpdateHead(snd: Sender, enc: Encoder, m: Message): (h: seq<u8>)
    requires m.SendUpdate? && MessageOk(snd, m)
    ensures |h| == 10
  {
    [Family(m.prefix), Flags(enc, m.id, m.prefix), WireLength(m.prefix), Omitted(enc, m.prefix)]
    + Short(snd.interval) + Short(m.seqno) + Short(m.metric)
  }

  function UpdateTlv(snd: Sender, enc: Encoder, m: Message): Tlv
    requires m.SendUpdate? && MessageOk(snd, m)
  {
    Tlv(UPDATE, UpdateHead(snd, enc, m) + PrefixTail(m.prefix, Omitted(enc, m.prefix)) + ChannelBytes(m.channels))
  }

  function NextHopPart(snd: Sender, enc: Encoder, m: Message): seq<Tlv>
    requires m.SendUpdate? && MessageOk(snd, m)
  {
    if NeedsNextHop(snd, enc, m.prefix) then [NextHopTlv(snd.ipv4.value)] else []
  }

  function IdPart(enc: Encoder, m: Message): seq<Tlv>
    requires m.SendUpdate?
  {
    if NeedsId(enc, m.id) && !IdInPrefix(m.id, m.prefix) then [RouterIdTlv(m.id)] else []
  }

  /** The TLVs an Update depends on. */
  function Preamble(snd: Sender, enc: Encoder, m: Message): seq<Tlv>
    requires m.SendUpdate? && MessageOk(snd, m)
  {
    NextHopPart(snd, enc, m) + IdPart(enc, m)
  }

  function IhuHead(m: Message): (h: seq<u8>)
    requires m.SendIhu?
    ensures |h| == 6
  {
    [if LinkLocal(m.neighbour) then 3 else 2, 0] + Short(m.rxcost) + Short(m.interval)
  }

  function IhuAddress(a: Addr): seq<u8> { if LinkLocal(a) then a[8..] else a }

  function StampBytes(stamps: Option<(u32, u32)>): (b: seq<u8>)
    ensures |b| == if stamps.None? then 0 else 10
  {
    if stamps.None? then [] else [3, 8] + Long(stamps.value.0) + Long(stamps.value.1)
  }

  function IhuTlv(m: Message): (t: Tlv)
    requires m.SendIhu?
    ensures t.Tlv? && 14 <= |t.body| <= 32
  {
    Tlv(IHU, IhuHead(m) + IhuAddress(m.neighbour) + StampBytes(m.stamps))
  }

  /** Room for a time stamp is kept by padding. */
  function HelloStampBytes(stamp: Stamp): (b: seq<u8>)
    ensures |b| == if stamp.Absent? then 0 else 6
  {
    match stamp
    case Absent => []
    case Blank => [1, 4, 0, 0, 0, 0]
    case At(time) => [3, 4] + Long(time)
  }

  function HelloBody(seqno: u16, interval: u16, stamp: Stamp): (b: seq<u8>)
    ensures |b| == if stamp.Absent? then 6 else 12
  {
    Short(0) + Short(seqno) + Short(interval) + HelloStampBytes(stamp)
  }

  function RetractBody(seqno: u16): (b: seq<u8>)
    ensures |b| == 10
  {
    [0, 0x40, 0, 0] + Short(0xFFFF) + Short(seqno) + Short(0xFFFF)
  }

  function RequestBody(p: Prefix): (b: seq<u8>)
    requires Masked(p)
    ensures 2 <= |b| <= 18
  {
    [Family(p), WireLength(p)] + PrefixTail(p, 0)
  }

  function SeqnoRequestBody(p: Prefix, seqno: u16, hops: u8, id: Id): (b: seq<u8>)
    requires Masked(p)
    ensures 14 <= |b| <= 30
  {
    [Family(p), WireLength(p)] + Short(seqno) + [hops, 0] + id + PrefixTail(p, 0)
  }

  function Emit(snd: Sender, enc: Encoder, m: Message): seq<Tlv>
    requires MessageOk(snd, m)
  {
    match m
    case SendHello(seqno, interval, stamp) => [Tlv(HELLO, HelloBody(seqno, interval, stamp))]
    case SendIhu(_, _, _, _) => [IhuTlv(m)]
    case SendUpdate(_, _, _, _, _) => Preamble(snd, enc, m) + [UpdateTlv(snd, enc, m)]
    case SendRetractAll(seqno) => [Tlv(UPDATE, RetractBody(seqno))]
    case SendRequestAll => [Tlv(REQUEST, [0, 0])]
    case SendRequest(p) => [Tlv(REQUEST, RequestBody(p))]
    case SendSeqnoRequest(p, seqno, hops, id) => [Tlv(MH_REQUEST, SeqnoRequestBody(p, seqno, hops, id))]
  }

  function Next(snd: Sender, enc: Encoder, m: Message): Encoder
    requires MessageOk(snd, m)
  {
    match m
    case SendUpdate(id, p, _, _, _) =>
      Encoder(Some(id), if IsV4(p) then snd.ipv4 else enc.nh, if KeepsPrefix(enc, p) then Some(p.addr) else enc.prefix)
    case SendRetractAll(_) => enc.(id := None)
    case _ => enc
  }

  // ---- What the receiver is to get

  function Delivered(snd: Sender, rx: Receiver, m: Message): seq<Event>
    requires MessageOk(snd, m)
  {
    match m
    case SendHello(seqno, interval, stamp) =>
      if interval == 0 then [] else [Hello(seqno, interval, if stamp.At? then Some(stamp.time) else None)]
    case SendIhu(rxcost, interval, neighbour, stamps) =>
      if neighbour in rx.locals then [Ihu(rxcost, interval, stamps)] else []
    case SendUpdate(id, p, seqno, metric, channels) =>
      if IsV4(p) && !rx.ipv4 then []
      else [Update(id, p, seqno, metric, snd.interval, if IsV4(p) then Some(V4PREFIX + snd.ipv4.value) else None,
                   if rx.faraway then [] else if channels.Some? then channels.value else DefaultChannels(metric))]
    case SendRetractAll(_) => [RetractAll]
    case SendRequestAll => [RequestAll]
    case SendRequest(p) => [Request(p)]
    case SendSeqnoRequest(p, seqno, hops, id) =>
      if WireLength(p) == 0 then [] else [SeqnoRequest(p, seqno, hops, id)]
  }

  predicate PrefixInStep(enc: Encoder, d: Decoder) {
    enc.prefix.Some? ==> d.prefix6 == enc.prefix && !V4Mapped(enc.prefix.value)
  }

  /** What the writer remembers, the reader knows. */
  predicate InStep(enc: Encoder, d: Decoder) {
    && (enc.id.Some? ==> d.id == enc.id)
    && (enc.nh.Some? ==> d.nh4 == Some(V4PREFIX + enc.nh.value))
    && PrefixInStep(enc, d)
    && d.nh6.None?
  }
}
