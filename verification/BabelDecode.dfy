/** What a packet means: the parser state of section 4.5 of RFC 8966 and the messages it yields. */
module BabelDecode {
  import opened Basics
  import opened Address
  import opened BabelPrefix
  import opened BabelTlv

  const DIVERSITY_HOPS := 8
  const INTERFERING: u8 := 255

  type Id = i: seq<u8> | |i| == 8 witness [0, 0, 0, 0, 0, 0, 0, 0]

  /** What one TLV asks of the receiver. A next hop of `None` is the sender's own address. */
  datatype Event =
    | AckRequest(nonce: u16, interval: u16)
    | Hello(seqno: u16, interval: u16, stamp: Option<u32>)
    | Ihu(txcost: u16, interval: u16, stamps: Option<(u32, u32)>)
    | Update(id: Id, prefix: Prefix, seqno: u16, metric: u16, interval: u16, nh: Option<Addr>, channels: seq<u8>)
    | RetractAll
    | RequestAll
    | Request(prefix: Prefix)
    | SeqnoRequest(prefix: Prefix, seqno: u16, hops: u8, id: Id)

  /** The receiving interface: whether it has an IPv4 address, whether its links are far away, its addresses. */
  datatype Receiver = Receiver(ipv4: bool, faraway: bool, locals: set<Addr>)

  datatype Decoder = Decoder(id: Option<Id>, prefix4: Option<Addr>, prefix6: Option<Addr>,
                             nh4: Option<Addr>, nh6: Option<Addr>)

  const FRESH := Decoder(None, None, None, None, None)

  // ---- Sub-TLVs

  datatype Attributes = Attributes(ignore: bool, channels: seq<u8>)

  /** One step of a walk: it is over, or goes on after `used` bytes. */
  datatype Step<+R, +S> = Done(result: R) | More(used: nat, state: S)

  /** One step of parse_update_subtlv: an overlong channel list is cut, and the walk goes on where the cut was made. */
  function AttributeStep(a: seq<u8>, channels: seq<u8>): (s: Step<Attributes, seq<u8>>)
    requires |a| > 0
    ensures s.More? ==> 0 < s.used <= |a|
  {
    if a[0] == 0 then More(1, channels)
    else if |a| < 2 || |a| < 2 + a[1] as int then Done(Attributes(false, channels))
    else if a[0] >= 0x80 then Done(Attributes(true, channels))
    else if a[0] != 2 then More(2 + a[1] as int, channels)
    else
      var n := if a[1] > DIVERSITY_HOPS then DIVERSITY_HOPS else a[1];
      if 0 in a[2..2 + n] then Done(Attributes(false, channels)) else More(2 + n, a[2..2 + n])
  }

  /** parse_update_subtlv. */
  function UpdateAttributes(a: seq<u8>, channels: seq<u8>): Attributes
    decreases |a|
  {
    if |a| == 0 then Attributes(false, channels)
    else match AttributeStep(a, channels)
      case Done(r) => r
      case More(n, c) => UpdateAttributes(a[n..], c)
  }

  function HelloStampStep(a: seq<u8>, found: Option<u32>): (s: Step<Option<u32>, Option<u32>>)
    requires |a| > 0
    ensures s.More? ==> 0 < s.used <= |a|
  {
    if a[0] == 0 then More(1, found)
    else if |a| < 2 || |a| < 2 + a[1] as int || a[0] >= 0x80 then Done(None)
    else More(2 + a[1] as int, if a[0] == 3 && a[1] >= 4 then Some(GetLong(a[2..])) else found)
  }

  /** parse_hello_subtlv: the last time stamp, if the walk reaches the end. */
  function HelloStamp(a: seq<u8>, found: Option<u32>): Option<u32>
    decreases |a|
  {
    if |a| == 0 then found
    else match HelloStampStep(a, found)
      case Done(r) => r
      case More(n, f) => HelloStamp(a[n..], f)
  }

  function IhuStampStep(a: seq<u8>, found: Option<(u32, u32)>): (s: Step<Option<(u32, u32)>, Option<(u32, u32)>>)
    requires |a| > 0
    ensures s.More? ==> 0 < s.used <= |a|
  {
    if a[0] == 0 then More(1, found)
    else if |a| < 2 || |a| < 2 + a[1] as int then Done(found)
    else More(2 + a[1] as int, if a[0] == 3 && a[1] >= 8 then Some((GetLong(a[2..]), GetLong(a[6..]))) else found)
  }

  /** parse_ihu_subtlv: the last pair of time stamps before the end or the first fault. */
  function IhuStamps(a: seq<u8>, found: Option<(u32, u32)>): Option<(u32, u32)>
    decreases |a|
  {
    if |a| == 0 then found
    else match IhuStampStep(a, found)
      case Done(r) => r
      case More(n, f) => IhuStamps(a[n..], f)
  }

  /** One step of parse_request_subtlv at `i`: the type is always read from the first byte of all. */
  function SourceStep(ae: u8, a: seq<u8>, i: nat, source: Option<Prefix>)
    : (s: Step<Option<Option<Prefix>>, Option<Prefix>>)
    requires i < |a|
    ensures s.More? ==> 0 < s.used <= |a| - i
  {
    if a[0] == 0 then More(1, source)
    else if |a| < i + 2 || |a| < i + 2 + a[i + 1] as int then Done(None)
    else if a[0] < 0x80 then More(2 + a[i + 1] as int, source)
    else if a[0] > 0x80 || a[i + 1] < 1 || a[i + 2] == 0 || source.Some? then Done(None)
    else
      var r := NetworkPrefix(ae, a[i + 2], 0, a[i + 3..i + 2 + a[i + 1] as int], None);
      if r.None? then Done(None)
      else More(2 + a[i + 1] as int, Some(Prefix(r.value.1, if ae == 1 then a[i + 2] + 96 else a[i + 2])))
  }

  /** parse_request_subtlv from `i` on: the source prefix found, or `None` if the request is to be dropped. */
  function RequestSource(ae: u8, a: seq<u8>, i: nat, source: Option<Prefix>): Option<Option<Prefix>>
    requires i <= |a|
    decreases |a| - i
  {
    if i == |a| then Some(source)
    else match SourceStep(ae, a, i, source)
      case Done(r) => r
      case More(n, p) => RequestSource(ae, a, i + n, p)
  }

  predicate IsDefault(p: Prefix) { p.plen == 0 || (p.plen == 96 && V4Mapped(p.addr)) }

  // ---- TLVs

  /** A prefix as it is read, with IPv4 lengths counted from the mapped form. */
  function Wide(ae: u8, plen: u8, a: Addr): Prefix
    requires ae == 1 ==> plen <= 32
  {
    Prefix(a, if ae == 1 then plen + 96 else plen)
  }

  function DecodeHello(b: seq<u8>): seq<Event>
    requires |b| >= 6
  {
    if GetShort(b) >= 0x8000 || GetShort(b[4..]) == 0 then []
    else [Hello(GetShort(b[2..]), GetShort(b[4..]), if |b| > 8 then HelloStamp(b[6..], None) else None)]
  }

  function DecodeIhu(rx: Receiver, b: seq<u8>): seq<Event>
    requires |b| >= 6
  {
    var r := NetworkPrefix(b[0], -1, 0, b[6..], None);
    if r.None? || (b[0] != 0 && r.value.1 !in rx.locals) then []
    else [Ihu(GetShort(b[2..]), GetShort(b[4..]),
              if |b| > 10 + r.value.0 then IhuStamps(b[6 + r.value.0..], None) else None)]
  }

  function DecodeNextHop(d: Decoder, b: seq<u8>): Decoder
    requires |b| >= 2
  {
    var r := NetworkPrefix(b[0], -1, 0, b[2..], None);
    if r.None? || r.value.0 == 0 then d.(nh4 := None, nh6 := None)
    else if b[0] == 1 then d.(nh4 := Some(r.value.1))
    else d.(nh6 := Some(r.value.1))
  }

  function DecodeRequest(b: seq<u8>): seq<Event>
    requires |b| >= 2
  {
    var r := NetworkPrefix(b[0], b[1], 0, b[2..], None);
    if b[0] > 4 || r.None? then []
    else
      var a := b[2 + r.value.0..];
      var source := RequestSource(b[0], a, 0, None);
      if source.None? then []
      else if b[0] != 0 then [Request(Wide(b[0], b[1], r.value.1))]
      else if source.value.Some? && !IsDefault(source.value.value) then []
      else [RequestAll]
  }

  function DecodeSeqnoRequest(b: seq<u8>): seq<Event>
    requires |b| >= 14
  {
    var r := NetworkPrefix(b[0], b[1], 0, b[14..], None);
    if r.None? || r.value.0 == 0 then []
    else [SeqnoRequest(Wide(b[0], b[1], r.value.1), GetShort(b[2..]), b[4], b[6..14])]
  }

  // ---- Updates

  predicate SetsPrefix(flags: u8) { flags >= 0x80 }

  predicate SetsId(flags: u8) { flags % 0x80 >= 0x40 }

  /** The prefix an Update stands for, by the last one of its family. */
  function UpdatePrefix(d: Decoder, b: seq<u8>): (r: Option<(nat, Addr)>)
    requires |b| >= 10
    ensures r.Some? ==> r.value.0 <= |b| - 10 && (b[0] == 1 ==> b[2] <= 32)
  {
    var last := if b[0] == 1 then d.prefix4 else d.prefix6;
    if b[3] != 0 && last.None? then None else NetworkPrefix(b[0], b[2], b[3], b[10..], last)
  }

  /** The parser state after an Update, which changes even when the Update itself is dropped. */
  function AfterPrefix(d: Decoder, b: seq<u8>): Decoder
    requires |b| >= 10
  {
    var r := UpdatePrefix(d, b);
    if !SetsPrefix(b[1]) then d
    else if r.None? then d.(prefix4 := None, prefix6 := None)
    else if b[0] == 1 then d.(prefix4 := Some(r.value.1))
    else d.(prefix6 := Some(r.value.1))
  }

  function IdOf(ae: u8, a: Addr): Id { if ae == 1 then [0, 0, 0, 0] + a[12..] else a[8..] }

  function AfterUpdate(d: Decoder, b: seq<u8>): Decoder
    requires |b| >= 10
  {
    var r := UpdatePrefix(d, b);
    var e := AfterPrefix(d, b);
    if r.Some? && SetsId(b[1]) then e.(id := Some(IdOf(b[0], r.value.1))) else e
  }

  function DefaultChannels(metric: u16): seq<u8> { if metric < 256 then [] else [INTERFERING] }

  function UpdateChannels(rx: Receiver, b: seq<u8>, used: nat): Attributes
    requires |b| >= 10 + used
  {
    if rx.faraway then Attributes(false, [])
    else UpdateAttributes(b[10 + used..], DefaultChannels(GetShort(b[8..])))
  }

  function UpdateEvents(rx: Receiver, d: Decoder, b: seq<u8>): seq<Event>
    requires |b| >= 10
  {
    var r := UpdatePrefix(d, b);
    var e := AfterUpdate(d, b);
    if r.None? then []
    else if b[0] == 0 then (if GetShort(b[8..]) < INFINITY then [] else [RetractAll])
    else if e.id.None? || (b[0] == 1 && (e.nh4.None? || !rx.ipv4)) then []
    else
      var attributes := UpdateChannels(rx, b, r.value.0);
      if attributes.ignore then []
      else [Update(e.id.value, Wide(b[0], b[2], r.value.1), GetShort(b[6..]), GetShort(b[8..]), GetShort(b[4..]),
                   if b[0] == 1 then e.nh4 else e.nh6, attributes.channels)]
  }

  // ---- Packets

  function AfterTlv(d: Decoder, t: Tlv): Decoder
    requires LongEnough(t)
  {
    if t.Pad1? then d
    else if t.kind == ROUTER_ID then d.(id := Some(t.body[2..10]))
    else if t.kind == NEXT_HOP then DecodeNextHop(d, t.body)
    else if t.kind == UPDATE then AfterUpdate(d, t.body)
    else d
  }

  function TlvEvents(rx: Receiver, d: Decoder, t: Tlv): seq<Event>
    requires LongEnough(t)
  {
    if t.Pad1? then []
    else if t.kind == ACK_REQ then [AckRequest(GetShort(t.body[2..]), GetShort(t.body[4..]))]
    else if t.kind == HELLO then DecodeHello(t.body)
    else if t.kind == IHU then DecodeIhu(rx, t.body)
    else if t.kind == UPDATE then UpdateEvents(rx, d, t.body)
    else if t.kind == REQUEST then DecodeRequest(t.body)
    else if t.kind == MH_REQUEST then DecodeSeqnoRequest(t.body)
    else []
  }

  function AfterAll(d: Decoder, ts: seq<Tlv>): Decoder
    requires AllLongEnough(ts)
    decreases |ts|
  {
    if |ts| == 0 then d else AfterAll(AfterTlv(d, ts[0]), ts[1..])
  }

  function Events(rx: Receiver, d: Decoder, ts: seq<Tlv>): seq<Event>
    requires AllLongEnough(ts)
    decreases |ts|
  {
    if |ts| == 0 then [] else TlvEvents(rx, d, ts[0]) + Events(rx, AfterTlv(d, ts[0]), ts[1..])
  }

  /** What a whole packet yields; each one is read from a fresh state. */
  function PacketEvents(rx: Receiver, packet: seq<u8>): seq<Event> {
    var ts := Examined(packet);
    if ts.None? then [] else Events(rx, FRESH, ts.value)
  }

  lemma {:induction false} DecodeConcat(rx: Receiver, d: Decoder, a: seq<Tlv>, b: seq<Tlv>)
    requires AllLongEnough(a) && AllLongEnough(b)
    ensures AllLongEnough(a + b) && AfterAll(d, a + b) == AfterAll(AfterAll(d, a), b)
    ensures Events(rx, d, a + b) == Events(rx, d, a) + Events(rx, AfterAll(d, a), b)
    decreases |a|
  {
    if |a| == 0 {
      assert a + b == b;
    } else {
      assert (a + b)[1..] == a[1..] + b;
      var e := AfterTlv(d, a[0]);
      DecodeConcat(rx, e, a[1..], b);
      Regroup(TlvEvents(rx, d, a[0]), Events(rx, e, a[1..]), Events(rx, AfterAll(e, a[1..]), b));
    }
  }

  lemma {:induction false} DecodeOne(rx: Receiver, d: Decoder, t: Tlv)
    requires LongEnough(t)
    ensures AllLongEnough([t]) && AfterAll(d, [t]) == AfterTlv(d, t) && Events(rx, d, [t]) == TlvEvents(rx, d, t)
  {
    assert [t][1..] == [];
  }
}
