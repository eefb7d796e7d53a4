/**
 Any speaker of the protocol, not only this one: TLVs that use all of the compression of section 4.5 of RFC 8966 (next
 hops and default prefixes of both families, router-ids taken from prefixes) are read as what they say.
 */
module BabelSpeaker {
  import opened Basics
  import opened Address
  import opened BabelPrefix
  import opened BabelTlv
  import opened BabelDecode
  import opened BabelEncode
  import opened BabelRoundTrip

  // ---- Addresses and prefixes

  const WILDCARD: u8 := 0
  const V4FAMILY: u8 := 1
  const V6FAMILY: u8 := 2
  const LLFAMILY: u8 := 3

  /** The address can be written in this form. */
  predicate Fitting(family: u8, a: Addr) {
    || (family == V4FAMILY && V4Mapped(a))
    || family == V6FAMILY
    || (family == LLFAMILY && LinkLocal(a))
  }

  function AddrBytes(family: u8, a: Addr): seq<u8>
    requires Fitting(family, a)
  {
    if family == V4FAMILY then a[12..] else if family == V6FAMILY then a else a[8..]
  }

  lemma {:induction false} AddrRead(family: u8, a: Addr, rest: seq<u8>)
    requires Fitting(family, a)
    ensures NetworkPrefix(family, -1, 0, AddrBytes(family, a) + rest, None) == Some((|AddrBytes(family, a)|, a))
  {
    var b := AddrBytes(family, a);
    assert (b + rest)[..|b|] == b;
    assert Pad(a) == a;
    if family == V4FAMILY {
      assert V4PREFIX + b == a;
    } else if family == V6FAMILY {
      assert [] + b == a;
    } else {
      assert LLPREFIX + b == a;
    }
  }

  /** The prefix can be written in this form without its first `omit` bytes, which `last` shares. */
  predicate Omittable(family: u8, p: Prefix, omit: u8, last: Option<Addr>) {
    && Masked(p)
    && (family == V4FAMILY ==>
          && IsV4(p) && omit <= PrefixBytes(p.plen - 96)
          && (omit > 0 ==> last.Some? && V4Mapped(last.value) && last.value[..12 + omit] == p.addr[..12 + omit]))
    && (family == V6FAMILY ==>
          && omit <= PrefixBytes(p.plen)
          && (omit > 0 ==> last.Some? && !V4Mapped(last.value) && last.value[..omit] == p.addr[..omit]))
    && (family == LLFAMILY ==> LinkLocal(p.addr) && p.plen >= 64 && omit == 0)
    && (family == V4FAMILY || family == V6FAMILY || family == LLFAMILY)
  }

  function LengthSaid(family: u8, p: Prefix): u8
    requires p.plen <= 128 && (family == V4FAMILY ==> p.plen >= 96)
  {
    if family == V4FAMILY then p.plen - 96 else p.plen
  }

  function PrefixSaid(family: u8, p: Prefix, omit: u8, last: Option<Addr>): (b: seq<u8>)
    requires Omittable(family, p, omit, last)
    ensures |b| <= 16
  {
    if family == V4FAMILY then p.addr[12 + omit as int..12 + PrefixBytes(p.plen - 96)]
    else if family == V6FAMILY then p.addr[omit as int..PrefixBytes(p.plen)]
    else p.addr[8..PrefixBytes(p.plen)]
  }

  lemma {:induction false} PrefixHeard(family: u8, p: Prefix, omit: u8, last: Option<Addr>, rest: seq<u8>)
    requires Omittable(family, p, omit, last)
    ensures
      var b := PrefixSaid(family, p, omit, last);
      NetworkPrefix(family, LengthSaid(family, p), omit, b + rest, last) == Some((|b|, p.addr))
  {
    var b, pb := PrefixSaid(family, p, omit, last), PrefixBytes(p.plen);
    PadMasked(p);
    assert (b + rest)[..|b|] == b;
    if family == V4FAMILY {
      assert PrefixBytes(p.plen - 96) + 12 == pb;
      assert p.addr[..12 + omit as int] + b == p.addr[..pb];
      assert omit == 0 ==> V4PREFIX == p.addr[..12];
    } else if family == V6FAMILY {
      assert p.addr[..omit as int] + b == p.addr[..pb];
    } else {
      assert LLPREFIX + b == p.addr[..pb];
    }
  }

  // ---- What can be said

  datatype Saying =
    | SayAck(nonce: u16, interval: u16)
    | SayHello(flags: u16, seqno: u16, interval: u16)
    | SayIhu(family: u8, addr: Addr, rxcost: u16, interval: u16)
    | SayId(id: Id)
    | SayNextHop(family: u8, addr: Addr)
    | SayUpdate(family: u8, prefix: Prefix, omit: u8, keeps: bool, names: bool, interval: u16, seqno: u16, metric: u16,
                channels: Option<seq<u8>>)
    | SayRetractAll(interval: u16, seqno: u16)
    | SayRequestAll
    | SayRequest(family: u8, prefix: Prefix)
    | SaySeqnoRequest(family: u8, prefix: Prefix, seqno: u16, hops: u8, id: Id)

  /** The default prefix of a family. */
  function Last(d: Decoder, family: u8): Option<Addr> { if family == V4FAMILY then d.prefix4 else d.prefix6 }

  /** What may be said after what has been said before. */
  predicate Legal(d: Decoder, s: Saying) {
    match s
    case SayIhu(family, addr, _, _) => family == WILDCARD || Fitting(family, addr)
    case SayNextHop(family, addr) => Fitting(family, addr)
    case SayUpdate(family, p, omit, _, _, _, _, _, channels) =>
      Omittable(family, p, omit, Last(d, family)) && (channels.Some? ==> ChannelsOk(channels.value))
    case SayRequest(family, p) => Omittable(family, p, 0, None)
    case SaySeqnoRequest(family, p, _, _, _) => Omittable(family, p, 0, None)
    case _ => true
  }

  function FlagsSaid(keeps: bool, names: bool): u8 { (if keeps then 0x80 else 0) + (if names then 0x40 else 0) }

  /** The fixed fields of an Update. */
  function UpdateFields(s: Saying): (b: seq<u8>)
    requires s.SayUpdate? && s.prefix.plen <= 128 && (s.family == V4FAMILY ==> s.prefix.plen >= 96)
    ensures |b| == 10
  {
    [s.family, FlagsSaid(s.keeps, s.names), LengthSaid(s.family, s.prefix), s.omit]
    + Short(s.interval) + Short(s.seqno) + Short(s.metric)
  }

  function Said(d: Decoder, s: Saying): (t: Tlv)
    requires Legal(d, s)
    ensures Fits(t) && LongEnough(t)
  {
    match s
    case SayAck(nonce, interval) => Tlv(ACK_REQ, Short(0) + Short(nonce) + Short(interval))
    case SayHello(flags, seqno, interval) => Tlv(HELLO, Short(flags) + Short(seqno) + Short(interval))
    case SayIhu(family, addr, rxcost, interval) =>
      Tlv(IHU, [family, 0] + Short(rxcost) + Short(interval)
               + if family == WILDCARD then [] else AddrBytes(family, addr))
    case SayId(id) => Tlv(ROUTER_ID, [0, 0] + id)
    case SayNextHop(family, addr) => Tlv(NEXT_HOP, [family, 0] + AddrBytes(family, addr))
    case SayUpdate(family, p, omit, _, _, _, _, _, channels) =>
      Tlv(UPDATE, UpdateFields(s) + (PrefixSaid(family, p, omit, Last(d, family)) + ChannelBytes(channels)))
    case SayRetractAll(interval, seqno) =>
      Tlv(UPDATE, [0, 0, 0, 0] + Short(interval) + Short(seqno) + Short(0xFFFF))
    case SayRequestAll => Tlv(REQUEST, [0, 0])
    case SayRequest(family, p) => Tlv(REQUEST, [family, LengthSaid(family, p)] + PrefixSaid(family, p, 0, None))
    case SaySeqnoRequest(family, p, seqno, hops, id) =>
      Tlv(MH_REQUEST, [family, LengthSaid(family, p)] + Short(seqno) + [hops, 0] + id + PrefixSaid(family, p, 0, None))
  }

  // ---- What it means

  /** The router-id that a prefix names: its last eight bytes, or four zeros and the IPv4 address. */
  function IdNamed(family: u8, p: Prefix): Id {
    if family == V4FAMILY then [0, 0, 0, 0] + p.addr[12..] else p.addr[8..]
  }

  /** What is known afterwards. */
  function Known(d: Decoder, s: Saying): Decoder {
    match s
    case SayId(id) => d.(id := Some(id))
    case SayNextHop(family, addr) =>
      if family == V4FAMILY then d.(nh4 := Some(addr)) else d.(nh6 := Some(addr))
    case SayUpdate(family, p, _, keeps, names, _, _, _, _) =>
      Decoder(if names then Some(IdNamed(family, p)) else d.id,
              if keeps && family == V4FAMILY then Some(p.addr) else d.prefix4,
              if keeps && family != V4FAMILY then Some(p.addr) else d.prefix6, d.nh4, d.nh6)
    case _ => d
  }

  function Meaning(rx: Receiver, d: Decoder, s: Saying): seq<Event> {
    match s
    case SayAck(nonce, interval) => [AckRequest(nonce, interval)]
    case SayHello(flags, seqno, interval) =>
      if flags >= 0x8000 || interval == 0 then [] else [Hello(seqno, interval, None)]
    case SayIhu(family, addr, rxcost, interval) =>
      if family == WILDCARD || addr in rx.locals then [Ihu(rxcost, interval, None)] else []
    case SayId(_) => []
    case SayNextHop(_, _) => []
    case SayUpdate(family, p, _, _, _, interval, seqno, metric, channels) =>
      var known := Known(d, s);
      if known.id.None? || (family == V4FAMILY && (known.nh4.None? || !rx.ipv4)) then []
      else [Update(known.id.value, p, seqno, metric, interval, if family == V4FAMILY then known.nh4 else known.nh6,
                   if rx.faraway then [] else if channels.Some? then channels.value
                   else if metric < 256 then [] else [255])]
    case SayRetractAll(_, _) => [RetractAll]
    case SayRequestAll => [RequestAll]
    case SayRequest(_, p) => [Request(p)]
    case SaySeqnoRequest(family, p, seqno, hops, id) =>
      if (if family == V4FAMILY then p.plen == 96 else if family == LLFAMILY then p.plen == 64 else p.plen == 0) then []
      else [SeqnoRequest(p, seqno, hops, id)]
  }

  /** One saying is heard as it is meant, and leaves the hearer with what is known. */
  ghost predicate HeardAsMeant(rx: Receiver, d: Decoder, s: Saying)
    requires Legal(d, s)
  {
    TlvEvents(rx, d, Said(d, s)) == Meaning(rx, d, s) && AfterTlv(d, Said(d, s)) == Known(d, s)
  }

  lemma {:induction false} AckHeard(rx: Receiver, d: Decoder, s: Saying)
    requires s.SayAck?
    ensures HeardAsMeant(rx, d, s)
  {
    var b := Short(0) + Short(s.nonce) + Short(s.interval);
    assert b[2..4] == Short(s.nonce) && b[4..6] == Short(s.interval);
    ShortAt(b, 2, s.nonce);
    ShortAt(b, 4, s.interval);
  }

  lemma {:induction false} HelloHeard(rx: Receiver, d: Decoder, s: Saying)
    requires s.SayHello?
    ensures HeardAsMeant(rx, d, s)
  {
    var b := Short(s.flags) + Short(s.seqno) + Short(s.interval);
    assert b[0..2] == Short(s.flags) && b[2..4] == Short(s.seqno) && b[4..6] == Short(s.interval) && b[0..] == b;
    ShortAt(b, 0, s.flags);
    ShortAt(b, 2, s.seqno);
    ShortAt(b, 4, s.interval);
  }

  lemma {:induction false} IhuHeard(rx: Receiver, d: Decoder, s: Saying)
    requires s.SayIhu? && Legal(d, s)
    ensures HeardAsMeant(rx, d, s)
  {
    hide NetworkPrefix;
    var b := Said(d, s).body;
    var a := if s.family == WILDCARD then [] else AddrBytes(s.family, s.addr);
    assert b[2..4] == Short(s.rxcost) && b[4..6] == Short(s.interval) && b[6..] == a;
    ShortAt(b, 2, s.rxcost);
    ShortAt(b, 4, s.interval);
    if s.family == WILDCARD {
      WildcardRead(a);
    } else {
      AddrRead(s.family, s.addr, []);
      assert a + [] == a;
    }
  }

  lemma {:induction false} WildcardRead(b: seq<u8>)
    ensures NetworkPrefix(0, -1, 0, b, None) == Some((0, Pad([])))
    ensures NetworkPrefix(0, 0, 0, b, None) == Some((0, Pad([])))
  {
  }

  lemma {:induction false} NextHopHeard(rx: Receiver, d: Decoder, s: Saying)
    requires s.SayNextHop? && Legal(d, s)
    ensures HeardAsMeant(rx, d, s)
  {
    hide NetworkPrefix;
    var b, a := Said(d, s).body, AddrBytes(s.family, s.addr);
    assert b[2..] == a && a + [] == a;
    AddrRead(s.family, s.addr, []);
  }

  lemma {:induction false} RetractAllHeard(rx: Receiver, d: Decoder, s: Saying)
    requires s.SayRetractAll?
    ensures HeardAsMeant(rx, d, s)
  {
    hide NetworkPrefix;
    var b := Said(d, s).body;
    assert b[8..10] == Short(0xFFFF);
    ShortAt(b, 8, 0xFFFF);
    WildcardUpdate(d, b);
  }

  lemma {:induction false} WildcardUpdate(d: Decoder, b: seq<u8>)
    requires |b| >= 10 && b[0] == 0 && b[2] == 0 && b[3] == 0
    ensures UpdatePrefix(d, b) == Some((0, Pad([])))
  {
  }

  lemma {:induction false} RequestHeard(rx: Receiver, d: Decoder, s: Saying)
    requires (s.SayRequest? || s.SayRequestAll?) && Legal(d, s)
    ensures HeardAsMeant(rx, d, s)
  {
    hide NetworkPrefix;
    var b := Said(d, s).body;
    if s.SayRequestAll? {
      WildcardRead(b[2..]);
    } else {
      var a := PrefixSaid(s.family, s.prefix, 0, None);
      assert b[2..] == a && a + [] == a && b[2 + |a|..] == [];
      PrefixHeard(s.family, s.prefix, 0, None, []);
    }
  }

  lemma {:induction false} SeqnoRequestHeard(rx: Receiver, d: Decoder, s: Saying)
    requires s.SaySeqnoRequest? && Legal(d, s)
    ensures HeardAsMeant(rx, d, s)
  {
    hide NetworkPrefix;
    var b, a := Said(d, s).body, PrefixSaid(s.family, s.prefix, 0, None);
    assert b[2..4] == Short(s.seqno) && b[4] == s.hops && b[6..14] == s.id && b[14..] == a && a + [] == a;
    ShortAt(b, 2, s.seqno);
    PrefixHeard(s.family, s.prefix, 0, None, []);
  }

  /** The fields of an Update are where they are looked for. */
  lemma {:induction false} UpdateLayout(d: Decoder, s: Saying)
    requires s.SayUpdate? && Legal(d, s)
    ensures
      var b, a := Said(d, s).body, PrefixSaid(s.family, s.prefix, s.omit, Last(d, s.family));
      && |b| >= 10 + |a| && b[0] == s.family && b[1] == FlagsSaid(s.keeps, s.names)
      && b[2] == LengthSaid(s.family, s.prefix) && b[3] == s.omit
      && GetShort(b[4..]) == s.interval && GetShort(b[6..]) == s.seqno && GetShort(b[8..]) == s.metric
      && b[10..] == a + ChannelBytes(s.channels) && b[10 + |a|..] == ChannelBytes(s.channels)
  {
    SaidKind(d, s);
    hide ChannelBytes, PrefixSaid, Omittable, FlagsSaid;
    var b, h := Said(d, s).body, UpdateFields(s);
    var a := PrefixSaid(s.family, s.prefix, s.omit, Last(d, s.family));
    assert b == h + (a + ChannelBytes(s.channels));
    assert b[0] == h[0] && b[1] == h[1] && b[2] == h[2] && b[3] == h[3];
    assert b[4..6] == h[4..6] == Short(s.interval);
    assert b[6..8] == h[6..8] == Short(s.seqno);
    assert b[8..10] == h[8..10] == Short(s.metric);
    ShortAt(b, 4, s.interval);
    ShortAt(b, 6, s.seqno);
    ShortAt(b, 8, s.metric);
    assert b[10..] == a + ChannelBytes(s.channels);
    assert b[10 + |a|..] == ChannelBytes(s.channels);
  }

  lemma {:induction false} FlagsHeard(keeps: bool, names: bool)
    ensures SetsPrefix(FlagsSaid(keeps, names)) == keeps && SetsId(FlagsSaid(keeps, names)) == names
  {
  }

  /** The body of an Update, once its fields are read. */
  ghost predicate FieldsRead(d: Decoder, s: Saying, b: seq<u8>, n: nat)
    requires s.SayUpdate?
  {
    && |b| >= 10 + n && b[0] == s.family && SetsPrefix(b[1]) == s.keeps && SetsId(b[1]) == s.names
    && (s.family == V4FAMILY ==> s.prefix.plen >= 96) && s.prefix.plen <= 128
    && b[2] == LengthSaid(s.family, s.prefix) && UpdatePrefix(d, b) == Some((n, s.prefix.addr))
    && GetShort(b[4..]) == s.interval && GetShort(b[6..]) == s.seqno && GetShort(b[8..]) == s.metric
    && (s.channels.Some? ==> ChannelsOk(s.channels.value)) && b[10 + n..] == ChannelBytes(s.channels)
    && 1 <= s.family <= 3
  }

  lemma {:induction false} FieldsHeard(d: Decoder, s: Saying)
    requires s.SayUpdate? && Legal(d, s)
    ensures FieldsRead(d, s, Said(d, s).body, |PrefixSaid(s.family, s.prefix, s.omit, Last(d, s.family))|)
  {
    UpdateLayout(d, s);
    FlagsHeard(s.keeps, s.names);
    PrefixHeard(s.family, s.prefix, s.omit, Last(d, s.family), ChannelBytes(s.channels));
    OmitKnown(d, s);
    SaidKind(d, s);
    hide Said, PrefixSaid, NetworkPrefix, ChannelBytes, FlagsSaid, SetsPrefix, SetsId, GetShort, Omittable;
  }

  lemma {:induction false} StateHeard(d: Decoder, s: Saying, b: seq<u8>, n: nat)
    requires s.SayUpdate? && FieldsRead(d, s, b, n)
    ensures AfterUpdate(d, b) == Known(d, s)
  {
    hide UpdatePrefix, SetsPrefix, SetsId, ChannelBytes, GetShort;
  }

  lemma {:induction false} EventsHeard(rx: Receiver, d: Decoder, s: Saying, b: seq<u8>, n: nat)
    requires s.SayUpdate? && FieldsRead(d, s, b, n)
    ensures UpdateEvents(rx, d, b) == Meaning(rx, d, s)
  {
    StateHeard(d, s, b, n);
    ChannelsRead(s.channels, DefaultChannels(s.metric));
    hide UpdatePrefix, SetsPrefix, SetsId, ChannelBytes, GetShort, AfterUpdate, UpdateAttributes, Known;
    assert Wide(s.family, LengthSaid(s.family, s.prefix), s.prefix.addr) == s.prefix;
  }

  lemma {:induction false} UpdateHeard(rx: Receiver, d: Decoder, s: Saying)
    requires s.SayUpdate? && Legal(d, s)
    ensures HeardAsMeant(rx, d, s)
  {
    var b, n := Said(d, s).body, |PrefixSaid(s.family, s.prefix, s.omit, Last(d, s.family))|;
    SaidKind(d, s);
    hide Said, Legal, PrefixSaid, UpdateEvents, AfterUpdate, FieldsRead, Meaning, Known;
    FieldsHeard(d, s);
    StateHeard(d, s, b, n);
    EventsHeard(rx, d, s, b, n);
  }

  lemma {:induction false} OmitKnown(d: Decoder, s: Saying)
    requires s.SayUpdate? && Legal(d, s)
    ensures s.omit != 0 ==> Last(d, s.family).Some?
    ensures s.family == V4FAMILY || s.family == V6FAMILY || s.family == LLFAMILY
  {
  }

  lemma {:induction false} SaidKind(d: Decoder, s: Saying)
    requires s.SayUpdate? && Legal(d, s)
    ensures Said(d, s).Tlv? && Said(d, s).kind == UPDATE
    ensures s.family != WILDCARD && (s.family == V4FAMILY ==> 96 <= s.prefix.plen <= 128)
  {
  }

  /** Whatever is said, in any state, is heard as it is meant. */
  lemma {:induction false} SayingHeard(rx: Receiver, d: Decoder, s: Saying)
    requires Legal(d, s)
    ensures HeardAsMeant(rx, d, s)
  {
    hide HeardAsMeant;
    match s
    case SayAck(_, _) => AckHeard(rx, d, s);
    case SayHello(_, _, _) => HelloHeard(rx, d, s);
    case SayIhu(_, _, _, _) => IhuHeard(rx, d, s);
    case SayId(_) => IdHeard(rx, d, s);
    case SayNextHop(_, _) => NextHopHeard(rx, d, s);
    case SayUpdate(_, _, _, _, _, _, _, _, _) => UpdateHeard(rx, d, s);
    case SayRetractAll(_, _) => RetractAllHeard(rx, d, s);
    case SayRequestAll => RequestHeard(rx, d, s);
    case SayRequest(_, _) => RequestHeard(rx, d, s);
    case SaySeqnoRequest(_, _, _, _, _) => SeqnoRequestHeard(rx, d, s);
  }

  lemma {:induction false} IdHeard(rx: Receiver, d: Decoder, s: Saying)
    requires s.SayId?
    ensures HeardAsMeant(rx, d, s)
  {
    assert ([0, 0] + s.id)[2..10] == s.id;
  }

  // ---- Whole packets

  predicate AllLegal(d: Decoder, says: seq<Saying>)
    decreases |says|
  {
    |says| > 0 ==> Legal(d, says[0]) && AllLegal(Known(d, says[0]), says[1..])
  }

  function AllSaid(d: Decoder, says: seq<Saying>): (ts: seq<Tlv>)
    requires AllLegal(d, says)
    ensures AllFit(ts) && AllLongEnough(ts)
    decreases |says|
  {
    if |says| == 0 then [] else [Said(d, says[0])] + AllSaid(Known(d, says[0]), says[1..])
  }

  function AllMeant(rx: Receiver, d: Decoder, says: seq<Saying>): seq<Event>
    decreases |says|
  {
    if |says| == 0 then [] else Meaning(rx, d, says[0]) + AllMeant(rx, Known(d, says[0]), says[1..])
  }

  lemma {:induction false} AllHeard(rx: Receiver, d: Decoder, says: seq<Saying>)
    requires AllLegal(d, says)
    ensures Events(rx, d, AllSaid(d, says)) == AllMeant(rx, d, says)
    decreases |says|
  {
    hide Said, Known, Meaning, Legal, TlvEvents, AfterTlv;
    if |says| > 0 {
      SayingHeard(rx, d, says[0]);
      AllHeard(rx, Known(d, says[0]), says[1..]);
      assert AllSaid(d, says)[1..] == AllSaid(Known(d, says[0]), says[1..]);
    }
  }

  /** Every packet of every speaker that keeps to the rules is heard as it is meant, by every receiver. */
  lemma {:induction false} AnySpeakerHeard(rx: Receiver, says: seq<Saying>)
    requires AllLegal(FRESH, says) && |Serial(AllSaid(FRESH, says))| < 0x10000
    ensures PacketEvents(rx, Packet(Serial(AllSaid(FRESH, says)))) == AllMeant(rx, FRESH, says)
  {
    PacketExamined(AllSaid(FRESH, says));
    AllHeard(rx, FRESH, says);
  }

  // ---- What cannot be read

  /** A next hop that cannot be read: of no known family, or too short. */
  predicate Unreadable(b: seq<u8>)
    requires |b| >= 2
  {
    b[0] == 0 || b[0] > 3 || |b| < 2 + (if b[0] == 1 then 4 else if b[0] == 2 then 16 else 8)
  }

  /** It makes the reader forget the next hops of both families; any other sets that of its own and leaves the other. */
  lemma {:induction false} NextHopIff(d: Decoder, b: seq<u8>)
    requires |b| >= 2
    ensures
      var e := DecodeNextHop(d, b);
      if Unreadable(b) then e == d.(nh4 := None, nh6 := None)
      else if b[0] == 1 then e == d.(nh4 := e.nh4) && e.nh4.Some? && e.nh4.value == V4PREFIX + b[2..6]
      else e == d.(nh6 := e.nh6) && e.nh6.Some?
           && e.nh6.value == if b[0] == 2 then b[2..18] else LLPREFIX + b[2..10]
  {
    if !Unreadable(b) {
      var n := if b[0] == 1 then 4 else if b[0] == 2 then 16 else 8;
      var head := if b[0] == 1 then V4PREFIX else if b[0] == 2 then [] else LLPREFIX;
      assert b[2..][..n] == b[2..2 + n];
      assert Pad(head + b[2..2 + n]) == head + b[2..2 + n];
    }
  }

  /** An Update that omits bytes of a prefix that was not said, or was forgotten, says nothing; and if it was to set the
      default prefixes, both are forgotten. */
  lemma {:induction false} OmittedUnknown(rx: Receiver, d: Decoder, b: seq<u8>)
    requires |b| >= 10 && b[3] != 0 && Last(d, b[0]).None?
    ensures UpdateEvents(rx, d, b) == []
    ensures AfterUpdate(d, b) == if SetsPrefix(b[1]) then d.(prefix4 := None, prefix6 := None) else d
  {
  }

  /**
   A wildcard Update says that all routes are retracted, if its metric is infinite, and nothing otherwise. What it says
   of omitted bytes counts as for an IPv6 prefix, although it has none.
   */
  lemma {:induction false} WildcardIff(rx: Receiver, d: Decoder, b: seq<u8>)
    requires |b| >= 10 && b[0] == WILDCARD
    ensures
      UpdateEvents(rx, d, b)
      == if b[2] <= 128 && (b[3] == 0 || d.prefix6.Some?) && GetShort(b[8..]) == 0xFFFF then [RetractAll] else []
  {
  }
}
