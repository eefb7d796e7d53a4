/** The parser as it walks a packet: every read stays inside the TLV at hand. */
module BabelParse {
  import opened Basics
  import opened Address
  import opened BabelPrefix
  import opened BabelTlv
  import opened BabelDecode

  /** A read at `k`, inside the part from `lo` to `hi`. */
  function At(packet: seq<u8>, ghost lo: nat, ghost hi: nat, k: nat): u8
    requires lo <= k < hi <= |packet|
  {
    packet[k]
  }

  /** A read of everything from `i` to `j`, inside the part from `lo` to `hi`. */
  function Within(packet: seq<u8>, ghost lo: nat, ghost hi: nat, i: nat, j: nat): seq<u8>
    requires lo <= i <= j <= hi <= |packet|
  {
    packet[i..j]
  }

  function ShortIn(packet: seq<u8>, ghost lo: nat, ghost hi: nat, k: nat): (v: u16)
    requires lo <= k && k + 2 <= hi <= |packet|
    ensures v == GetShort(packet[lo..hi][k - lo..])
  {
    GetShort(packet[k..k + 2])
  }

  function LongIn(packet: seq<u8>, ghost lo: nat, ghost hi: nat, k: nat): (v: u32)
    requires lo <= k && k + 4 <= hi <= |packet|
    ensures v == GetLong(packet[lo..hi][k - lo..])
  {
    GetLong(packet[k..k + 4])
  }

  // ---- Prefixes

  /** Copies bytes into a buffer. */
  method Copy(buf: array<u8>, at: nat, bytes: seq<u8>)
    requires at + |bytes| <= buf.Length
    modifies buf
    ensures buf[..] == old(buf[..at]) + bytes + old(buf[at + |bytes|..])
  {
    var i := 0;
    while i < |bytes|
      invariant i <= |bytes|
      invariant forall k | 0 <= k < buf.Length :: buf[k] == if at <= k < at + i then bytes[k - at] else old(buf[k])
    {
      buf[at + i] := bytes[i];
      i := i + 1;
    }
  }

  /** mask_prefix. */
  method MaskPrefix(ret: array<u8>, prefix: Addr, plen: u8)
    requires ret.Length == 16
    modifies ret
    ensures ret[..] == Mask(prefix, plen)
  {
    if plen >= 128 {
      Copy(ret, 0, prefix);
      return;
    }
    Copy(ret, 0, Zeros(16));
    Copy(ret, 0, prefix[..plen / 8]);
    if plen % 8 != 0 {
      ret[plen / 8] := TopBits(prefix[plen / 8], plen % 8);
    }
  }

  /** Overwriting the start of a buffer of zeros. */
  lemma {:induction false} PadIs(s: seq<u8>)
    requires |s| <= 16
    ensures s + Zeros(16)[|s|..] == Pad(s)
  {
  }

  /** The part of a prefix that is not on the wire, by address family. */
  method ChooseHead(ae: u8, pb: nat, omitted: u8, len: nat, last: Option<Addr>)
      returns (ok: bool, head: seq<u8>, given: nat)
    requires ae != 0
    ensures ok ==> Head(ae, omitted, last) == Some(head) && given == InHead(ae, omitted) && (ae == 1 ==> pb <= 4)
    ensures ok ==> |head| == given + if ae == 1 then 12 else 0
    ensures ok ==> pb <= given || pb - given <= len
    ensures !ok ==> Head(ae, omitted, last).None? || (ae == 1 && pb > 4) || pb - InHead(ae, omitted) > len
  {
    ok, head, given := false, [], omitted as int;
    if ae == 1 {
      if omitted > 4 || pb > 4 || (pb > omitted && len < pb - omitted) {
        return;
      }
      head := V4PREFIX;
      if omitted != 0 {
        if last.None? || !V4Mapped(last.value) {
          return;
        }
        head := last.value[..12 + omitted];
      }
    } else if ae == 2 {
      if omitted > 16 || (pb > omitted && len < pb - omitted) {
        return;
      }
      if omitted != 0 {
        if last.None? || V4Mapped(last.value) {
          return;
        }
        head := last.value[..omitted];
      }
    } else if ae == 3 {
      given := 8;
      if pb > 8 && len < pb - 8 {
        return;
      }
      head := LLPREFIX;
    } else {
      return;
    }
    ok := true;
  }

  /** network_prefix, for the `len` bytes at `p`: the number of bytes read and the prefix, or a fault. */
  method ReadPrefix(ae: u8, plen: int, omitted: u8, packet: seq<u8>, p: nat, len: nat, last: Option<Addr>)
      returns (r: Option<(nat, Addr)>)
    requires -1 <= plen < 0x100 && p + len <= |packet|
    ensures r == NetworkPrefix(ae, plen, omitted, packet[p..p + len], last)
  {
    var pb := if plen >= 0 then (plen + 7) / 8 else if ae == 1 then 4 else 16;
    if pb > 16 {
      return None;
    }
    if ae == 0 {
      return Some((0, Pad([])));
    }
    var ok, head, given := ChooseHead(ae, pb, omitted, len, last);
    if !ok || pb < given {
      return None;
    }
    var rc := pb - given;
    assert packet[p..p + rc] == packet[p..p + len][..rc];
    var prefix := Assemble(head, packet, p, rc, if plen < 0 then 128 else if ae == 1 then plen + 96 else plen);
    r := Some((rc, prefix));
  }

  method Assemble(head: seq<u8>, packet: seq<u8>, p: nat, n: nat, plen: u8) returns (prefix: Addr)
    requires |head| + n <= 16 && p + n <= |packet|
    ensures prefix == Mask(Pad(head + packet[p..p + n]), plen)
  {
    var buf := new u8[16](_ => 0);
    assert buf[..] == Zeros(16);
    Copy(buf, 0, head);
    Copy(buf, |head|, packet[p..p + n]);
    assert buf[..] == head + packet[p..p + n] + Zeros(16)[|head| + n..];
    PadIs(head + packet[p..p + n]);
    var ret := new u8[16];
    MaskPrefix(ret, buf[..], plen);
    prefix := ret[..];
  }

  // ---- Sub-TLVs

  /** Slices of a part of a packet are slices of the packet. */
  lemma {:induction false} Slice(packet: seq<u8>, lo: nat, hi: nat, i: nat, j: nat)
    requires i <= j <= hi - lo && lo <= hi <= |packet|
    ensures packet[lo..hi][i..j] == packet[lo + i..lo + j]
  {
    var part := packet[lo..hi];
    forall k | 0 <= k < j - i ensures part[i..j][k] == packet[lo + i..lo + j][k] {
      assert part[i..j][k] == part[i + k] == packet[lo + i + k];
    }
  }

  lemma {:induction false} Rest(packet: seq<u8>, lo: nat, hi: nat, i: nat)
    requires i <= hi - lo && lo <= hi <= |packet|
    ensures packet[lo..hi][i..] == packet[lo + i..hi]
  {
  }

  method ReadAttribute(packet: seq<u8>, i: nat, hi: nat, found: seq<u8>) returns (s: Step<Attributes, seq<u8>>)
    requires i < hi <= |packet|
    ensures s == AttributeStep(packet[i..hi], found)
  {
    var kind := At(packet, i, hi, i);
    if kind == 0 {
      return More(1, found);
    }
    if i + 1 >= hi {
      return Done(Attributes(false, found));
    }
    var len := At(packet, i, hi, i + 1) as int;
    if i + len + 2 > hi {
      return Done(Attributes(false, found));
    }
    if kind >= 0x80 {
      return Done(Attributes(true, found));
    }
    if kind != 2 {
      return More(len + 2, found);
    }
    if len > DIVERSITY_HOPS {
      len := DIVERSITY_HOPS;
    }
    var listed := Within(packet, i, hi, i + 2, i + 2 + len);
    Slice(packet, i, hi, 2, 2 + len);
    return if 0 in listed then Done(Attributes(false, found)) else More(len + 2, listed);
  }

  /** parse_update_subtlv, from `lo` to `hi`. */
  method ReadUpdateAttributes(packet: seq<u8>, lo: nat, hi: nat, channels: seq<u8>) returns (r: Attributes)
    requires lo <= hi <= |packet|
    ensures r == UpdateAttributes(packet[lo..hi], channels)
  {
    var i, found := lo, channels;
    while i < hi
      invariant lo <= i <= hi
      invariant UpdateAttributes(packet[lo..hi], channels) == UpdateAttributes(packet[i..hi], found)
    {
      var s := ReadAttribute(packet, i, hi, found);
      if s.Done? {
        return s.result;
      }
      Rest(packet, i, hi, s.used);
      i, found := i + s.used, s.state;
    }
    r := Attributes(false, found);
  }

  method ReadHelloSub(packet: seq<u8>, i: nat, hi: nat, found: Option<u32>) returns (s: Step<Option<u32>, Option<u32>>)
    requires i < hi <= |packet|
    ensures s == HelloStampStep(packet[i..hi], found)
  {
    var kind := At(packet, i, hi, i);
    if kind == 0 {
      return More(1, found);
    }
    if i + 1 >= hi {
      return Done(None);
    }
    var len := At(packet, i, hi, i + 1) as int;
    if i + len + 2 > hi || kind >= 0x80 {
      return Done(None);
    }
    return More(len + 2, if kind == 3 && len >= 4 then Some(LongIn(packet, i, hi, i + 2)) else found);
  }

  /** parse_hello_subtlv, from `lo` to `hi`. */
  method ReadHelloStamp(packet: seq<u8>, lo: nat, hi: nat) returns (r: Option<u32>)
    requires lo <= hi <= |packet|
    ensures r == HelloStamp(packet[lo..hi], None)
  {
    hide HelloStampStep;
    var i := lo;
    r := None;
    while i < hi
      invariant lo <= i <= hi
      invariant HelloStamp(packet[lo..hi], None) == HelloStamp(packet[i..hi], r)
    {
      var s := ReadHelloSub(packet, i, hi, r);
      if s.Done? {
        return s.result;
      }
      Rest(packet, i, hi, s.used);
      i, r := i + s.used, s.state;
    }
  }

  method ReadIhuSub(packet: seq<u8>, i: nat, hi: nat, found: Option<(u32, u32)>)
      returns (s: Step<Option<(u32, u32)>, Option<(u32, u32)>>)
    requires i < hi <= |packet|
    ensures s == IhuStampStep(packet[i..hi], found)
  {
    var kind := At(packet, i, hi, i);
    if kind == 0 {
      return More(1, found);
    }
    if i + 1 >= hi {
      return Done(found);
    }
    var len := At(packet, i, hi, i + 1) as int;
    if i + len + 2 > hi {
      return Done(found);
    }
    if kind != 3 || len < 8 {
      return More(len + 2, found);
    }
    return More(len + 2, Some((LongIn(packet, i, hi, i + 2), LongIn(packet, i, hi, i + 6))));
  }

  /** parse_ihu_subtlv, from `lo` to `hi`. */
  method ReadIhuStamps(packet: seq<u8>, lo: nat, hi: nat) returns (r: Option<(u32, u32)>)
    requires lo <= hi <= |packet|
    ensures r == IhuStamps(packet[lo..hi], None)
  {
    hide IhuStampStep;
    var i := lo;
    r := None;
    while i < hi
      invariant lo <= i <= hi
      invariant IhuStamps(packet[lo..hi], None) == IhuStamps(packet[i..hi], r)
    {
      var s := ReadIhuSub(packet, i, hi, r);
      if s.Done? {
        return s.result;
      }
      Rest(packet, i, hi, s.used);
      i, r := i + s.used, s.state;
    }
  }

  method ReadSource(ae: u8, packet: seq<u8>, lo: nat, hi: nat, i: nat, source: Option<Prefix>)
      returns (s: Step<Option<Option<Prefix>>, Option<Prefix>>)
    requires lo + i < hi <= |packet|
    ensures s == SourceStep(ae, packet[lo..hi], i, source)
  {
    var kind := At(packet, lo, hi, lo);
    if kind == 0 {
      return More(1, source);
    }
    if lo + i + 2 > hi {
      return Done(None);
    }
    var len := At(packet, lo, hi, lo + i + 1) as int;
    if lo + i + 2 + len > hi {
      return Done(None);
    }
    if kind < 0x80 {
      return More(len + 2, source);
    }
    if kind > 0x80 || len < 1 || source.Some? {
      return Done(None);
    }
    var plen := At(packet, lo, hi, lo + i + 2);
    if plen == 0 {
      return Done(None);
    }
    Slice(packet, lo, hi, i + 3, i + 2 + len);
    var r := ReadPrefix(ae, plen, 0, packet, lo + i + 3, len - 1, None);
    if r.None? {
      return Done(None);
    }
    return More(len + 2, Some(Prefix(r.value.1, if ae == 1 then plen + 96 else plen)));
  }

  /** parse_request_subtlv, from `lo` to `hi`. */
  method ReadRequestSource(ae: u8, packet: seq<u8>, lo: nat, hi: nat) returns (r: Option<Option<Prefix>>)
    requires lo <= hi <= |packet|
    ensures r == RequestSource(ae, packet[lo..hi], 0, None)
  {
    ghost var a := packet[lo..hi];
    var i, source := 0, None;
    while lo + i < hi
      invariant 0 <= i <= hi - lo
      invariant RequestSource(ae, a, 0, None) == RequestSource(ae, a, i, source)
    {
      var s := ReadSource(ae, packet, lo, hi, i, source);
      if s.Done? {
        return s.result;
      }
      i, source := i + s.used, s.state;
    }
    r := Some(source);
  }

  // ---- TLVs, with the body from `lo` to `hi`

  method ReadHello(packet: seq<u8>, lo: nat, hi: nat) returns (ev: seq<Event>)
    requires lo + 6 <= hi <= |packet|
    ensures ev == DecodeHello(packet[lo..hi])
  {
    ghost var b := packet[lo..hi];
    assert b[0..] == b;
    if ShortIn(packet, lo, hi, lo) >= 0x8000 {
      return [];
    }
    var seqno, interval := ShortIn(packet, lo, hi, lo + 2), ShortIn(packet, lo, hi, lo + 4);
    if interval == 0 {
      return [];
    }
    var stamp := None;
    if hi - lo > 8 {
      stamp := ReadHelloStamp(packet, lo + 6, hi);
      Rest(packet, lo, hi, 6);
    }
    ev := [Hello(seqno, interval, stamp)];
  }

  method ReadIhu(rx: Receiver, packet: seq<u8>, lo: nat, hi: nat) returns (ev: seq<Event>)
    requires lo + 6 <= hi <= |packet|
    ensures ev == DecodeIhu(rx, packet[lo..hi])
  {
    hide NetworkPrefix, IhuStamps;
    var txcost, interval := ShortIn(packet, lo, hi, lo + 2), ShortIn(packet, lo, hi, lo + 4);
    var ae := At(packet, lo, hi, lo);
    Rest(packet, lo, hi, 6);
    var r := ReadPrefix(ae, -1, 0, packet, lo + 6, hi - lo - 6, None);
    if r.None? || (ae != 0 && r.value.1 !in rx.locals) {
      return [];
    }
    var stamps := ReadStampsAfter(packet, lo, hi, r.value.0);
    ev := [Ihu(txcost, interval, stamps)];
  }

  method ReadStampsAfter(packet: seq<u8>, lo: nat, hi: nat, rc: nat) returns (r: Option<(u32, u32)>)
    requires lo + 6 + rc <= hi <= |packet|
    ensures r == if hi - lo > 10 + rc then IhuStamps(packet[lo..hi][6 + rc..], None) else None
  {
    r := None;
    if hi - lo > 10 + rc {
      r := ReadIhuStamps(packet, lo + 6 + rc, hi);
      Rest(packet, lo, hi, 6 + rc);
    }
  }

  method ReadNextHop(d: Decoder, packet: seq<u8>, lo: nat, hi: nat) returns (e: Decoder)
    requires lo + 2 <= hi <= |packet|
    ensures e == DecodeNextHop(d, packet[lo..hi])
  {
    var ae := At(packet, lo, hi, lo);
    Rest(packet, lo, hi, 2);
    var r := ReadPrefix(ae, -1, 0, packet, lo + 2, hi - lo - 2, None);
    if r.None? || r.value.0 == 0 {
      return d.(nh4 := None, nh6 := None);
    }
    return if ae == 1 then d.(nh4 := Some(r.value.1)) else d.(nh6 := Some(r.value.1));
  }

  method ReadRequest(packet: seq<u8>, lo: nat, hi: nat) returns (ev: seq<Event>)
    requires lo + 2 <= hi <= |packet|
    ensures ev == DecodeRequest(packet[lo..hi])
  {
    var ae, plen := At(packet, lo, hi, lo), At(packet, lo, hi, lo + 1);
    if ae > 4 {
      return [];
    }
    Rest(packet, lo, hi, 2);
    var r := ReadPrefix(ae, plen, 0, packet, lo + 2, hi - lo - 2, None);
    if r.None? {
      return [];
    }
    Rest(packet, lo, hi, 2 + r.value.0);
    var source := ReadRequestSource(ae, packet, lo + 2 + r.value.0, hi);
    if source.None? {
      return [];
    }
    if ae != 0 {
      return [Request(Wide(ae, plen, r.value.1))];
    }
    return if source.value.Some? && !IsDefault(source.value.value) then [] else [RequestAll];
  }

  method ReadSeqnoRequest(packet: seq<u8>, lo: nat, hi: nat) returns (ev: seq<Event>)
    requires lo + 14 <= hi <= |packet|
    ensures ev == DecodeSeqnoRequest(packet[lo..hi])
  {
    var ae, plen := At(packet, lo, hi, lo), At(packet, lo, hi, lo + 1);
    Rest(packet, lo, hi, 14);
    var r := ReadPrefix(ae, plen, 0, packet, lo + 14, hi - lo - 14, None);
    if r.None? || r.value.0 == 0 {
      return [];
    }
    Slice(packet, lo, hi, 6, 14);
    ev := [SeqnoRequest(Wide(ae, plen, r.value.1), ShortIn(packet, lo, hi, lo + 2), At(packet, lo, hi, lo + 4),
                        Within(packet, lo, hi, lo + 6, lo + 14))];
  }

  method ReadUpdatePrefix(d: Decoder, packet: seq<u8>, lo: nat, hi: nat) returns (r: Option<(nat, Addr)>)
    requires lo + 10 <= hi <= |packet|
    ensures r == UpdatePrefix(d, packet[lo..hi])
  {
    var ae, omitted := At(packet, lo, hi, lo), At(packet, lo, hi, lo + 3);
    var last := if ae == 1 then d.prefix4 else d.prefix6;
    r := None;
    if omitted == 0 || last.Some? {
      Rest(packet, lo, hi, 10);
      r := ReadPrefix(ae, At(packet, lo, hi, lo + 2), omitted, packet, lo + 10, hi - lo - 10, last);
    }
  }

  /** The state an Update leaves. */
  method ReadUpdateState(d: Decoder, packet: seq<u8>, lo: nat, hi: nat, r: Option<(nat, Addr)>) returns (e: Decoder)
    requires lo + 10 <= hi <= |packet| && r == UpdatePrefix(d, packet[lo..hi])
    ensures e == AfterUpdate(d, packet[lo..hi])
  {
    var ae, flags := At(packet, lo, hi, lo), At(packet, lo, hi, lo + 1);
    e := d;
    if r.None? {
      if flags >= 0x80 {
        e := e.(prefix4 := None, prefix6 := None);
      }
      return;
    }
    var prefix := r.value.1;
    if flags >= 0x80 {
      if ae == 1 {
        e := e.(prefix4 := Some(prefix));
      } else {
        e := e.(prefix6 := Some(prefix));
      }
    }
    if flags % 0x80 >= 0x40 {
      if ae == 1 {
        e := e.(id := Some([0, 0, 0, 0] + prefix[12..]));
      } else {
        e := e.(id := Some(prefix[8..]));
      }
    }
  }

  method ReadChannels(rx: Receiver, packet: seq<u8>, lo: nat, hi: nat, rc: nat) returns (r: Attributes)
    requires lo + 10 + rc <= hi <= |packet|
    ensures r == UpdateChannels(rx, packet[lo..hi], rc)
  {
    if rx.faraway {
      return Attributes(false, []);
    }
    var channels := if ShortIn(packet, lo, hi, lo + 8) < 256 then [] else [INTERFERING];
    r := Attributes(false, channels);
    Rest(packet, lo, hi, 10 + rc);
    if 10 + rc < hi - lo {
      r := ReadUpdateAttributes(packet, lo + 10 + rc, hi, channels);
    }
  }

  method ReadUpdate(rx: Receiver, d: Decoder, packet: seq<u8>, lo: nat, hi: nat) returns (e: Decoder, ev: seq<Event>)
    requires lo + 10 <= hi <= |packet|
    ensures e == AfterUpdate(d, packet[lo..hi]) && ev == UpdateEvents(rx, d, packet[lo..hi])
  {
    var ae := At(packet, lo, hi, lo);
    var interval, seqno := ShortIn(packet, lo, hi, lo + 4), ShortIn(packet, lo, hi, lo + 6);
    var metric := ShortIn(packet, lo, hi, lo + 8);
    var r := ReadUpdatePrefix(d, packet, lo, hi);
    e := ReadUpdateState(d, packet, lo, hi, r);
    ev := [];
    if r.None? {
      return;
    }
    if e.id.None? && ae != 0 {
      return;
    }
    if ae == 0 {
      if metric >= INFINITY {
        ev := [RetractAll];
      }
      return;
    }
    if ae == 1 && (e.nh4.None? || !rx.ipv4) {
      return;
    }
    var attributes := ReadChannels(rx, packet, lo, hi, r.value.0);
    if !attributes.ignore {
      ev := [Update(e.id.value, Wide(ae, At(packet, lo, hi, lo + 2), r.value.1), seqno, metric, interval,
                    if ae == 1 then e.nh4 else e.nh6, attributes.channels)];
    }
  }

  // ---- Packets

  /** The offsets at which TLVs start. */
  function Starts(ts: seq<Tlv>, at: nat): seq<nat>
    requires AllFit(ts)
    decreases |ts|
  {
    if |ts| == 0 then [] else [at] + Starts(ts[1..], at + |Bytes(ts[0])|)
  }

  /** One TLV that passed examination, its body from `lo` to `hi`. */
  method ReadTlv(rx: Receiver, d: Decoder, kind: u8, packet: seq<u8>, lo: nat, hi: nat)
      returns (e: Decoder, ev: seq<Event>)
    requires lo <= hi <= |packet| && LongEnough(Tlv(kind, packet[lo..hi]))
    ensures e == AfterTlv(d, Tlv(kind, packet[lo..hi])) && ev == TlvEvents(rx, d, Tlv(kind, packet[lo..hi]))
  {
    e, ev := d, [];
    if kind == ACK_REQ {
      ev := [AckRequest(ShortIn(packet, lo, hi, lo + 2), ShortIn(packet, lo, hi, lo + 4))];
    } else if kind == HELLO {
      ev := ReadHello(packet, lo, hi);
    } else if kind == IHU {
      ev := ReadIhu(rx, packet, lo, hi);
    } else if kind == ROUTER_ID {
      Slice(packet, lo, hi, 2, 10);
      e := d.(id := Some(Within(packet, lo, hi, lo + 2, lo + 10)));
    } else if kind == NEXT_HOP {
      e := ReadNextHop(d, packet, lo, hi);
    } else if kind == UPDATE {
      e, ev := ReadUpdate(rx, d, packet, lo, hi);
    } else if kind == REQUEST {
      ev := ReadRequest(packet, lo, hi);
    } else if kind == MH_REQUEST {
      ev := ReadSeqnoRequest(packet, lo, hi);
    }
  }

  /** What is left to read at `i`. */
  ghost predicate Remaining(body: seq<u8>, i: nat, ts: seq<Tlv>) {
    i <= |body| && AllFit(ts) && AllLongEnough(ts) && Split(body[i..]) == Some(ts)
  }

  lemma {:induction false} NextTlv(body: seq<u8>, i: nat, ts: seq<Tlv>)
    requires Remaining(body, i, ts) && i < |body|
    ensures body[i] != 0 ==> i + 2 <= |body|
    ensures |ts| > 0 && Fits(ts[0]) && LongEnough(ts[0])
    ensures |Bytes(ts[0])| == if body[i] == 0 then 1 else 2 + body[i + 1] as int
    ensures body[i] == 0 ==> ts[0] == Pad1 && Remaining(body, i + 1, ts[1..])
    ensures body[i] != 0 ==>
              && i + 2 + body[i + 1] as int <= |body|
              && ts[0] == Tlv(body[i], body[i + 2..i + 2 + body[i + 1] as int])
              && Remaining(body, i + 2 + body[i + 1] as int, ts[1..])
  {
    var b := body[i..];
    if b[0] == 0 {
      assert b[1..] == body[i + 1..];
      assert ts[1..] == Split(b[1..]).value;
    } else {
      assert |b| >= 2 && b[1] == body[i + 1] && |b| >= 2 + b[1] as int;
      assert b[2..2 + b[1] as int] == body[i + 2..i + 2 + body[i + 1] as int];
      assert b[2 + b[1] as int..] == body[i + 2 + body[i + 1] as int..];
      assert ts[1..] == Split(b[2 + b[1] as int..]).value;
    }
  }

  /** What has been heard of `all` when `ts` are left. */
  ghost predicate HeardSoFar(rx: Receiver, all: seq<Tlv>, d: Decoder, ts: seq<Tlv>, ev: seq<Event>) {
    AllLongEnough(all) && AllLongEnough(ts) && Events(rx, FRESH, all) == ev + Events(rx, d, ts)
  }

  /** Where `all` has been visited when `ts` are left, which start at `at`. */
  ghost predicate VisitedSoFar(all: seq<Tlv>, ts: seq<Tlv>, visited: seq<nat>, at: nat) {
    AllFit(all) && AllFit(ts) && Starts(all, 4) == visited + Starts(ts, at)
  }

  lemma {:induction false} HeardStep(rx: Receiver, all: seq<Tlv>, d: Decoder, ts: seq<Tlv>, ev: seq<Event>)
    requires HeardSoFar(rx, all, d, ts, ev) && |ts| > 0
    ensures HeardSoFar(rx, all, AfterTlv(d, ts[0]), ts[1..], ev + TlvEvents(rx, d, ts[0]))
  {
    hide TlvEvents, AfterTlv;
    Regroup(ev, TlvEvents(rx, d, ts[0]), Events(rx, AfterTlv(d, ts[0]), ts[1..]));
  }

  lemma {:induction false} VisitedStep(all: seq<Tlv>, ts: seq<Tlv>, visited: seq<nat>, at: nat)
    requires VisitedSoFar(all, ts, visited, at) && |ts| > 0
    ensures VisitedSoFar(all, ts[1..], visited + [at], at + |Bytes(ts[0])|)
  {
    Regroup(visited, [at], Starts(ts[1..], at + |Bytes(ts[0])|));
  }

  lemma {:induction false} PadReads(rx: Receiver, d: Decoder)
    ensures AfterTlv(d, Pad1) == d && TlvEvents(rx, d, Pad1) == [] && |Bytes(Pad1)| == 1
  {
  }

  /** The type of the TLV at `i` of a body of `n` bytes, and where it ends. */
  method Bounds(packet: seq<u8>, n: nat, i: nat, ghost ts: seq<Tlv>) returns (kind: u8, end: nat)
    requires 4 + n <= |packet| && i < n && Remaining(packet[4..4 + n], i, ts)
    ensures |ts| > 0 && i < end <= n && Fits(ts[0]) && end - i == |Bytes(ts[0])| && LongEnough(ts[0])
    ensures kind == 0 ==> ts[0] == Pad1
    ensures kind != 0 ==> i + 2 <= end && ts[0] == Tlv(kind, packet[4 + i + 2..4 + end])
    ensures Remaining(packet[4..4 + n], end, ts[1..])
  {
    hide *;
    ghost var body := packet[4..4 + n];
    NextTlv(body, i, ts);
    kind := packet[4 + i];
    assert kind == body[i];
    if kind == 0 {
      return kind, i + 1;
    }
    var len := packet[4 + i + 1] as int;
    assert len == body[i + 1] as int;
    Slice(packet, 4, 4 + n, i + 2, i + 2 + len);
    end := i + len + 2;
  }

  method ReadAt(rx: Receiver, d: Decoder, packet: seq<u8>, kind: u8, i: nat, end: nat, ghost t: Tlv)
      returns (e: Decoder, ev: seq<Event>)
    requires LongEnough(t) && (kind == 0 ==> t == Pad1)
    requires kind != 0 ==> i + 2 <= end && 4 + end <= |packet| && t == Tlv(kind, packet[4 + i + 2..4 + end])
    ensures e == AfterTlv(d, t) && ev == TlvEvents(rx, d, t)
  {
    hide *;
    if kind == 0 {
      PadReads(rx, d);
      return d, [];
    }
    e, ev := ReadTlv(rx, d, kind, packet, 4 + i + 2, 4 + end);
  }

  method ReadOn(rx: Receiver, d: Decoder, packet: seq<u8>, kind: u8, i: nat, end: nat, ghost ts: seq<Tlv>,
                ghost all: seq<Tlv>, ghost before: seq<Event>)
      returns (e: Decoder, ev: seq<Event>)
    requires |ts| > 0 && LongEnough(ts[0]) && (kind == 0 ==> ts[0] == Pad1)
    requires kind != 0 ==> i + 2 <= end && 4 + end <= |packet| && ts[0] == Tlv(kind, packet[4 + i + 2..4 + end])
    requires HeardSoFar(rx, all, d, ts, before)
    ensures HeardSoFar(rx, all, e, ts[1..], before + ev)
  {
    hide *;
    e, ev := ReadAt(rx, d, packet, kind, i, end, ts[0]);
    HeardStep(rx, all, d, ts, before);
  }

  lemma {:induction false} NoneRemaining(body: seq<u8>, ts: seq<Tlv>)
    requires Remaining(body, |body|, ts)
    ensures ts == []
  {
    assert body[|body|..] == [];
  }

  lemma {:induction false} SoFarAtStart(rx: Receiver, all: seq<Tlv>)
    requires AllFit(all) && AllLongEnough(all)
    ensures HeardSoFar(rx, all, FRESH, all, []) && VisitedSoFar(all, all, [], 4)
  {
    hide TlvEvents, AfterTlv, Bytes;
  }

  lemma {:induction false} SoFarAtEnd(rx: Receiver, all: seq<Tlv>, d: Decoder, ev: seq<Event>, visited: seq<nat>,
                                      at: nat)
    requires HeardSoFar(rx, all, d, [], ev) && VisitedSoFar(all, [], visited, at)
    ensures ev == Events(rx, FRESH, all) && visited == Starts(all, 4)
  {
    hide TlvEvents, AfterTlv, Bytes;
  }

  method ParseBody(rx: Receiver, packet: seq<u8>, n: nat, ghost all: seq<Tlv>)
      returns (ev: seq<Event>, visited: seq<nat>)
    requires 4 + n <= |packet| && AllFit(all) && AllLongEnough(all) && Remaining(packet[4..4 + n], 0, all)
    ensures ev == Events(rx, FRESH, all) && visited == Starts(all, 4)
  {
    hide *;
    ghost var ts := all;
    var i, d := 0, FRESH;
    ev, visited := [], [];
    SoFarAtStart(rx, all);
    while i < n
      invariant i <= n && Remaining(packet[4..4 + n], i, ts)
      invariant HeardSoFar(rx, all, d, ts, ev) && VisitedSoFar(all, ts, visited, 4 + i)
    {
      var kind, end := Bounds(packet, n, i, ts);
      VisitedStep(all, ts, visited, 4 + i);
      var e, more := ReadOn(rx, d, packet, kind, i, end, ts, all, ev);
      visited, d, ev, i := visited + [4 + i], e, ev + more, end;
      ts := ts[1..];
    }
    NoneRemaining(packet[4..4 + n], ts);
    SoFarAtEnd(rx, all, d, ev, visited, 4 + i);
  }

  /** parse_packet: the second walk looks at nothing but the types and lengths that the first one checked. It meets
      the same TLVs, at the same places, and ends with the last of them. */
  method ParsePacket(rx: Receiver, from: Addr, packet: seq<u8>) returns (ev: seq<Event>, visited: seq<nat>)
    ensures ev == if LinkLocal(from) then PacketEvents(rx, packet) else []
    ensures LinkLocal(from) && Examined(packet).Some? ==>
              AllFit(Examined(packet).value) && visited == Starts(Examined(packet).value, 4)
  {
    ev, visited := [], [];
    if !LinkLocal(from) {
      return;
    }
    var length := Examine(packet);
    if length.None? {
      return;
    }
    ghost var body := packet[4..4 + length.value];
    SplitOk(body);
    assert body[0..] == body;
    ev, visited := ParseBody(rx, packet, length.value, Examined(packet).value);
  }
}
