/** Framing: a packet body is a sequence of TLVs (sections 4.2 and 4.3 of RFC 8966). */
module BabelTlv {
  import opened Basics

  const ACK_REQ: u8 := 2
  const HELLO: u8 := 4
  const IHU: u8 := 5
  const ROUTER_ID: u8 := 6
  const NEXT_HOP: u8 := 7
  const UPDATE: u8 := 8
  const REQUEST: u8 := 9
  const MH_REQUEST: u8 := 10

  datatype Tlv = Pad1 | Tlv(kind: u8, body: seq<u8>)

  predicate Fits(t: Tlv) { t.Tlv? ==> t.kind != 0 && |t.body| < 0x100 }

  /** The least length of a body, by type; zero where there is none. */
  function MinLength(kind: u8): nat {
    match kind
    case 2 => 6
    case 3 => 2
    case 4 => 6
    case 5 => 6
    case 6 => 10
    case 7 => 2
    case 8 => 10
    case 9 => 2
    case 10 => 14
    case _ => 0
  }

  predicate LongEnough(t: Tlv) { t.Tlv? ==> |t.body| >= MinLength(t.kind) }

  predicate AllFit(ts: seq<Tlv>) { forall t | t in ts :: Fits(t) }

  predicate AllLongEnough(ts: seq<Tlv>) { forall t | t in ts :: LongEnough(t) }

  function Bytes(t: Tlv): (b: seq<u8>)
    requires Fits(t)
    ensures |b| > 0
  {
    if t.Pad1? then [0] else [t.kind, |t.body|] + t.body
  }

  function Serial(ts: seq<Tlv>): seq<u8>
    requires AllFit(ts)
  {
    if |ts| == 0 then [] else Bytes(ts[0]) + Serial(ts[1..])
  }

  lemma {:induction false} SerialConcat(a: seq<Tlv>, b: seq<Tlv>)
    requires AllFit(a) && AllFit(b)
    ensures AllFit(a + b) && Serial(a + b) == Serial(a) + Serial(b)
  {
    if |a| == 0 {
      assert a + b == b;
    } else {
      assert (a + b)[1..] == a[1..] + b;
      SerialConcat(a[1..], b);
      assert Bytes(a[0]) + (Serial(a[1..]) + Serial(b)) == Bytes(a[0]) + Serial(a[1..]) + Serial(b);
    }
  }

  /** The TLVs of a body, if it is made of whole TLVs. */
  function Split(b: seq<u8>): (r: Option<seq<Tlv>>) {
    if |b| == 0 then Some([])
    else if b[0] == 0 then Cons(Pad1, Split(b[1..]))
    else if |b| < 2 || |b| < 2 + b[1] as int then None
    else Cons(Tlv(b[0], b[2..2 + b[1]]), Split(b[2 + b[1]..]))
  }

  function Cons(t: Tlv, r: Option<seq<Tlv>>): Option<seq<Tlv>> {
    if r.None? then None else Some([t] + r.value)
  }

  lemma {:induction false} SplitOk(b: seq<u8>)
    ensures Split(b).Some? ==> AllFit(Split(b).value) && Serial(Split(b).value) == b
  {
    if |b| > 0 && Split(b).Some? {
      var t := Split(b).value[0];
      var rest := if b[0] == 0 then b[1..] else b[2 + b[1]..];
      SplitOk(rest);
      assert Split(b).value == [t] + Split(rest).value;
      assert Split(b).value[1..] == Split(rest).value;
      assert Bytes(t) + rest == b;
    }
  }

  lemma {:induction false} SplitSerial(ts: seq<Tlv>)
    requires AllFit(ts)
    ensures Split(Serial(ts)) == Some(ts)
  {
    if |ts| > 0 {
      SplitSerial(ts[1..]);
      SplitFirst(ts[0], Serial(ts[1..]));
      assert [ts[0]] + ts[1..] == ts;
    }
  }

  lemma {:induction false} SplitFirst(t: Tlv, rest: seq<u8>)
    requires Fits(t)
    ensures Split(Bytes(t) + rest) == Cons(t, Split(rest))
  {
    var b := Bytes(t) + rest;
    if t.Pad1? {
      assert b[1..] == rest;
    } else {
      assert b[0] == t.kind && b[1] == |t.body|;
      assert b[2..2 + b[1]] == t.body && b[2 + b[1]..] == rest;
    }
  }

  /** A body has at most one reading, and it has one exactly when it is the concatenation of whole TLVs. */
  lemma {:induction false} SplitIff(b: seq<u8>, ts: seq<Tlv>)
    ensures Split(b) == Some(ts) <==> AllFit(ts) && Serial(ts) == b
  {
    SplitOk(b);
    if AllFit(ts) && Serial(ts) == b {
      SplitSerial(ts);
    }
  }

  // ---- Packets

  /** The length that a header announces, if the packet is that long. */
  function BodyLength(packet: seq<u8>): Option<nat> {
    if |packet| < 4 || packet[0] != 42 || packet[1] != 2 then None
    else
      var n := GetShort(packet[2..]);
      if n + 4 > |packet| then None else Some(n)
  }

  /** The TLVs of a packet that passes examination. */
  function Examined(packet: seq<u8>): Option<seq<Tlv>> {
    var n := BodyLength(packet);
    if n.None? then None
    else
      var ts := Split(packet[4..4 + n.value]);
      if ts.Some? && AllLongEnough(ts.value) then ts else None
  }

  /** A packet is accepted exactly when its header is right and its announced body is a sequence of whole TLVs, none
      too short; and then it is read as those. */
  lemma {:induction false} ExaminedIff(packet: seq<u8>, ts: seq<Tlv>)
    ensures Examined(packet) == Some(ts) <==>
            && BodyLength(packet).Some? && AllFit(ts) && AllLongEnough(ts)
            && Serial(ts) == packet[4..4 + BodyLength(packet).value]
  {
    if BodyLength(packet).Some? {
      SplitIff(packet[4..4 + BodyLength(packet).value], ts);
    }
  }

  function Packet(body: seq<u8>): seq<u8>
    requires |body| < 0x10000
  {
    [42, 2] + Short(|body|) + body
  }

  lemma {:induction false} PacketBody(body: seq<u8>)
    requires |body| < 0x10000
    ensures BodyLength(Packet(body)) == Some(|body|) && Packet(body)[4..4 + |body|] == body
  {
    var packet := Packet(body);
    assert packet[2..] == Short(|body|) + body;
    ShortRoundTrip(|body|, body);
  }

  /** A packet made of whole TLVs, none too short, is accepted as those TLVs. */
  lemma {:induction false} PacketExamined(ts: seq<Tlv>)
    requires AllFit(ts) && AllLongEnough(ts) && |Serial(ts)| < 0x10000
    ensures Examined(Packet(Serial(ts))) == Some(ts)
  {
    SplitSerial(ts);
    PacketBody(Serial(ts));
  }

  // ---- Examination

  /** babel_packet_examin: the announced length of a well-formed packet. */
  method Examine(packet: seq<u8>) returns (length: Option<nat>)
    ensures length.Some? <==> Examined(packet).Some?
    ensures length.Some? ==> length == BodyLength(packet)
  {
    hide GoodFrom;
    if |packet| < 4 || packet[0] != 42 || packet[1] != 2 {
      return None;
    }
    var n := GetShort(packet[2..]);
    if n + 4 > |packet| {
      return None;
    }
    ghost var body := packet[4..4 + n];
    var i := 0;
    GoodEnds(body);
    while i < n
      invariant 0 <= i <= n
      invariant GoodFrom(body, 0) <==> GoodFrom(body, i)
    {
      var kind := packet[4 + i];
      assert kind == body[i];
      GoodStep(body, i);
      if kind == 0 {
        i := i + 1;
        continue;
      }
      if i + 2 > n {
        return None;
      }
      var len := packet[4 + i + 1];
      assert len == body[i + 1];
      if i + len + 2 > n {
        return None;
      }
      if kind <= 10 && len < MinLength(kind) {
        return None;
      }
      i := i + len + 2;
    }
    return Some(n);
  }

  /** The body from `i` on is whole TLVs, none too short. */
  predicate GoodFrom(body: seq<u8>, i: nat)
    requires i <= |body|
  {
    var ts := Split(body[i..]);
    ts.Some? && AllLongEnough(ts.value)
  }

  lemma {:induction false} GoodEnds(body: seq<u8>)
    ensures GoodFrom(body, 0) <==> Split(body).Some? && AllLongEnough(Split(body).value)
    ensures GoodFrom(body, |body|)
  {
    assert body[0..] == body && body[|body|..] == [];
  }

  lemma {:induction false} GoodStep(body: seq<u8>, i: nat)
    requires i < |body|
    ensures body[i] == 0 ==> (GoodFrom(body, i) <==> GoodFrom(body, i + 1))
    ensures body[i] != 0 && i + 1 < |body| && i + 2 + body[i + 1] <= |body| ==>
              (GoodFrom(body, i) <==> body[i + 1] >= MinLength(body[i]) && GoodFrom(body, i + 2 + body[i + 1]))
    ensures body[i] != 0 && (i + 1 == |body| || i + 2 + body[i + 1] > |body|) ==> !GoodFrom(body, i)
  {
    hide AllLongEnough, MinLength;
    var b := body[i..];
    if b[0] == 0 {
      assert b[1..] == body[i + 1..];
      ConsLongEnough(Pad1, Split(body[i + 1..]));
    } else if i + 1 < |body| && i + 2 + body[i + 1] <= |body| {
      assert b[1] == body[i + 1];
      assert b[2 + b[1]..] == body[i + 2 + body[i + 1]..];
      ConsLongEnough(Tlv(b[0], b[2..2 + b[1]]), Split(b[2 + b[1]..]));
    }
  }

  lemma {:induction false} ConsLongEnough(t: Tlv, r: Option<seq<Tlv>>)
    ensures r.Some? ==> (AllLongEnough(Cons(t, r).value) <==> LongEnough(t) && AllLongEnough(r.value))
  {
    if r.Some? {
      var ts := [t] + r.value;
      assert ts[0] == t;
      forall x | x in r.value ensures x in ts {
      }
    }
  }

  /** The least body of each TLV, as the protocol has it; one TLV that is shorter voids the whole packet. */
  lemma {:induction false} TooShortVoids(t: Tlv, before: seq<Tlv>, after: seq<Tlv>)
    requires Fits(t) && AllFit(before) && AllFit(after) && |Serial(before + [t] + after)| < 0x10000 && t.Tlv?
    requires
      || (t.kind == ACK_REQ && |t.body| < 6) || (t.kind == 3 && |t.body| < 2) || (t.kind == HELLO && |t.body| < 6)
      || (t.kind == IHU && |t.body| < 6) || (t.kind == ROUTER_ID && |t.body| < 10)
      || (t.kind == NEXT_HOP && |t.body| < 2) || (t.kind == UPDATE && |t.body| < 10)
      || (t.kind == REQUEST && |t.body| < 2) || (t.kind == MH_REQUEST && |t.body| < 14)
    ensures Examined(Packet(Serial(before + [t] + after))) == None
  {
    var ts := before + [t] + after;
    assert t in ts && !LongEnough(t);
    SplitSerial(ts);
    PacketBody(Serial(ts));
  }

  /** A packet of another protocol or version, or shorter than it says, is refused whatever it holds. */
  lemma {:induction false} HeaderRefused(packet: seq<u8>)
    requires
      || |packet| < 4 || packet[0] != 42 || packet[1] != 2
      || (packet[2] as int) * 0x100 + packet[3] as int + 4 > |packet|
    ensures Examined(packet) == None
  {
  }
}
