/** Nothing is written that the reader knows already: how short the Updates of one packet are. */
module BabelCompress {
  import opened Basics
  import opened Address
  import opened BabelPrefix
  import opened BabelTlv
  import opened BabelDecode
  import opened BabelEncode
  import opened BabelRoundTrip

  /** The reader knows what the writer remembers, and no more. */
  predicate Exactly(enc: Encoder, d: Decoder) {
    InStep(enc, d) && (d.id.Some? ==> enc.id.Some?) && (d.nh4.Some? ==> enc.nh.Some?)
  }

  /** All bytes that an IPv6 prefix shares with the remembered one are omitted. */
  lemma {:induction false} OmitsAll(enc: Encoder, p: Prefix, k: nat)
    requires p.plen <= 128 && !IsV4(p) && k <= p.plen / 8
    requires enc.prefix.Some? && enc.prefix.value[..k] == p.addr[..k]
    ensures k <= Omitted(enc, p)
  {
    var a := enc.prefix.value;
    forall j | 0 <= j < k ensures a[j] == p.addr[j] {
      assert a[..k][j] == p.addr[..k][j];
    }
  }

  /**
   A next hop is written exactly if the reader has another one, and a router-id exactly if the Update alone would be
   taken for that of another router.
   */
  lemma {:induction false} NothingTwice(snd: Sender, enc: Encoder, d: Decoder, m: Message)
    requires m.SendUpdate? && MessageOk(snd, m) && Exactly(enc, d)
    ensures
      var b := UpdateTlv(snd, enc, m).body;
      && (NextHopPart(snd, enc, m) == [] <==> (IsV4(m.prefix) ==> d.nh4 == Some(V4PREFIX + snd.ipv4.value)))
      && |b| >= 10 && (IdPart(enc, m) == [] <==> AfterUpdate(d, b).id == Some(m.id))
  {
    StateRead(snd, enc, d, m);
    hide UpdateTlv, AfterUpdate, IsV4;
    if IsV4(m.prefix) && enc.nh.Some? {
      assert (V4PREFIX + enc.nh.value)[12..] == enc.nh.value && (V4PREFIX + snd.ipv4.value)[12..] == snd.ipv4.value;
    }
  }

  /** The host route of a router whose address holds its router-id never needs the TLV. */
  lemma {:induction false} HostRouteAlone(snd: Sender, enc: Encoder, m: Message)
    requires m.SendUpdate? && MessageOk(snd, m) && !IsV4(m.prefix) && m.prefix.plen == 128 && m.prefix.addr[8..] == m.id
    ensures Emit(snd, enc, m) == [UpdateTlv(snd, enc, m)]
  {
    hide UpdateTlv;
    assert [] + [] + [UpdateTlv(snd, enc, m)] == [UpdateTlv(snd, enc, m)];
  }

  // ---- Which prefix is remembered

  function NextAll(snd: Sender, enc: Encoder, ms: seq<Message>): Encoder
    requires forall m | m in ms :: MessageOk(snd, m)
    decreases |ms|
  {
    if |ms| == 0 then enc else NextAll(snd, Next(snd, enc, ms[0]), ms[1..])
  }

  predicate Wide6(m: Message) { m.SendUpdate? && !IsV4(m.prefix) }

  /** Long enough that others are likely to share its beginning. */
  predicate Long6(m: Message) { Wide6(m) && m.prefix.plen >= 48 }

  /** Without a long prefix, the one that is remembered stays, or else the first becomes it. */
  lemma {:induction false} RemembersFirst(snd: Sender, enc: Encoder, ms: seq<Message>, i: nat)
    requires forall m | m in ms :: MessageOk(snd, m) && !Long6(m)
    requires i <= |ms| && (forall j | 0 <= j < i :: !Wide6(ms[j])) && (i < |ms| ==> Wide6(ms[i]))
    ensures
      NextAll(snd, enc, ms).prefix
      == if enc.prefix.Some? then enc.prefix else if i < |ms| then Some(ms[i].prefix.addr) else None
    decreases |ms|
  {
    hide MessageOk, IsV4;
    if |ms| > 0 {
      assert ms[0] in ms;
      var enc1 := Next(snd, enc, ms[0]);
      if i == 0 {
        var k := FirstWide(ms[1..]);
        RemembersFirst(snd, enc1, ms[1..], k);
      } else {
        RemembersFirst(snd, enc1, ms[1..], i - 1);
      }
    }
  }

  lemma {:induction false} FirstWide(ms: seq<Message>) returns (i: nat)
    ensures i <= |ms| && (forall j | 0 <= j < i :: !Wide6(ms[j])) && (i < |ms| ==> Wide6(ms[i]))
  {
    hide Wide6;
    i := 0;
    while i < |ms| && !Wide6(ms[i])
      invariant i <= |ms| && forall j | 0 <= j < i :: !Wide6(ms[j])
    {
      i := i + 1;
    }
  }

  lemma {:induction false} NextAllConcat(snd: Sender, enc: Encoder, a: seq<Message>, b: seq<Message>)
    requires forall m | m in a + b :: MessageOk(snd, m)
    requires (forall m | m in a :: MessageOk(snd, m)) && (forall m | m in b :: MessageOk(snd, m))
    ensures NextAll(snd, enc, a + b) == NextAll(snd, NextAll(snd, enc, a), b)
    decreases |a|
  {
    hide MessageOk, Next;
    if |a| == 0 {
      assert a + b == b;
    } else {
      assert (a + b)[1..] == a[1..] + b;
      NextAllConcat(snd, Next(snd, enc, a[0]), a[1..], b);
    }
  }

  /** The last long prefix of the packet is the one that later Updates are written against. */
  lemma {:induction false} RemembersLast(snd: Sender, enc: Encoder, ms: seq<Message>, i: nat)
    requires forall m | m in ms :: MessageOk(snd, m)
    requires i < |ms| && Long6(ms[i]) && forall j | i < j < |ms| :: !Long6(ms[j])
    ensures NextAll(snd, enc, ms).prefix == Some(ms[i].prefix.addr)
  {
    hide MessageOk, IsV4;
    var a, b := ms[..i + 1], ms[i + 1..];
    assert ms == a + b && a == ms[..i] + [ms[i]] && ms[i] in ms;
    forall m | m in b ensures !Long6(m) {
    }
    NextAllConcat(snd, enc, a, b);
    NextAllConcat(snd, enc, ms[..i], [ms[i]]);
    var k := FirstWide(b);
    RemembersFirst(snd, NextAll(snd, enc, a), b, k);
  }
}
