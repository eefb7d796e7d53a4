/** What the sub-TLVs of an Update mean, and how far parse_update_subtlv keeps to them. */
module BabelAttributes {
  import opened Basics
  import opened BabelTlv
  import opened BabelDecode

  // ---- Framing

  /** The bytes at the end of which no whole sub-TLV can be found. */
  predicate Broken(b: seq<u8>) { |b| > 0 ==> b[0] != 0 && (|b| < 2 || |b| < 2 + b[1] as int) }

  /** The length of the sub-TLV that the bytes begin with. */
  function FrameLength(b: seq<u8>): (n: nat)
    requires !Broken(b)
    ensures 0 < n <= |b|
  {
    if b[0] == 0 then 1 else 2 + b[1] as int
  }

  function Frame(b: seq<u8>): Tlv
    requires !Broken(b)
  {
    if b[0] == 0 then Pad1 else Tlv(b[0], b[2..2 + b[1] as int])
  }

  /** The whole sub-TLVs at the beginning. */
  function Frames(b: seq<u8>): seq<Tlv> {
    if Broken(b) then [] else [Frame(b)] + Frames(b[FrameLength(b)..])
  }

  /** Where sub-TLVs begin, the last of them possibly broken; the first byte is at `at`. */
  function Starts(b: seq<u8>, at: nat): seq<nat> {
    if |b| == 0 then []
    else if Broken(b) then [at]
    else [at] + Starts(b[FrameLength(b)..], at + FrameLength(b))
  }

  /** Every reading of the bytes as whole sub-TLVs and a broken rest is this one. */
  lemma {:induction false} FramesOf(ts: seq<Tlv>, rest: seq<u8>)
    requires AllFit(ts) && Broken(rest)
    ensures Frames(Serial(ts) + rest) == ts
  {
    hide Frames, Frame, FrameLength, Bytes, Fits;
    if |ts| == 0 {
      assert Serial(ts) + rest == rest;
      NoFrames(rest);
    } else {
      var more := Serial(ts[1..]) + rest;
      assert Serial(ts) + rest == Bytes(ts[0]) + more;
      FramesFirst(ts[0], more);
      FramesOf(ts[1..], rest);
    }
  }

  lemma {:induction false} NoFrames(rest: seq<u8>)
    requires Broken(rest)
    ensures Frames(rest) == []
  {
  }

  lemma {:induction false} FramesFirst(t: Tlv, more: seq<u8>)
    requires Fits(t)
    ensures Frames(Bytes(t) + more) == [t] + Frames(more)
  {
    FrameOf(t, more);
  }

  lemma {:induction false} FrameOf(t: Tlv, more: seq<u8>)
    requires Fits(t)
    ensures var b := Bytes(t) + more; !Broken(b) && Frame(b) == t && b[FrameLength(b)..] == more
  {
    var b := Bytes(t) + more;
    if t.Tlv? {
      assert b[0] == t.kind && b[1] == |t.body|;
      assert b[2..2 + b[1]] == t.body;
    }
    assert b[|Bytes(t)|..] == more;
  }

  // ---- Meaning

  /** The channels of a list that are looked at. */
  function Cut(body: seq<u8>): seq<u8> { if |body| > DIVERSITY_HOPS then body[..DIVERSITY_HOPS] else body }

  /** Sub-TLVs are taken in turn: a mandatory one that is not known voids the Update, a list with a zero ends it all. */
  function AttributesOf(ts: seq<Tlv>, channels: seq<u8>): Attributes {
    if |ts| == 0 then Attributes(false, channels)
    else match ts[0]
      case Pad1 => AttributesOf(ts[1..], channels)
      case Tlv(kind, body) =>
        if kind >= 0x80 then Attributes(true, channels)
        else if kind != 2 then AttributesOf(ts[1..], channels)
        else if 0 in Cut(body) then Attributes(false, channels)
        else AttributesOf(ts[1..], Cut(body))
  }

  /** An overlong channel list is reached. */
  predicate MeetsOverlong(ts: seq<Tlv>) {
    |ts| > 0 &&
    match ts[0]
    case Pad1 => MeetsOverlong(ts[1..])
    case Tlv(kind, body) =>
      && kind < 0x80
      && if kind != 2 then MeetsOverlong(ts[1..])
         else 0 !in Cut(body) && (|body| > DIVERSITY_HOPS || MeetsOverlong(ts[1..]))
  }

  // ---- The walk

  /** Where parse_update_subtlv looks for sub-TLVs. */
  function Visits(b: seq<u8>, channels: seq<u8>, at: nat): seq<nat>
    decreases |b|
  {
    if |b| == 0 then []
    else match AttributeStep(b, channels)
      case Done(_) => [at]
      case More(n, c) => [at] + Visits(b[n..], c, at + n)
  }

  /** How one step of the walk compares with the sub-TLV it is at. */
  lemma {:induction false} StepFrame(b: seq<u8>, channels: seq<u8>)
    requires |b| > 0
    ensures Broken(b) ==> AttributeStep(b, channels) == Done(Attributes(false, channels))
    ensures
      !Broken(b) ==>
        match Frame(b)
        case Pad1 => AttributeStep(b, channels) == More(FrameLength(b), channels)
        case Tlv(kind, body) =>
          AttributeStep(b, channels) ==
            if kind >= 0x80 then Done(Attributes(true, channels))
            else if kind != 2 then More(FrameLength(b), channels)
            else if 0 in Cut(body) then Done(Attributes(false, channels))
            else More(2 + |Cut(body)|, Cut(body))
  {
    if !Broken(b) && b[0] == 2 {
      var n: nat := if b[1] > DIVERSITY_HOPS then DIVERSITY_HOPS else b[1];
      assert Cut(b[2..2 + b[1]]) == b[2..2 + n];
    }
  }

  /** For all bytes: unless an overlong channel list is reached, the walk computes what the sub-TLVs mean. */
  lemma {:induction false} AttributesMeant(b: seq<u8>, channels: seq<u8>)
    requires !MeetsOverlong(Frames(b))
    ensures UpdateAttributes(b, channels) == AttributesOf(Frames(b), channels)
    decreases |b|
  {
    hide AttributeStep;
    if |b| > 0 {
      StepFrame(b, channels);
      if !Broken(b) {
        var rest := b[FrameLength(b)..];
        assert Frames(b)[1..] == Frames(rest);
        match AttributeStep(b, channels)
        case Done(_) =>
        case More(n, c) =>
          assert b[n..] == rest;
          AttributesMeant(rest, c);
      }
    }
  }

  /** The walk looks for sub-TLVs where they begin, all the way, if and only if it reaches no overlong channel list. */
  lemma {:induction false} FramingKeptIff(b: seq<u8>, channels: seq<u8>, at: nat)
    ensures Visits(b, channels, at) <= Starts(b, at) <==> !MeetsOverlong(Frames(b))
    decreases |b|
  {
    hide AttributeStep, Frame, FrameLength, MeetsOverlong, Frames, Visits, Starts;
    MeetsOn(b, channels);
    if |b| > 0 && !Broken(b) && AttributeStep(b, channels).More? {
      VisitsOn(b, channels, at);
      var n, s := FrameLength(b), AttributeStep(b, channels);
      if s.used == n {
        FramingKeptIff(b[n..], s.state, at + n);
      }
    } else {
      VisitsEnd(b, channels, at);
    }
  }

  lemma {:induction false} VisitsEnd(b: seq<u8>, channels: seq<u8>, at: nat)
    requires |b| == 0 || Broken(b) || AttributeStep(b, channels).Done?
    ensures Visits(b, channels, at) <= Starts(b, at)
  {
    hide AttributeStep, Frame;
    if |b| > 0 {
      StepFrame(b, channels);
      assert Visits(b, channels, at) == [at] && Starts(b, at)[0] == at;
    }
  }

  /** An overlong list is met at the sub-TLV at hand, or later if the walk goes on. */
  lemma {:induction false} MeetsOn(b: seq<u8>, channels: seq<u8>)
    ensures
      MeetsOverlong(Frames(b)) <==>
        && |b| > 0 && !Broken(b) && AttributeStep(b, channels).More?
        && (AttributeStep(b, channels).used < FrameLength(b) || MeetsOverlong(Frames(b[FrameLength(b)..])))
  {
    hide AttributeStep;
    if |b| > 0 && !Broken(b) {
      StepFrame(b, channels);
      assert Frames(b)[1..] == Frames(b[FrameLength(b)..]);
    }
  }

  /** The walk goes on at the next sub-TLV, or inside an overlong list. */
  lemma {:induction false} VisitsOn(b: seq<u8>, channels: seq<u8>, at: nat)
    requires |b| > 0 && !Broken(b) && AttributeStep(b, channels).More?
    ensures
      var n, s := FrameLength(b), AttributeStep(b, channels);
      && s.used <= n && (s.used < n <==> Frame(b).Tlv? && b[0] == 2 && |Frame(b).body| > DIVERSITY_HOPS)
      && (Visits(b, channels, at) <= Starts(b, at) <==>
            s.used == n && Visits(b[n..], s.state, at + n) <= Starts(b[n..], at + n))
  {
    var n, s := FrameLength(b), AttributeStep(b, channels);
    var v, t := Visits(b[s.used..], s.state, at + s.used), Starts(b[n..], at + n);
    SamePrefix(at, v, t);
    assert s.used <= n && (s.used < n <==> Frame(b).Tlv? && b[0] == 2 && |Frame(b).body| > DIVERSITY_HOPS) by {
      StepFrame(b, channels);
    }
    hide AttributeStep, Frame, FrameLength, Broken;
    assert Visits(b, channels, at) == [at] + v && Starts(b, at) == [at] + t;
    if s.used < n {
      assert |v| > 0 && v[0] == at + s.used;
      assert |t| > 0 ==> t[0] == at + n;
    }
  }

  lemma {:induction false} SamePrefix(x: nat, p: seq<nat>, q: seq<nat>)
    ensures [x] + p <= [x] + q <==> p <= q
  {
    if [x] + p <= [x] + q {
      forall i | 0 <= i < |p| ensures p[i] == q[i] { assert ([x] + p)[i + 1] == ([x] + q)[i + 1]; }
    }
  }

  /** Nine channels, the last of them 0x80, and a padding byte. */
  const NINE: seq<u8> := [2, 9, 1, 1, 1, 1, 1, 1, 1, 1, 0x80, 0]

  /** The ninth channel is taken for a mandatory sub-TLV. */
  lemma {:induction false} OverlongListMisread()
    ensures UpdateAttributes(NINE, []) == Attributes(true, [1, 1, 1, 1, 1, 1, 1, 1])
    ensures AttributesOf(Frames(NINE), []) == Attributes(false, [1, 1, 1, 1, 1, 1, 1, 1])
  {
    hide AttributesOf, Frames;
    assert NINE[2..10] == [1, 1, 1, 1, 1, 1, 1, 1] && NINE[10..] == [0x80, 0];
    assert AttributeStep(NINE, []) == More(10, [1, 1, 1, 1, 1, 1, 1, 1]);
    NineMeant();
  }

  lemma {:induction false} NineMeant()
    ensures AttributesOf(Frames(NINE), []) == Attributes(false, [1, 1, 1, 1, 1, 1, 1, 1])
  {
    hide Frames;
    var ts := [Tlv(2, [1, 1, 1, 1, 1, 1, 1, 1, 0x80]), Pad1];
    assert ts[1..] == [Pad1] && [Pad1][1..] == [];
    assert Serial(ts) + [] == NINE;
    FramesOf(ts, []);
    assert Cut(ts[0].body) == [1, 1, 1, 1, 1, 1, 1, 1];
  }

  // ---- Time stamps

  /** The time stamp of a Hello: that of the last sub-TLV that holds one. */
  function HelloStampOf(ts: seq<Tlv>, found: Option<u32>): Option<u32> {
    if |ts| == 0 then found
    else
      var now := if ts[0].Tlv? && ts[0].kind == 3 && |ts[0].body| >= 4 then Some(GetLong(ts[0].body)) else found;
      HelloStampOf(ts[1..], now)
  }

  predicate AllOptional(ts: seq<Tlv>) { forall t | t in ts && t.Tlv? :: t.kind < 0x80 }

  /** For all bytes: the stamp is found if the sub-TLVs are whole and none is mandatory; otherwise there is none. */
  lemma {:induction false} HelloStampMeant(b: seq<u8>, found: Option<u32>)
    ensures
      HelloStamp(b, found)
      == if Split(b).Some? && AllOptional(Split(b).value) then HelloStampOf(Split(b).value, found) else None
    decreases |b|
  {
    hide HelloStampStep;
    if |b| > 0 {
      HelloStampFrame(b, found);
      if !Broken(b) && (b[0] == 0 || b[0] < 0x80) {
        var rest := b[FrameLength(b)..];
        HelloStampMeant(rest, HelloStampStep(b, found).state);
        if Split(rest).Some? {
          var ts := Split(b).value;
          assert ts == [Frame(b)] + Split(rest).value && ts[1..] == Split(rest).value;
          assert AllOptional(ts) <==> AllOptional(ts[1..]);
        }
      } else if !Broken(b) && Split(b).Some? {
        assert Split(b).value[0] in Split(b).value;
      }
    }
  }

  lemma {:induction false} HelloStampFrame(b: seq<u8>, found: Option<u32>)
    requires |b| > 0
    ensures Broken(b) || b[0] >= 0x80 ==> HelloStampStep(b, found) == Done(None)
    ensures
      !Broken(b) && b[0] < 0x80 ==>
        var t := Frame(b);
        HelloStampStep(b, found)
        == More(FrameLength(b),
                if t.Tlv? && t.kind == 3 && |t.body| >= 4 then Some(GetLong(t.body)) else found)
  {
    if !Broken(b) && b[0] == 3 && b[1] >= 4 {
      LongSame(b[2..], b[2..2 + b[1] as int]);
    }
  }

  lemma {:induction false} LongSame(a: seq<u8>, b: seq<u8>)
    requires 4 <= |b| <= |a| && a[..|b|] == b
    ensures GetLong(a) == GetLong(b)
  {
    assert b[0] == a[..|b|][0] && b[1] == a[..|b|][1] && b[2] == a[..|b|][2] && b[3] == a[..|b|][3];
  }

  /** The time stamps of an IHU: those of the last sub-TLV that holds two. */
  function IhuStampsOf(ts: seq<Tlv>, found: Option<(u32, u32)>): Option<(u32, u32)> {
    if |ts| == 0 then found
    else
      var t := ts[0];
      IhuStampsOf(ts[1..], if t.Tlv? && t.kind == 3 && |t.body| >= 8 then Some((GetLong(t.body), GetLong(t.body[4..])))
                           else found)
  }

  /** For all bytes: what the whole sub-TLVs before a broken rest say is kept. */
  lemma {:induction false} IhuStampsMeant(b: seq<u8>, found: Option<(u32, u32)>)
    ensures IhuStamps(b, found) == IhuStampsOf(Frames(b), found)
    decreases |b|
  {
    hide IhuStampStep;
    if |b| > 0 {
      IhuStampsFrame(b, found);
      if !Broken(b) {
        var rest := b[FrameLength(b)..];
        assert Frames(b)[1..] == Frames(rest);
        IhuStampsMeant(rest, IhuStampStep(b, found).state);
      }
    }
  }

  lemma {:induction false} IhuStampsFrame(b: seq<u8>, found: Option<(u32, u32)>)
    requires |b| > 0
    ensures Broken(b) ==> IhuStampStep(b, found) == Done(found)
    ensures
      !Broken(b) ==>
        var t := Frame(b);
        IhuStampStep(b, found)
        == More(FrameLength(b),
                if t.Tlv? && t.kind == 3 && |t.body| >= 8 then Some((GetLong(t.body), GetLong(t.body[4..]))) else found)
  {
    if !Broken(b) && b[0] == 3 && b[1] >= 8 {
      var t := b[2..2 + b[1] as int];
      LongSame(b[2..], t);
      assert b[6..][..|t[4..]|] == t[4..];
      LongSame(b[6..], t[4..]);
    }
  }
}
