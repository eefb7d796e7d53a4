/** What the sub-TLVs of a route request mean, and exactly when parse_request_subtlv finds that out. */
module BabelRequest {
  import opened Basics
  import opened Address
  import opened BabelPrefix
  import opened BabelTlv
  import opened BabelDecode

  // ---- Meaning

  /** How a sub-TLV is to be treated. */
  datatype Class = Padding | Optional | SourcePrefix | Mandatory

  function ClassOf(kind: u8): Class {
    if kind == 0 then Padding else if kind < 0x80 then Optional else if kind == 0x80 then SourcePrefix else Mandatory
  }

  /** The prefix that a source prefix sub-TLV holds. */
  function SourceIn(ae: u8, body: seq<u8>): Option<Prefix> {
    if |body| == 0 || body[0] == 0 then None
    else
      var r := NetworkPrefix(ae, body[0], 0, body[1..], None);
      if r.None? then None else Some(Prefix(r.value.1, if ae == 1 then body[0] + 96 else body[0]))
  }

  /** The source prefix asked for, if any; none at all if the request is to be dropped. */
  function SourceOfTlvs(ae: u8, ts: seq<Tlv>, source: Option<Prefix>): Option<Option<Prefix>> {
    if |ts| == 0 then Some(source)
    else match ts[0]
      case Pad1 => SourceOfTlvs(ae, ts[1..], source)
      case Tlv(kind, body) =>
        if kind < 0x80 then SourceOfTlvs(ae, ts[1..], source)
        else if kind > 0x80 || source.Some? || SourceIn(ae, body).None? then None
        else SourceOfTlvs(ae, ts[1..], SourceIn(ae, body))
  }

  /** Bytes that are not made of whole sub-TLVs void the request. */
  function SourceMeant(ae: u8, b: seq<u8>, source: Option<Prefix>): Option<Option<Prefix>> {
    var ts := Split(b);
    if ts.None? then None else SourceOfTlvs(ae, ts.value, source)
  }

  // ---- The walk

  /** One step at the bytes `b`, with the sub-TLV taken to be of class `c`. */
  function Treat(ae: u8, c: Class, b: seq<u8>, source: Option<Prefix>)
    : (s: Step<Option<Option<Prefix>>, Option<Prefix>>)
    requires |b| > 0
    ensures s.More? ==> 0 < s.used <= |b|
  {
    if c == Padding then More(1, source)
    else if |b| < 2 || |b| < 2 + b[1] as int then Done(None)
    else
      var n, body := 2 + b[1] as int, b[2..2 + b[1] as int];
      if c == Optional then More(n, source)
      else if c == Mandatory || source.Some? || SourceIn(ae, body).None? then Done(None)
      else More(n, SourceIn(ae, body))
  }

  /** The code takes every sub-TLV to be of the class of the first. */
  lemma {:induction false} StepTreats(ae: u8, a: seq<u8>, i: nat, source: Option<Prefix>)
    requires i < |a|
    ensures SourceStep(ae, a, i, source) == Treat(ae, ClassOf(a[0]), a[i..], source)
  {
    hide NetworkPrefix;
    var b := a[i..];
    if |b| >= 2 && |b| >= 2 + b[1] as int && b[1] > 0 {
      var body := b[2..2 + b[1] as int];
      assert body[0] == a[i + 2] && body[1..] == a[i + 3..i + 2 + a[i + 1] as int];
    }
  }

  /** The walk with a fixed class. */
  function WalkAs(ae: u8, c: Class, b: seq<u8>, source: Option<Prefix>): Option<Option<Prefix>>
    decreases |b|
  {
    if |b| == 0 then Some(source)
    else match Treat(ae, c, b, source)
      case Done(r) => r
      case More(n, s) => WalkAs(ae, c, b[n..], s)
  }

  lemma {:induction false} RequestWalks(ae: u8, a: seq<u8>, i: nat, source: Option<Prefix>)
    requires i <= |a| && |a| > 0
    ensures RequestSource(ae, a, i, source) == WalkAs(ae, ClassOf(a[0]), a[i..], source)
    decreases |a| - i
  {
    hide SourceStep, Treat;
    if i < |a| {
      StepTreats(ae, a, i, source);
      match SourceStep(ae, a, i, source)
      case Done(_) =>
      case More(n, s) =>
        assert a[i..][n..] == a[i + n..];
        RequestWalks(ae, a, i + n, s);
    }
  }

  // ---- Where each sub-TLV is treated by its own class

  /** Every sub-TLV that is reached is of class `c`. */
  predicate Alike(ae: u8, c: Class, b: seq<u8>, source: Option<Prefix>)
    decreases |b|
  {
    |b| > 0 ==>
      && ClassOf(b[0]) == c
      && match Treat(ae, c, b, source)
         case Done(_) => true
         case More(n, s) => Alike(ae, c, b[n..], s)
  }

  /** Where the walk looks for sub-TLVs, and what it takes them for. */
  function Looks(ae: u8, c: Class, b: seq<u8>, source: Option<Prefix>, at: nat): seq<(nat, Class)>
    decreases |b|
  {
    if |b| == 0 then []
    else match Treat(ae, c, b, source)
      case Done(_) => [(at, c)]
      case More(n, s) => [(at, c)] + Looks(ae, c, b[n..], s, at + n)
  }

  /** Where the sub-TLVs are, up to the one that voids the request, and of what class. */
  function Classes(ae: u8, b: seq<u8>, source: Option<Prefix>, at: nat): seq<(nat, Class)>
    decreases |b|
  {
    if |b| == 0 then []
    else match Treat(ae, ClassOf(b[0]), b, source)
      case Done(_) => [(at, ClassOf(b[0]))]
      case More(n, s) => [(at, ClassOf(b[0]))] + Classes(ae, b[n..], s, at + n)
  }

  /** A sub-TLV treated by its own class is treated as it means. */
  lemma {:induction false} OwnStep(ae: u8, b: seq<u8>, source: Option<Prefix>)
    requires |b| > 0
    ensures
      match Treat(ae, ClassOf(b[0]), b, source)
      case Done(r) => r == None && SourceMeant(ae, b, source) == None
      case More(n, s) => SourceMeant(ae, b, source) == SourceMeant(ae, b[n..], s)
  {
    hide SourceIn, NetworkPrefix;
    var c := ClassOf(b[0]);
    if c == Padding || (|b| >= 2 && |b| >= 2 + b[1] as int) {
      var n: nat := if c == Padding then 1 else 2 + b[1] as int;
      if Split(b[n..]).Some? {
        var rest := Split(b[n..]).value;
        assert Split(b).value[1..] == rest;
      }
    }
  }

  /** For all bytes: where all sub-TLVs that are reached are of one class, the walk finds what they mean. */
  lemma {:induction false} AlikeMeant(ae: u8, c: Class, b: seq<u8>, source: Option<Prefix>)
    requires Alike(ae, c, b, source)
    ensures WalkAs(ae, c, b, source) == SourceMeant(ae, b, source)
    decreases |b|
  {
    hide Treat, SourceMeant;
    if |b| == 0 {
      NothingMeant(ae, source);
    } else {
      OwnStep(ae, b, source);
      match Treat(ae, c, b, source)
      case Done(_) =>
      case More(n, s) => AlikeMeant(ae, c, b[n..], s);
    }
  }

  /** The code, from any place on: where what it reaches is of the class of its first byte, it finds what is meant. */
  lemma {:induction false} RequestMeant(ae: u8, a: seq<u8>, i: nat, source: Option<Prefix>)
    requires i <= |a| && |a| > 0 && Alike(ae, ClassOf(a[0]), a[i..], source)
    ensures RequestSource(ae, a, i, source) == SourceMeant(ae, a[i..], source)
  {
    RequestWalks(ae, a, i, source);
    AlikeMeant(ae, ClassOf(a[0]), a[i..], source);
  }

  lemma {:induction false} NothingMeant(ae: u8, source: Option<Prefix>)
    ensures SourceMeant(ae, [], source) == Some(source)
  {
  }

  /** The walk looks for sub-TLVs where they are and takes each for what it is, all the way, if and only if none that is
      reached differs in class from the first. */
  lemma {:induction false} LooksIff(ae: u8, c: Class, b: seq<u8>, source: Option<Prefix>, at: nat)
    ensures Looks(ae, c, b, source, at) == Classes(ae, b, source, at) <==> Alike(ae, c, b, source)
    decreases |b|
  {
    hide Treat, Looks, Classes, Alike;
    LooksOn(ae, c, b, source, at);
    if |b| > 0 && ClassOf(b[0]) == c && Treat(ae, c, b, source).More? {
      var n, s := Treat(ae, c, b, source).used, Treat(ae, c, b, source).state;
      LooksIff(ae, c, b[n..], s, at + n);
    }
  }

  lemma {:induction false} LooksOn(ae: u8, c: Class, b: seq<u8>, source: Option<Prefix>, at: nat)
    ensures
      var same := Looks(ae, c, b, source, at) == Classes(ae, b, source, at);
      if |b| == 0 then same && Alike(ae, c, b, source)
      else if ClassOf(b[0]) != c then !same && !Alike(ae, c, b, source)
      else match Treat(ae, c, b, source)
        case Done(_) => same && Alike(ae, c, b, source)
        case More(n, s) =>
          && (same <==> Looks(ae, c, b[n..], s, at + n) == Classes(ae, b[n..], s, at + n))
          && (Alike(ae, c, b, source) <==> Alike(ae, c, b[n..], s))
  {
    hide Treat;
    if |b| > 0 {
      LooksUnfold(ae, c, b, source, at);
      hide Looks, Classes, Alike;
      if ClassOf(b[0]) == c && Treat(ae, c, b, source).More? {
        var n, s := Treat(ae, c, b, source).used, Treat(ae, c, b, source).state;
        SameTails((at, c), Looks(ae, c, b[n..], s, at + n), Classes(ae, b[n..], s, at + n));
      }
    }
  }

  lemma {:induction false} LooksUnfold(ae: u8, c: Class, b: seq<u8>, source: Option<Prefix>, at: nat)
    requires |b| > 0
    ensures Looks(ae, c, b, source, at) != [] && Looks(ae, c, b, source, at)[0] == (at, c)
    ensures Classes(ae, b, source, at) != [] && Classes(ae, b, source, at)[0] == (at, ClassOf(b[0]))
    ensures ClassOf(b[0]) != c ==> !Alike(ae, c, b, source)
    ensures
      ClassOf(b[0]) == c ==>
        match Treat(ae, c, b, source)
        case Done(_) =>
          Looks(ae, c, b, source, at) == [(at, c)] == Classes(ae, b, source, at) && Alike(ae, c, b, source)
        case More(n, s) =>
          && Looks(ae, c, b, source, at) == [(at, c)] + Looks(ae, c, b[n..], s, at + n)
          && Classes(ae, b, source, at) == [(at, c)] + Classes(ae, b[n..], s, at + n)
          && (Alike(ae, c, b, source) <==> Alike(ae, c, b[n..], s))
  {
    hide Treat, ClassOf;
  }

  lemma {:induction false} SameTails(x: (nat, Class), p: seq<(nat, Class)>, q: seq<(nat, Class)>)
    ensures [x] + p == [x] + q <==> p == q
  {
    assert ([x] + p)[1..] == p && ([x] + q)[1..] == q;
  }

  // ---- When the outcome is right all the same

  /** The bytes are whole sub-TLVs, none of which asks for anything. */
  predicate Quiet(b: seq<u8>) { Split(b).Some? && forall t | t in Split(b).value && t.Tlv? :: t.kind < 0x80 }

  /** Read without regard to padding bytes, the bytes end with a sub-TLV. */
  predicate Ends(b: seq<u8>) { |b| == 0 || (|b| >= 2 && |b| >= 2 + b[1] as int && Ends(b[2 + b[1] as int..])) }

  lemma {:induction false} SourceStays(ae: u8, ts: seq<Tlv>, p: Prefix)
    ensures SourceOfTlvs(ae, ts, Some(p)) != Some(None)
  {
    if |ts| > 0 {
      SourceStays(ae, ts[1..], p);
    }
  }

  lemma {:induction false} QuietTlvs(ae: u8, ts: seq<Tlv>)
    ensures SourceOfTlvs(ae, ts, None) == Some(None) <==> forall t | t in ts && t.Tlv? :: t.kind < 0x80
  {
    hide SourceIn;
    if |ts| > 0 {
      assert ts[0] in ts;
      QuietTlvs(ae, ts[1..]);
      if ts[0].Tlv? && SourceIn(ae, ts[0].body).Some? {
        SourceStays(ae, ts[1..], SourceIn(ae, ts[0].body).value);
      }
      assert forall t | t in ts :: t == ts[0] || t in ts[1..];
    }
  }

  /** A request asks for all routes, whatever their source, exactly if its sub-TLVs are quiet. */
  lemma {:induction false} QuietIff(ae: u8, b: seq<u8>)
    ensures SourceMeant(ae, b, None) == Some(None) <==> Quiet(b)
  {
    if Split(b).Some? {
      QuietTlvs(ae, Split(b).value);
    }
  }

  lemma {:induction false} PaddingWalk(ae: u8, b: seq<u8>, source: Option<Prefix>)
    ensures WalkAs(ae, Padding, b, source) == Some(source)
    decreases |b|
  {
    if |b| > 0 {
      PaddingWalk(ae, b[1..], source);
    }
  }

  lemma {:induction false} OptionalWalk(ae: u8, b: seq<u8>, source: Option<Prefix>)
    ensures WalkAs(ae, Optional, b, source) == if Ends(b) then Some(source) else None
    decreases |b|
  {
    if |b| >= 2 && |b| >= 2 + b[1] as int {
      OptionalWalk(ae, b[2 + b[1] as int..], source);
    }
  }

  /** The sub-TLVs whose outcome is right, by the class of the first. */
  predicate ReadRight(ae: u8, a: seq<u8>) {
    |a| > 0 ==>
      match ClassOf(a[0])
      case Padding => Quiet(a)
      case Optional => if Ends(a) then Quiet(a) else SourceMeant(ae, a, None).None?
      case SourcePrefix => |a| == 1 || |a| <= 2 + a[1] as int || SourceMeant(ae, a, None).None?
      case Mandatory => true
  }

  /** For all bytes: the outcome is what the sub-TLVs mean if and only if: after a leading padding byte they are quiet;
      after an optional sub-TLV they are quiet, or void and seen to be so; a source prefix is the last of them, or they
      are void; or the first is mandatory. */
  lemma {:induction false} RequestReadIff(ae: u8, a: seq<u8>)
    ensures RequestSource(ae, a, 0, None) == SourceMeant(ae, a, None) <==> ReadRight(ae, a)
  {
    hide SourceMeant, SourceIn, Quiet;
    if |a| == 0 {
      NothingMeant(ae, None);
    } else {
      RequestWalks(ae, a, 0, None);
      assert a[0..] == a;
      QuietIff(ae, a);
      match ClassOf(a[0])
      case Padding => PaddingWalk(ae, a, None);
      case Optional => OptionalWalk(ae, a, None);
      case _ => FirstCounts(ae, a);
    }
  }

  /** A source prefix is accepted only if nothing follows it. */
  lemma {:induction false} FirstCounts(ae: u8, a: seq<u8>)
    requires |a| > 0 && a[0] >= 0x80
    ensures
      var alone := |a| == 1 || |a| <= 2 + a[1] as int;
      WalkAs(ae, ClassOf(a[0]), a, None) == if alone || a[0] > 0x80 then SourceMeant(ae, a, None) else None
  {
    hide SourceMeant, SourceIn;
    OwnStep(ae, a, None);
    match Treat(ae, ClassOf(a[0]), a, None)
    case Done(_) =>
    case More(n, s) =>
      if n == |a| {
        assert a[n..] == [];
        NothingMeant(ae, s);
      } else {
        assert Treat(ae, SourcePrefix, a[n..], s) == Done(None);
      }
  }

  /** A request for all routes is served as its sub-TLVs are read. */
  lemma {:induction false} Wildcard(a: seq<u8>)
    requires RequestSource(0, a, 0, None) == Some(None)
    ensures DecodeRequest([0, 0] + a) == [RequestAll]
  {
    hide RequestSource;
    assert ([0, 0] + a)[2..] == a;
  }

  lemma {:induction false} MandatoryVoids(ae: u8)
    ensures SourceMeant(ae, [1, 0, 0x81, 0], None) == None
  {
    hide SourceMeant, SourceIn;
    var a: seq<u8> := [1, 0, 0x81, 0];
    assert a[2..] == [0x81, 0];
    OwnStep(ae, a, None);
    OwnStep(ae, a[2..], None);
  }

  /** A padding sub-TLV in front of an unknown mandatory one: the request is served although it is to be dropped. */
  lemma {:induction false} MandatoryMissed()
    ensures SourceMeant(0, [1, 0, 0x81, 0], None) == None && DecodeRequest([0, 0] + [1, 0, 0x81, 0]) == [RequestAll]
  {
    hide SourceMeant, WalkAs, DecodeRequest, RequestSource;
    var a: seq<u8> := [1, 0, 0x81, 0];
    MandatoryVoids(0);
    assert a[2..] == [0x81, 0] && a[2..][2..] == [];
    RequestWalks(0, a, 0, None);
    assert a[0..] == a;
    OptionalWalk(0, a, None);
    Wildcard(a);
  }

  /**
   A request for all routes is served exactly if its sub-TLVs are not void as they are read, and hold no source prefix;
   one for a prefix exactly if they are not void.
   */
  lemma {:induction false} ServedIff(family: u8, plen: u8, p: seq<u8>, a: seq<u8>)
    requires
      var r := NetworkPrefix(family, plen, 0, p + a, None);
      family <= 3 && r.Some? && r.value.0 == |p|
    ensures
      var source := RequestSource(family, a, 0, None);
      DecodeRequest([family, plen] + p + a) == [] <==> source.None? || (family == 0 && source.value.Some?)
  {
    hide RequestSource;
    var b := [family, plen] + p + a;
    assert b[2..] == p + a && b[2 + |p|..] == a;
    if family == 0 && RequestSource(0, a, 0, None).Some? {
      WildcardSource(a, 0, None);
    }
  }

  /** A source prefix of a wildcard request is never the default one. */
  lemma {:induction false} WildcardSource(a: seq<u8>, i: nat, source: Option<Prefix>)
    requires i <= |a| && (source.Some? ==> !IsDefault(source.value))
    ensures var r := RequestSource(0, a, i, source); r.Some? && r.value.Some? ==> !IsDefault(r.value.value)
    decreases |a| - i
  {
    hide SourceStep, IsDefault;
    if i < |a| {
      WildcardStep(a, i, source);
      match SourceStep(0, a, i, source)
      case Done(_) =>
      case More(n, s) => WildcardSource(a, i + n, s);
    }
  }

  lemma {:induction false} WildcardStep(a: seq<u8>, i: nat, source: Option<Prefix>)
    requires i < |a| && (source.Some? ==> !IsDefault(source.value))
    ensures
      match SourceStep(0, a, i, source)
      case Done(r) => r.Some? && r.value.Some? ==> !IsDefault(r.value.value)
      case More(n, s) => s.Some? ==> !IsDefault(s.value)
  {
    assert !V4Mapped(Pad([])) by {
      assert Pad([])[10] == 0;
    }
    hide Mask, V4Mapped, Pad;
  }
}
