/** BFD sessions: the negotiation of intervals by Poll Sequences (sections 6.5 and 6.8 of RFC 5880). */
module Bfd {
  import opened Basics

  const SLOW_TX: u32 := 1_000_000
  const DEFAULT_MULT: u8 := 3

  datatype Status = AdminDown | Down | Init | Up

  datatype Timers = Timers(tx: u32, rx: u32)

  /** A session: the configured and the current intervals, what the peer last said, and the resulting times. */
  datatype Session = Session(
    status: Status, polling: bool, demand: bool, passive: bool, mult: u8, timers: Timers, cur: Timers,
    remote: Timers, remoteMult: u8, xmt: nat, detect: nat, socket: bool)

  datatype Packet = Packet(status: Status, poll: bool, final: bool, mult: u8, timers: Timers)

  /** The product of a byte and a 32-bit interval, in 32 bits. */
  function Times(mult: u8, interval: u32): u32 { mult * interval % 0x1_0000_0000 }

  function MaxOf(x: u32, y: u32): u32 { if x > y then x else y }

  // ---- One side

  /** ptm_bfd_snd: new intervals are told only while polling. */
  function Said(s: Session, final: bool): Packet {
    Packet(s.status, !final && s.polling, final, s.mult, if s.polling then s.timers else s.cur)
  }

  /** bs_final_handler. */
  function Finalised(s: Session): Session {
    var t := s.(cur := s.timers);
    if s.demand then t else t.(xmt := MaxOf(s.timers.tx, s.remote.rx))
  }

  /** bs_set_slow_timers. */
  function Slowed(s: Session): Session {
    s.(cur := Timers(SLOW_TX, SLOW_TX), detect := DEFAULT_MULT as int * SLOW_TX, xmt := SLOW_TX)
  }

  /** ptm_bfd_sess_up and ptm_bfd_sess_dn, with the packet each sends at once. */
  function WentUp(s: Session): Session { s.(status := Up, polling := true) }

  function WentDown(s: Session): Session { Slowed(s.(status := Down, polling := false, demand := false)) }

  /** bs_state_handler. */
  function Handled(s: Session, peer: Status): Session {
    match s.status
    case AdminDown => s
    case Down => if peer == Down then s.(status := Init) else if peer == Init then WentUp(s) else s
    case Init => if peer == AdminDown then WentDown(s) else if peer == Down then s else WentUp(s)
    case Up => if peer == AdminDown || peer == Down then WentDown(s) else s
  }

  /** A session that goes down says so if it still has a socket. */
  function DownSends(s: Session): seq<Packet> {
    if s.socket then [Said(s.(status := Down, polling := false, demand := false), false)] else []
  }

  /** The packets that handling the peer's state sends. */
  function HandlerSends(s: Session, peer: Status): seq<Packet> {
    match s.status
    case AdminDown => []
    case Down =>
      if peer == Down && s.passive then [Said(s.(status := Init), false)]
      else if peer == Init then [Said(WentUp(s), false)]
      else []
    case Init =>
      if peer == AdminDown then DownSends(s)
      else if peer == Down then []
      else [Said(WentUp(s), false)]
    case Up =>
      if peer == AdminDown || peer == Down then DownSends(s) else []
  }

  function Learnt(s: Session, p: Packet): Session { s.(remote := p.timers, remoteMult := p.mult) }

  /** The detection time that follows from what both sides said. */
  function Detection(s: Session): u32 { Times(s.remoteMult, MaxOf(s.cur.rx, s.remote.tx)) }

  /** bfd_recv_cb, up to the answer to a poll. */
  function Noted(s: Session, p: Packet): Session {
    var h := Handled(Learnt(s, p), p.status);
    var f := if h.polling && p.final then Finalised(h.(polling := false)) else h;
    f.(detect := Detection(f))
  }

  /** bfd_recv_cb: the detection time is settled before a poll is answered. */
  function Received(s: Session, p: Packet): Session {
    var n := Noted(s, p);
    if p.poll then Finalised(n) else n
  }

  function ReceiverSends(s: Session, p: Packet): seq<Packet> {
    HandlerSends(Learnt(s, p), p.status) + if p.poll then [Said(Received(s, p), true)] else []
  }

  // ---- Two sides and the packets between them

  datatype Link = Link(a: Session, b: Session, ab: seq<Packet>, ba: seq<Packet>)

  datatype Step =
    | SendA | SendB
    | DeliverToA | DeliverToB
    | LoseAB(i: nat) | LoseBA(i: nat)
    | RepeatAB(i: nat) | RepeatBA(i: nat)

  predicate Enabled(l: Link, step: Step) {
    match step
    case SendA => true
    case SendB => true
    case DeliverToA => |l.ba| > 0
    case DeliverToB => |l.ab| > 0
    case LoseAB(i) => i < |l.ab|
    case LoseBA(i) => i < |l.ba|
    case RepeatAB(i) => i < |l.ab|
    case RepeatBA(i) => i < |l.ba|
  }

  function Lost(ps: seq<Packet>, i: nat): seq<Packet>
    requires i < |ps|
  {
    ps[..i] + ps[i + 1..]
  }

  function Repeated(ps: seq<Packet>, i: nat): seq<Packet>
    requires i < |ps|
  {
    ps[..i + 1] + ps[i..]
  }

  /** Packets stay in order; they may be lost or repeated. */
  function Next(l: Link, step: Step): Link
    requires Enabled(l, step)
  {
    match step
    case SendA => l.(ab := l.ab + [Said(l.a, false)])
    case SendB => l.(ba := l.ba + [Said(l.b, false)])
    case DeliverToA => l.(a := Received(l.a, l.ba[0]), ba := l.ba[1..], ab := l.ab + ReceiverSends(l.a, l.ba[0]))
    case DeliverToB => l.(b := Received(l.b, l.ab[0]), ab := l.ab[1..], ba := l.ba + ReceiverSends(l.b, l.ab[0]))
    case LoseAB(i) => l.(ab := Lost(l.ab, i))
    case LoseBA(i) => l.(ba := Lost(l.ba, i))
    case RepeatAB(i) => l.(ab := Repeated(l.ab, i))
    case RepeatBA(i) => l.(ba := Repeated(l.ba, i))
  }

  predicate Run(l: Link, steps: seq<Step>)
    decreases |steps|
  {
    |steps| == 0 || (Enabled(l, steps[0]) && Run(Next(l, steps[0]), steps[1..]))
  }

  function Exec(l: Link, steps: seq<Step>): Link
    requires Run(l, steps)
    decreases |steps|
  {
    if |steps| == 0 then l else Exec(Next(l, steps[0]), steps[1..])
  }

  // ---- Invariants

  /** The packet tells the configured intervals of `s`. */
  predicate Tells(p: Packet, s: Session) { p.timers == s.timers && p.mult == s.mult }

  predicate AllTell(ps: seq<Packet>, s: Session) { forall p | p in ps :: Tells(p, s) }

  predicate NoneFinal(ps: seq<Packet>) { forall p | p in ps :: !p.final }

  predicate Alive(p: Packet) { p.status == Init || p.status == Up }

  predicate AllAlive(ps: seq<Packet>) { forall p | p in ps :: Alive(p) }

  /** Both sides are up and nothing on the way says otherwise. */
  predicate Connected(l: Link) {
    && l.a.status == Up && l.b.status == Up && !l.a.demand && !l.b.demand
    && AllAlive(l.ab) && AllAlive(l.ba)
  }

  /** `s` uses its configured intervals and sends at the pace it agreed on with `peer`. */
  predicate Agrees(s: Session, peer: Session) {
    && s.cur == s.timers && s.remote == peer.timers && s.remoteMult == peer.mult
    && s.xmt == MaxOf(s.timers.tx, peer.timers.rx)
  }

  /** From `k` on all packets are `late` ones, before that `early` ones. */
  predicate From(ps: seq<Packet>, k: nat, early: Packet -> bool, late: Packet -> bool) {
    k <= |ps| && forall i | 0 <= i < |ps| :: if i >= k then late(ps[i]) else early(ps[i])
  }

  /** From `k` on the packets tell the intervals of `s`; before that none polls, or none is final. */
  predicate TellsFrom(ps: seq<Packet>, k: nat, s: Session, final: bool) {
    From(ps, k, (p: Packet) => if final then !p.final else !p.poll, (p: Packet) => Tells(p, s))
  }

  /** No answer yet to a poll of `a`. */
  predicate Asking(l: Link, k: nat) { l.a.polling && TellsFrom(l.ab, k, l.a, false) && NoneFinal(l.ba) }

  /** `b` has been asked, and answers. */
  predicate Answering(l: Link, k: nat) {
    l.a.polling && AllTell(l.ab, l.a) && Agrees(l.b, l.a) && TellsFrom(l.ba, k, l.b, true)
  }

  /** The poll of `a` is over. */
  predicate Settled(l: Link) {
    && !l.a.polling && AllTell(l.ab, l.a) && AllTell(l.ba, l.b)
    && Agrees(l.a, l.b) && Agrees(l.b, l.a) && l.a.detect == Detection(l.a)
  }

  // ---- Packets in order

  lemma {:induction false} FromMore(ps: seq<Packet>, k: nat, early: Packet -> bool, late: Packet -> bool,
                                    qs: seq<Packet>)
    requires From(ps, k, early, late) && forall q | q in qs :: late(q)
    ensures From(ps + qs, k, early, late)
  {
    var all := ps + qs;
    forall i | 0 <= i < |all| ensures if i >= k then late(all[i]) else early(all[i]) {
      if i >= |ps| {
        assert all[i] == qs[i - |ps|] && qs[i - |ps|] in qs;
      }
    }
  }

  lemma {:induction false} FromLess(ps: seq<Packet>, k: nat, early: Packet -> bool, late: Packet -> bool, i: nat)
    requires From(ps, k, early, late) && i < |ps|
    ensures From(Lost(ps, i), if i < k then k - 1 else k, early, late)
    ensures From(Repeated(ps, i), if i < k then k + 1 else k, early, late)
  {
    var lost, more := Lost(ps, i), Repeated(ps, i);
    var fewer, further := if i < k then k - 1 else k, if i < k then k + 1 else k;
    forall j | 0 <= j < |lost| ensures if j >= fewer then late(lost[j]) else early(lost[j]) {
      assert lost[j] == ps[if j < i then j else j + 1];
    }
    forall j | 0 <= j < |more| ensures if j >= further then late(more[j]) else early(more[j]) {
      assert more[j] == ps[if j <= i then j else j - 1];
    }
  }

  /** What comes after a packet that is not early is late. */
  lemma {:induction false} FromRest(ps: seq<Packet>, k: nat, early: Packet -> bool, late: Packet -> bool)
    requires From(ps, k, early, late) && |ps| > 0
    ensures From(ps[1..], if k > 0 then k - 1 else 0, early, late)
    ensures if k > 0 then early(ps[0]) else late(ps[0]) && forall p | p in ps[1..] :: late(p)
  {
    var rest := ps[1..];
    forall j | 0 <= j < |rest| ensures if j + 1 >= k then late(rest[j]) else early(rest[j]) {
      assert rest[j] == ps[j + 1];
    }
  }

  lemma {:induction false} TellsMore(ps: seq<Packet>, k: nat, s: Session, final: bool, qs: seq<Packet>)
    requires TellsFrom(ps, k, s, final) && AllTell(qs, s)
    ensures TellsFrom(ps + qs, k, s, final)
  {
    FromMore(ps, k, (p: Packet) => if final then !p.final else !p.poll, (p: Packet) => Tells(p, s), qs);
  }

  lemma {:induction false} TellsLess(ps: seq<Packet>, k: nat, s: Session, final: bool, i: nat)
    requires TellsFrom(ps, k, s, final) && i < |ps|
    ensures TellsFrom(Lost(ps, i), if i < k then k - 1 else k, s, final)
    ensures TellsFrom(Repeated(ps, i), if i < k then k + 1 else k, s, final)
  {
    FromLess(ps, k, (p: Packet) => if final then !p.final else !p.poll, (p: Packet) => Tells(p, s), i);
  }

  /** What comes after a packet that may only come late tells the intervals. */
  lemma {:induction false} TellsRest(ps: seq<Packet>, k: nat, s: Session, final: bool)
    requires TellsFrom(ps, k, s, final) && |ps| > 0
    ensures TellsFrom(ps[1..], if k > 0 then k - 1 else 0, s, final)
    ensures (if final then ps[0].final else ps[0].poll) ==> k == 0
    ensures k == 0 ==> Tells(ps[0], s) && AllTell(ps[1..], s)
  {
    FromRest(ps, k, (p: Packet) => if final then !p.final else !p.poll, (p: Packet) => Tells(p, s));
  }

  // ---- One side at work

  /** A session that is up, and hears that its peer is alive, stays up and sends nothing but the answer to a poll. */
  lemma {:induction false} UpReceives(s: Session, p: Packet)
    requires s.status == Up && !s.demand && Alive(p)
    ensures Handled(Learnt(s, p), p.status) == Learnt(s, p)
    ensures
      var r := Received(s, p);
      && r.status == Up && !r.demand && r.timers == s.timers && r.mult == s.mult && r.polling == (s.polling && !p.final)
      && r.remote == p.timers && r.remoteMult == p.mult
      && ReceiverSends(s, p) == if p.poll then [Said(r, true)] else []
  {
  }

  /** A session that is asked, or whose poll is answered, takes up the pace that follows from the packet. */
  lemma {:induction false} AgreesAfter(s: Session, peer: Session, p: Packet)
    requires s.status == Up && !s.demand && Alive(p) && Tells(p, peer)
    requires p.poll || (p.final && s.polling) || Agrees(s, peer)
    ensures Agrees(Received(s, p), peer)
    ensures !p.poll || s.cur == s.timers ==> Received(s, p).detect == Detection(Received(s, p))
  {
    UpReceives(s, p);
  }

  /** What such a session says are its configured intervals. */
  lemma {:induction false} SaysOwn(s: Session, final: bool)
    requires s.polling || s.cur == s.timers
    ensures Tells(Said(s, final), s)
  {
  }

  // ---- Every step

  predicate SameConfig(s: Session, t: Session) { s.timers == t.timers && s.mult == t.mult }

  lemma {:induction false} SameTells(ps: seq<Packet>, k: nat, s: Session, t: Session)
    requires SameConfig(s, t)
    ensures AllTell(ps, s) ==> AllTell(ps, t)
    ensures TellsFrom(ps, k, s, false) ==> TellsFrom(ps, k, t, false)
    ensures TellsFrom(ps, k, s, true) ==> TellsFrom(ps, k, t, true)
  {
  }

  ghost predicate Negotiating(l: Link) {
    Connected(l) && ((exists k :: Asking(l, k)) || (exists k :: Answering(l, k)) || Settled(l))
  }

  lemma {:induction false} StepConnected(l: Link, step: Step)
    requires Connected(l) && Enabled(l, step)
    ensures Connected(Next(l, step))
  {
    match step
    case DeliverToA =>
      assert l.ba[0] in l.ba;
      UpReceives(l.a, l.ba[0]);
    case DeliverToB =>
      assert l.ab[0] in l.ab;
      UpReceives(l.b, l.ab[0]);
    case _ =>
  }

  /** Both intervals and what is on the way, when `b` takes a packet. */
  lemma {:induction false} BReceives(l: Link)
    requires Connected(l) && |l.ab| > 0
    ensures
      var p, m := l.ab[0], Next(l, DeliverToB);
      && Alive(p) && m.a == l.a && SameConfig(l.b, m.b) && m.ab == l.ab[1..]
      && m.ba == l.ba + if p.poll then [Said(m.b, true)] else []
  {
    assert l.ab[0] in l.ab;
    UpReceives(l.b, l.ab[0]);
  }

  lemma {:induction false} AReceives(l: Link)
    requires Connected(l) && |l.ba| > 0
    ensures
      var p, m := l.ba[0], Next(l, DeliverToA);
      && Alive(p) && m.b == l.b && SameConfig(l.a, m.a) && m.ba == l.ba[1..]
      && m.ab == l.ab + (if p.poll then [Said(m.a, true)] else [])
      && m.a.polling == (l.a.polling && !p.final)
  {
    assert l.ba[0] in l.ba;
    UpReceives(l.a, l.ba[0]);
  }

  lemma {:induction false} AskingStep(l: Link, k: nat, step: Step)
    requires Connected(l) && Asking(l, k) && Enabled(l, step) && !step.DeliverToA? && !step.DeliverToB?
    ensures exists j :: Asking(Next(l, step), j)
  {
    var m := Next(l, step);
    match step
    case SendA =>
      TellsMore(l.ab, k, l.a, false, [Said(l.a, false)]);
      assert Asking(m, k);
    case SendB => assert Asking(m, k);
    case LoseAB(i) =>
      TellsLess(l.ab, k, l.a, false, i);
      assert Asking(m, if i < k then k - 1 else k);
    case RepeatAB(i) =>
      TellsLess(l.ab, k, l.a, false, i);
      assert Asking(m, if i < k then k + 1 else k);
    case LoseBA(i) => assert Asking(m, k);
    case RepeatBA(i) => assert Asking(m, k);
  }

  lemma {:induction false} AskingDeliver(l: Link, k: nat, step: Step)
    requires Connected(l) && Asking(l, k) && Enabled(l, step) && (step.DeliverToA? || step.DeliverToB?)
    ensures (exists j :: Asking(Next(l, step), j)) || (exists j :: Answering(Next(l, step), j))
  {
    var m := Next(l, step);
    if step.DeliverToA? {
      AReceives(l);
      assert l.ba[0] in l.ba;
      SaysOwn(m.a, true);
      SameTells(l.ab, k, l.a, m.a);
      TellsMore(l.ab, k, m.a, false, if l.ba[0].poll then [Said(m.a, true)] else []);
      assert Asking(m, k);
    } else {
      BReceives(l);
      TellsRest(l.ab, k, l.a, false);
      if l.ab[0].poll {
        AskedAnswers(l, k);
      } else {
        assert Asking(m, if k > 0 then k - 1 else 0);
      }
    }
  }

  /** The first poll to arrive makes `b` take up the new pace and answer with its own intervals. */
  lemma {:induction false} AskedAnswers(l: Link, k: nat)
    requires Connected(l) && Asking(l, k) && |l.ab| > 0 && l.ab[0].poll
    ensures Answering(Next(l, DeliverToB), |l.ba|)
  {
    var m := Next(l, DeliverToB);
    BReceives(l);
    TellsRest(l.ab, k, l.a, false);
    AgreesAfter(l.b, l.a, l.ab[0]);
    SaysOwn(m.b, true);
    forall i | 0 <= i < |l.ba| ensures !l.ba[i].final {
      assert l.ba[i] in l.ba;
    }
    TellsMore(l.ba, |l.ba|, m.b, true, [Said(m.b, true)]);
  }

  lemma {:induction false} AnsweringStep(l: Link, k: nat, step: Step)
    requires Connected(l) && Answering(l, k) && Enabled(l, step) && !step.DeliverToA? && !step.DeliverToB?
    ensures exists j :: Answering(Next(l, step), j)
  {
    var m := Next(l, step);
    match step
    case SendA => assert Answering(m, k);
    case SendB =>
      TellsMore(l.ba, k, l.b, true, [Said(l.b, false)]);
      assert Answering(m, k);
    case LoseAB(i) => assert Answering(m, k);
    case RepeatAB(i) => assert Answering(m, k);
    case LoseBA(i) =>
      TellsLess(l.ba, k, l.b, true, i);
      assert Answering(m, if i < k then k - 1 else k);
    case RepeatBA(i) =>
      TellsLess(l.ba, k, l.b, true, i);
      assert Answering(m, if i < k then k + 1 else k);
  }

  lemma {:induction false} AnsweringToB(l: Link, k: nat)
    requires Connected(l) && Answering(l, k) && |l.ab| > 0
    ensures Answering(Next(l, DeliverToB), k)
  {
    var m := Next(l, DeliverToB);
    BReceives(l);
    assert l.ab[0] in l.ab;
    AgreesAfter(l.b, l.a, l.ab[0]);
    SaysOwn(m.b, true);
    SameTells(l.ba, k, l.b, m.b);
    TellsMore(l.ba, k, m.b, true, if l.ab[0].poll then [Said(m.b, true)] else []);
  }

  lemma {:induction false} AnsweringToA(l: Link, k: nat)
    requires Connected(l) && Answering(l, k) && |l.ba| > 0
    ensures var m := Next(l, DeliverToA); if l.ba[0].final then Settled(m) else exists j :: Answering(m, j)
  {
    var m := Next(l, DeliverToA);
    AReceives(l);
    TellsRest(l.ba, k, l.b, true);
    SameTells(l.ab, 0, l.a, m.a);
    if l.ba[0].final {
      AgreesAfter(l.a, l.b, l.ba[0]);
      FinalDetection(l.a, l.b, l.ba[0]);
      SaysOwn(m.a, true);
    } else {
      SaysOwn(m.a, true);
      assert Answering(m, if k > 0 then k - 1 else 0);
    }
  }

  /** The final packet of a poll settles the detection time as well. */
  lemma {:induction false} FinalDetection(s: Session, peer: Session, p: Packet)
    requires s.status == Up && !s.demand && Alive(p) && s.polling && p.final
    ensures Received(s, p).detect == Detection(Received(s, p))
  {
    UpReceives(s, p);
  }

  /** Once over, the outcome lasts through all further sends, losses and repetitions. */
  lemma {:induction false} SettledStep(l: Link, step: Step)
    requires Connected(l) && Settled(l) && Enabled(l, step)
    ensures Settled(Next(l, step))
  {
    var m := Next(l, step);
    match step
    case SendA => SaysOwn(l.a, false);
    case SendB => SaysOwn(l.b, false);
    case DeliverToA =>
      AReceives(l);
      assert l.ba[0] in l.ba;
      AgreesAfter(l.a, l.b, l.ba[0]);
      SaysOwn(m.a, true);
    case DeliverToB =>
      BReceives(l);
      assert l.ab[0] in l.ab;
      AgreesAfter(l.b, l.a, l.ab[0]);
      SaysOwn(m.b, true);
    case _ =>
  }

  lemma {:induction false} NegotiatingStep(l: Link, step: Step)
    requires Negotiating(l) && Enabled(l, step)
    ensures Negotiating(Next(l, step))
  {
    StepConnected(l, step);
    if Settled(l) {
      SettledStep(l, step);
    } else if k :| Asking(l, k) {
      if step.DeliverToA? || step.DeliverToB? {
        AskingDeliver(l, k, step);
      } else {
        AskingStep(l, k, step);
      }
    } else {
      var k :| Answering(l, k);
      if step.DeliverToB? {
        AnsweringToB(l, k);
      } else if step.DeliverToA? {
        AnsweringToA(l, k);
      } else {
        AnsweringStep(l, k, step);
      }
    }
  }

  lemma {:induction false} NegotiatingRun(l: Link, steps: seq<Step>)
    requires Negotiating(l) && Run(l, steps)
    ensures Negotiating(Exec(l, steps))
    decreases |steps|
  {
    if |steps| > 0 {
      NegotiatingStep(l, steps[0]);
      NegotiatingRun(Next(l, steps[0]), steps[1..]);
    }
  }

  // ---- What both sides end up with

  /** The start of a poll: none is on the way, nor the answer to one. */
  predicate PollStarts(l: Link) {
    Connected(l) && l.a.polling && NoneFinal(l.ba) && forall p | p in l.ab :: !p.poll
  }

  /** When a Poll Sequence has run, whatever was lost or repeated on the way, the poller detects by the pace its peer
      sends at, and the peer sends and listens by the configured intervals of both. */
  lemma {:induction false} PollSettles(l: Link, steps: seq<Step>)
    requires PollStarts(l) && Run(l, steps) && !Exec(l, steps).a.polling
    ensures
      var m := Exec(l, steps);
      && Settled(m) && m.a.detect == Times(m.b.mult, m.b.xmt)
      && m.a.xmt == MaxOf(m.a.timers.tx, m.b.timers.rx) && m.b.xmt == MaxOf(m.b.timers.tx, m.a.timers.rx)
  {
    forall i | 0 <= i < |l.ab| ensures !l.ab[i].poll {
      assert l.ab[i] in l.ab;
    }
    assert Asking(l, |l.ab|);
    NegotiatingRun(l, steps);
  }

  /** The peer follows with the next packet it takes, and keeps to it. */
  lemma {:induction false} PeerFollows(l: Link, steps: seq<Step>)
    requires Connected(l) && Settled(l) && |l.ab| > 0 && Run(Next(l, DeliverToB), steps)
    ensures var m := Exec(Next(l, DeliverToB), steps); Settled(m) && m.b.detect == Times(m.a.mult, m.a.xmt)
  {
    SettledStep(l, DeliverToB);
    StepConnected(l, DeliverToB);
    BReceives(l);
    assert l.ab[0] in l.ab;
    AgreesAfter(l.b, l.a, l.ab[0]);
    AgreedRun(Next(l, DeliverToB), steps);
  }

  /** Both detection times are right. */
  predicate Agreed(l: Link) { Connected(l) && Settled(l) && l.b.detect == Detection(l.b) }

  lemma {:induction false} AgreedRun(l: Link, steps: seq<Step>)
    requires Agreed(l) && Run(l, steps)
    ensures Agreed(Exec(l, steps))
    decreases |steps|
  {
    if |steps| > 0 {
      SettledStep(l, steps[0]);
      StepConnected(l, steps[0]);
      if steps[0].DeliverToB? {
        assert l.ab[0] in l.ab;
        AgreesAfter(l.b, l.a, l.ab[0]);
      }
      AgreedRun(Next(l, steps[0]), steps[1..]);
    }
  }

  /** On the poll itself the peer still reckons with the interval it listened by before: the detection time it sets is
      the agreed one exactly if that interval is the configured one, or neither is above what the poller sends at, or
      the difference vanishes in 32 bits; which it never does for products that fit. */
  lemma {:induction false} AskedDetectionIff(s: Session, peer: Session, p: Packet)
    requires s.status == Up && !s.demand && Alive(p) && Tells(p, peer) && p.poll && !p.final
    ensures
      var r, x, y := Received(s, p), MaxOf(s.cur.rx, peer.timers.tx), MaxOf(s.timers.rx, peer.timers.tx);
      var same := s.cur.rx == s.timers.rx || (s.cur.rx <= peer.timers.tx && s.timers.rx <= peer.timers.tx);
      && (r.detect == Times(peer.mult, y) <==> same || peer.mult * (x - y) % 0x1_0000_0000 == 0)
      && (peer.mult > 0 && peer.mult * x < 0x1_0000_0000 && peer.mult * y < 0x1_0000_0000 ==>
            (r.detect == Times(peer.mult, y) <==> same))
  {
    UpReceives(s, p);
    var x, y := MaxOf(s.cur.rx, peer.timers.tx), MaxOf(s.timers.rx, peer.timers.tx);
    SameInWord(peer.mult, x, y);
    if peer.mult > 0 {
      ProductOrder(peer.mult, x, y);
      ProductOrder(peer.mult, y, x);
    }
    TimesExactIff(peer.mult, x);
    TimesExactIff(peer.mult, y);
  }

  lemma {:induction false} SameInWord(mult: u8, x: u32, y: u32)
    ensures Times(mult, x) == Times(mult, y) <==> mult * (x - y) % 0x1_0000_0000 == 0
  {
    var m: int, a: int, b: int := mult, x, y;
    assert m * (a - b) == m * a - m * b;
    DifferenceInWord(m * a, m * b);
  }

  lemma {:induction false} DifferenceInWord(a: int, b: int)
    ensures a % 0x1_0000_0000 == b % 0x1_0000_0000 <==> (a - b) % 0x1_0000_0000 == 0
  {
  }

  /** A session that has just come up listens by the slow interval, so the first poll of its peer leaves it with more
      than three times the detection time. */
  lemma {:induction false} FirstPollTooSlow(s: Session, peer: Session)
    requires s.status == Up && !s.demand && s.cur == Timers(SLOW_TX, SLOW_TX) && s.timers == Timers(300_000, 300_000)
    requires peer.mult == 3 && peer.timers == s.timers && peer.polling && peer.status == Up
    ensures Received(s, Said(peer, false)).detect == 3_000_000
    ensures peer.mult * MaxOf(s.timers.rx, peer.timers.tx) == 900_000
  {
    UpReceives(s, Said(peer, false));
  }

  /** Within 32 bits the detection time is the product itself. */
  lemma {:induction false} TimesExactIff(mult: u8, interval: u32)
    ensures Times(mult, interval) == mult * interval <==> mult * interval < 0x1_0000_0000
  {
    WithinWord(mult * interval);
  }

  lemma {:induction false} WithinWord(n: nat)
    ensures n % 0x1_0000_0000 == n <==> n < 0x1_0000_0000
  {
  }

  // ---- Jitter and loss

  /** The time to the next packet, for any random number. */
  function Gap(xmt: nat, mult: u8, random: nat): nat {
    xmt * (75 + random % (if mult == 1 then 16 else 26)) / 100
  }

  function Elapsed(xmt: nat, mult: u8, randoms: seq<nat>): nat {
    if |randoms| == 0 then 0 else Gap(xmt, mult, randoms[0]) + Elapsed(xmt, mult, randoms[1..])
  }

  lemma {:induction false} GapBound(xmt: nat, mult: u8, random: nat)
    ensures Gap(xmt, mult, random) <= xmt
    ensures mult == 1 && xmt > 0 ==> Gap(xmt, mult, random) < xmt
  {
    var percent := 75 + random % (if mult == 1 then 16 else 26);
    assert percent <= 100 && (mult == 1 ==> percent <= 90);
    if xmt > 0 {
      ProductOrder(xmt, percent, 100);
      ProductOrder(xmt, percent, 90);
    }
    Hundredth(xmt * percent, xmt);
  }

  /** The times that are possible: all percentages from 75 on, to 90 for a multiplier of one and to 100 otherwise. */
  lemma {:induction false} GapRange(xmt: nat, mult: u8, gap: nat)
    ensures (exists random :: Gap(xmt, mult, random) == gap)
       <==> exists percent :: 75 <= percent <= (if mult == 1 then 90 else 100) && Percentage(xmt, percent) == gap
  {
    var n := if mult == 1 then 16 else 26;
    if random: nat :| Gap(xmt, mult, random) == gap {
      assert Percentage(xmt, 75 + random % n) == gap;
    }
    if percent: nat :| 75 <= percent <= (if mult == 1 then 90 else 100) && Percentage(xmt, percent) == gap {
      assert (percent - 75) % n == percent - 75;
      assert Gap(xmt, mult, percent - 75) == gap;
    }
  }

  function Percentage(n: nat, percent: nat): nat { n * percent / 100 }

  lemma {:induction false} Hundredth(n: nat, x: nat)
    ensures n <= 100 * x ==> n / 100 <= x
    ensures n <= 90 * x && x > 0 ==> n / 100 < x
  {
  }

  lemma {:induction false} ElapsedBound(xmt: nat, mult: u8, randoms: seq<nat>)
    ensures Elapsed(xmt, mult, randoms) <= |randoms| * xmt
  {
    if |randoms| > 0 {
      GapBound(xmt, mult, randoms[0]);
      ElapsedBound(xmt, mult, randoms[1..]);
      assert |randoms| * xmt == xmt + (|randoms| - 1) * xmt;
    }
  }

  /** For every choice of jitter: if all but the last of up to `mult` packets in a row are lost, that one still arrives
      within the detection time, and before it is over if `mult` is one. */
  lemma {:induction false} LossTolerated(l: Link, randoms: seq<nat>)
    requires Settled(l) && 0 < |randoms| <= l.b.mult && l.b.mult * l.b.xmt < 0x1_0000_0000
    ensures Elapsed(l.b.xmt, l.b.mult, randoms) <= l.a.detect
    ensures l.b.mult == 1 && l.b.xmt > 0 ==> Elapsed(l.b.xmt, l.b.mult, randoms) < l.a.detect
  {
    hide *;
    SettledDetect(l);
    ElapsedBound(l.b.xmt, l.b.mult, randoms);
    if l.b.xmt > 0 {
      ProductOrder(l.b.xmt, |randoms|, l.b.mult);
    }
    if l.b.mult == 1 {
      OneGap(l.b.xmt, randoms);
    }
  }

  lemma {:induction false} SettledDetect(l: Link)
    requires Settled(l) && l.b.mult * l.b.xmt < 0x1_0000_0000
    ensures l.a.detect == l.b.mult * l.b.xmt
  {
    TimesExactIff(l.b.mult, MaxOf(l.a.cur.rx, l.a.remote.tx));
  }

  lemma {:induction false} OneGap(xmt: nat, randoms: seq<nat>)
    requires |randoms| == 1
    ensures xmt > 0 ==> Elapsed(xmt, 1, randoms) < xmt
  {
    GapBound(xmt, 1, randoms[0]);
    assert randoms[1..] == [];
  }

  // ---- The session object

  class BfdSession {
    var status: Status
    var polling: bool
    var demand: bool
    var passive: bool
    var mult: u8
    var timers: Timers
    var cur: Timers
    var remote: Timers
    var remoteMult: u8
    var xmt: nat
    var detect: nat
    var socket: bool
    /** What has been sent. */
    var sent: seq<Packet>

    ghost function State(): Session
      reads this
    {
      Session(status, polling, demand, passive, mult, timers, cur, remote, remoteMult, xmt, detect, socket)
    }

    /** bfd_session_new: a session starts down and slow. */
    constructor ()
      ensures State() == Slowed(State()) && status == Down && !polling && !demand && !socket && sent == []
      ensures mult == remoteMult == DEFAULT_MULT && timers == Timers(300_000, 300_000) && remote == cur
      ensures cur == Timers(1_000_000, 1_000_000) && xmt == 1_000_000 && detect == 3_000_000
    {
      status, polling, demand, passive, socket := Down, false, false, false, false;
      mult, timers, remoteMult := DEFAULT_MULT, Timers(300_000, 300_000), DEFAULT_MULT;
      cur, detect, xmt := Timers(SLOW_TX, SLOW_TX), DEFAULT_MULT as int * SLOW_TX, SLOW_TX;
      remote := Timers(SLOW_TX, SLOW_TX);
      sent := [];
    }

    method SetPolling()
      modifies `polling
      ensures State() == old(State()).(polling := true)
    {
      polling := true;
    }

    method Send(final: bool)
      modifies `sent
      ensures sent == old(sent) + [Said(State(), final)]
    {
      var said := if polling then timers else cur;
      sent := sent + [Packet(status, if final then false else polling, final, mult, said)];
    }

    method SetSlowTimers()
      modifies `cur, `detect, `xmt
      ensures State() == Slowed(old(State()))
    {
      cur := Timers(SLOW_TX, SLOW_TX);
      detect := DEFAULT_MULT as int * SLOW_TX;
      xmt := SLOW_TX;
    }

    method FinalHandler()
      modifies `cur, `xmt
      ensures State() == Finalised(old(State()))
    {
      cur := timers;
      if demand {
        return;
      }
      if timers.tx > remote.rx {
        xmt := timers.tx;
      } else {
        xmt := remote.rx;
      }
    }

    method SessionUp()
      modifies `status, `polling, `sent
      ensures State() == WentUp(old(State())) && sent == old(sent) + [Said(State(), false)]
    {
      status := Up;
      SetPolling();
      Send(false);
    }

    method SessionDown()
      modifies this
      ensures State() == WentDown(old(State()))
      ensures cur == Timers(1_000_000, 1_000_000) && xmt == 1_000_000 && detect == 3_000_000
      ensures sent == old(sent) + DownSends(old(State()))
    {
      status, polling, demand := Down, false, false;
      if socket {
        Send(false);
      }
      SetSlowTimers();
    }

    method StateHandler(peer: Status)
      modifies this
      ensures State() == Handled(old(State()), peer) && sent == old(sent) + HandlerSends(old(State()), peer)
    {
      match status
      case AdminDown =>
      case Down =>
        if peer == Down {
          status := Init;
          if passive {
            Send(false);
          }
        } else if peer == Init {
          SessionUp();
        }
      case Init =>
        if peer == AdminDown {
          SessionDown();
        } else if peer != Down {
          SessionUp();
        }
      case Up =>
        if peer == AdminDown || peer == Down {
          SessionDown();
        }
    }

    /** bfd_recv_cb, for a packet that was found to belong to this session. */
    method Receive(p: Packet)
      modifies this
      ensures State() == Received(old(State()), p) && sent == old(sent) + ReceiverSends(old(State()), p)
    {
      hide Noted, HandlerSends, Finalised, Said;
      Note(p);
      if p.poll {
        FinalHandler();
        Send(true);
      }
    }

    method Note(p: Packet)
      modifies this
      ensures State() == Noted(old(State()), p) && sent == old(sent) + HandlerSends(Learnt(old(State()), p), p.status)
    {
      hide Handled, HandlerSends, Times, Finalised;
      remote, remoteMult := p.timers, p.mult;
      StateHandler(p.status);
      if polling && p.final {
        polling := false;
        FinalHandler();
      }
      UpdateDetection();
    }

    method UpdateDetection()
      modifies `detect
      ensures State() == old(State()).(detect := Detection(old(State())))
    {
      if cur.rx > remote.tx {
        detect := Times(remoteMult, cur.rx);
      } else {
        detect := Times(remoteMult, remote.tx);
      }
    }
  }
}
