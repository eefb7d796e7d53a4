/**
 When a Poll Sequence does what it is for: the exact condition on a link under which every way a poll can end leaves
 the poller detecting by the pace its peer sends at, and a reconfiguration that breaks it.
 */
module BfdPoll {
  import opened Basics
  import opened Bfd

  // ---- Paces

  /** The time within which a peer that listens properly expects the packets of `s`. */
  function Due(s: Session): u32 { s.mult * s.xmt % 0x1_0000_0000 }

  /** The detection time that follows from the configured intervals of both. */
  function Goal(l: Link): u32 { Times(l.b.mult, MaxOf(l.b.timers.tx, l.a.timers.rx)) }

  /** The detection time `a` has once it uses its configured intervals and hears `p`. */
  function Heard(a: Session, p: Packet): u32 { Times(p.mult, MaxOf(a.timers.rx, p.timers.tx)) }

  /** What `b` owes once it follows `p`. */
  function Led(b: Session, p: Packet): u32 { Times(b.mult, MaxOf(b.timers.tx, p.timers.rx)) }

  /** `b` will follow `p`: it is a poll, or the answer to a poll of its own. */
  predicate Follows(b: Session, p: Packet) { p.poll || (b.polling && p.final) }

  predicate Leads(l: Link, p: Packet) { Follows(l.b, p) ==> Led(l.b, p) == Goal(l) }

  /** The packet is no poll, or leads right and is an answer as well, after which `b` polls no more. */
  predicate Passes(l: Link, p: Packet) { p.poll ==> p.final && Led(l.b, p) == Goal(l) }

  // ---- The condition

  /** Packets that `b` may follow lead to the right pace; the answers to its own polls, only once it was polled. */
  predicate LeadsFrom(l: Link, k: nat) { From(l.ab, k, (p: Packet) => Passes(l, p), (p: Packet) => Leads(l, p)) }

  /** What `a` may hear once its poll has ended tells the right pace. */
  predicate HeardFrom(l: Link, k: nat) {
    From(l.ba, k, (p: Packet) => !p.final, (p: Packet) => Heard(l.a, p) == Goal(l))
  }

  /** `b` keeps the right pace already, tells it, and nothing on the way will lead it astray. */
  predicate Paced(l: Link, k: nat) {
    && LeadsFrom(l, 0) && HeardFrom(l, k)
    && Due(l.b) == Goal(l) && Heard(l.a, Said(l.b, false)) == Goal(l)
  }

  /**
   The condition. As long as no answer is on the way, the first poll on the way and what follows it must lead to the
   right pace; if one is, it ends the poll, so everything must be right already.
   */
  ghost predicate Harmless(l: Link) {
    if NoneFinal(l.ba) then exists k :: LeadsFrom(l, k) else exists k :: Paced(l, k)
  }

  ghost predicate Reaches(l: Link, m: Link) {
    exists steps :: Run(l, steps) && Exec(l, steps) == m
  }

  /** However the poll ends, `a` then detects by the pace of `b`, and keeps to that. */
  ghost predicate EndsWell(l: Link) {
    forall m | Reaches(l, m) && !m.a.polling :: m.a.detect == Due(m.b)
  }

  // ---- It suffices

  /** No answer is on the way, and what `b` may follow leads it right. */
  predicate Waiting(l: Link, k: nat) { l.a.polling && NoneFinal(l.ba) && LeadsFrom(l, k) }

  /** An answer may be on the way, or has ended the poll. */
  predicate Ready(l: Link, k: nat) {
    Paced(l, k) && (!l.a.polling ==> k == 0 && l.a.cur == l.a.timers && l.a.detect == Goal(l))
  }

  ghost predicate Fair(l: Link) {
    Connected(l) && ((exists k :: Waiting(l, k)) || (exists k :: Ready(l, k)))
  }

  /** The same configuration on both sides: the goal and what packets lead to are the same. */
  lemma {:induction false} SameGoal(l: Link, m: Link)
    requires SameConfig(l.a, m.a) && SameConfig(l.b, m.b) && (m.b.polling ==> l.b.polling)
    ensures Goal(l) == Goal(m)
    ensures forall p: Packet :: (Leads(l, p) ==> Leads(m, p)) && Passes(l, p) == Passes(m, p)
    ensures forall p: Packet :: Heard(l.a, p) == Heard(m.a, p)
  {
  }

  /** What `b` does with a packet. */
  lemma {:induction false} BFollows(l: Link)
    requires Connected(l) && |l.ab| > 0
    ensures
      var p, m := l.ab[0], Next(l, DeliverToB);
      && (m.b.polling ==> l.b.polling)
      && (Follows(l.b, p) ==>
            && m.b.xmt == MaxOf(m.b.timers.tx, p.timers.rx) && Due(m.b) == Led(l.b, p)
            && (forall final :: Tells(Said(m.b, final), m.b)))
      && (!Follows(l.b, p) ==>
            m.b.xmt == l.b.xmt && Said(m.b, false) == Said(l.b, false))
  {
    assert l.ab[0] in l.ab;
    UpReceives(l.b, l.ab[0]);
  }

  lemma {:induction false} TellsGoal(l: Link, p: Packet)
    requires Tells(p, l.b)
    ensures Heard(l.a, p) == Goal(l)
  {
  }

  lemma {:induction false} SaysGoal(l: Link, final: bool)
    requires l.a.polling || l.a.cur == l.a.timers
    ensures Leads(l, Said(l.a, final))
  {
  }

  lemma {:induction false} WaitingSteps(l: Link, k: nat, step: Step)
    requires Connected(l) && Waiting(l, k) && Enabled(l, step) && !step.DeliverToA? && !step.DeliverToB?
    ensures exists j :: Waiting(Next(l, step), j)
  {
    var m := Next(l, step);
    SameGoal(l, m);
    match step
    case SendA =>
      SaysGoal(l, false);
      FromMore(l.ab, k, (p: Packet) => Passes(l, p), (p: Packet) => Leads(l, p), [Said(l.a, false)]);
      assert Waiting(m, k);
    case LoseAB(i) =>
      FromLess(l.ab, k, (p: Packet) => Passes(l, p), (p: Packet) => Leads(l, p), i);
      assert Waiting(m, if i < k then k - 1 else k);
    case RepeatAB(i) =>
      FromLess(l.ab, k, (p: Packet) => Passes(l, p), (p: Packet) => Leads(l, p), i);
      assert Waiting(m, if i < k then k + 1 else k);
    case SendB => assert Waiting(m, k);
    case LoseBA(_) => assert Waiting(m, k);
    case RepeatBA(_) => assert Waiting(m, k);
  }

  lemma {:induction false} WaitingToA(l: Link, k: nat)
    requires Connected(l) && Waiting(l, k) && |l.ba| > 0
    ensures Waiting(Next(l, DeliverToA), k)
  {
    var m := Next(l, DeliverToA);
    AReceives(l);
    assert l.ba[0] in l.ba;
    SameGoal(l, m);
    SaysGoal(m, true);
    FromMore(l.ab, k, (p: Packet) => Passes(m, p), (p: Packet) => Leads(m, p),
             if l.ba[0].poll then [Said(m.a, true)] else []);
  }

  /** Once it was polled, all that `b` may still follow leads it right. */
  lemma {:induction false} PolledLeads(l: Link, k: nat)
    requires Connected(l) && LeadsFrom(l, k) && |l.ab| > 0 && l.ab[0].poll
    ensures LeadsFrom(Next(l, DeliverToB), 0)
  {
    var m := Next(l, DeliverToB);
    BReceives(l);
    assert l.ab[0] in l.ab;
    UpReceives(l.b, l.ab[0]);
    SameGoal(l, m);
    forall i | 0 <= i < |m.ab| ensures Leads(m, m.ab[i]) {
      assert m.ab[i] == l.ab[i + 1];
    }
  }

  lemma {:induction false} WaitingToB(l: Link, k: nat)
    requires Connected(l) && Waiting(l, k) && |l.ab| > 0
    ensures
      var m := Next(l, DeliverToB);
      if l.ab[0].poll then Ready(m, |l.ba|) else Waiting(m, if k > 0 then k - 1 else 0)
  {
    var p, m := l.ab[0], Next(l, DeliverToB);
    BReceives(l);
    BFollows(l);
    SameGoal(l, m);
    FromRest(l.ab, k, (p: Packet) => Passes(l, p), (p: Packet) => Leads(l, p));
    assert LeadsFrom(m, if k > 0 then k - 1 else 0);
    if p.poll {
      assert Led(l.b, p) == Goal(l);
      PolledLeads(l, k);
      TellsGoal(m, Said(m.b, true));
      TellsGoal(m, Said(m.b, false));
      assert From(l.ba, |l.ba|, (p: Packet) => !p.final, (p: Packet) => Heard(m.a, p) == Goal(m)) by {
        forall i | 0 <= i < |l.ba| ensures !l.ba[i].final { assert l.ba[i] in l.ba; }
      }
      FromMore(l.ba, |l.ba|, (p: Packet) => !p.final, (p: Packet) => Heard(m.a, p) == Goal(m), [Said(m.b, true)]);
    }
  }

  lemma {:induction false} ReadySteps(l: Link, k: nat, step: Step)
    requires Connected(l) && Ready(l, k) && Enabled(l, step) && !step.DeliverToA? && !step.DeliverToB?
    ensures exists j :: Ready(Next(l, step), j)
  {
    var m := Next(l, step);
    SameGoal(l, m);
    match step
    case SendA =>
      SaysGoal(l, false);
      FromMore(l.ab, 0, (p: Packet) => Passes(l, p), (p: Packet) => Leads(l, p), [Said(l.a, false)]);
      assert Ready(m, k);
    case SendB =>
      FromMore(l.ba, k, (p: Packet) => !p.final, (p: Packet) => Heard(l.a, p) == Goal(l), [Said(l.b, false)]);
      assert Ready(m, k);
    case LoseAB(i) =>
      FromLess(l.ab, 0, (p: Packet) => Passes(l, p), (p: Packet) => Leads(l, p), i);
      assert Ready(m, k);
    case RepeatAB(i) =>
      FromLess(l.ab, 0, (p: Packet) => Passes(l, p), (p: Packet) => Leads(l, p), i);
      assert Ready(m, k);
    case LoseBA(i) =>
      FromLess(l.ba, k, (p: Packet) => !p.final, (p: Packet) => Heard(l.a, p) == Goal(l), i);
      assert Ready(m, if i < k then k - 1 else k);
    case RepeatBA(i) =>
      FromLess(l.ba, k, (p: Packet) => !p.final, (p: Packet) => Heard(l.a, p) == Goal(l), i);
      assert Ready(m, if i < k then k + 1 else k);
  }

  lemma {:induction false} ReadyToB(l: Link, k: nat)
    requires Connected(l) && Ready(l, k) && |l.ab| > 0
    ensures Ready(Next(l, DeliverToB), k)
  {
    var p, m := l.ab[0], Next(l, DeliverToB);
    BReceives(l);
    BFollows(l);
    SameGoal(l, m);
    FromRest(l.ab, 0, (p: Packet) => Passes(l, p), (p: Packet) => Leads(l, p));
    if Follows(l.b, p) {
      assert Leads(l, p);
      TellsGoal(m, Said(m.b, true));
      TellsGoal(m, Said(m.b, false));
    }
    FromMore(l.ba, k, (p: Packet) => !p.final, (p: Packet) => Heard(m.a, p) == Goal(m),
             if p.poll then [Said(m.b, true)] else []);
  }

  lemma {:induction false} ReadyToA(l: Link, k: nat)
    requires Connected(l) && Ready(l, k) && |l.ba| > 0
    ensures Ready(Next(l, DeliverToA), if k > 0 then k - 1 else 0)
  {
    var p, m := l.ba[0], Next(l, DeliverToA);
    AReceives(l);
    SameGoal(l, m);
    FromRest(l.ba, k, (p: Packet) => !p.final, (p: Packet) => Heard(l.a, p) == Goal(l));
    if !l.a.polling || p.final {
      EndsOn(l.a, p);
    }
    SaysGoal(m, true);
    FromMore(l.ab, 0, (p: Packet) => Passes(m, p), (p: Packet) => Leads(m, p),
             if p.poll then [Said(m.a, true)] else []);
  }

  /** The answer to a poll, and whatever comes later, sets the detection time by the configured intervals. */
  lemma {:induction false} EndsOn(a: Session, p: Packet)
    requires a.status == Up && !a.demand && Alive(p) && (a.polling ==> p.final) && (!a.polling ==> a.cur == a.timers)
    ensures var r := Received(a, p); !r.polling && r.cur == r.timers && r.detect == Heard(a, p)
  {
    UpReceives(a, p);
  }

  lemma {:induction false} FairStep(l: Link, step: Step)
    requires Fair(l) && Enabled(l, step)
    ensures Fair(Next(l, step))
  {
    StepConnected(l, step);
    if k :| Waiting(l, k) {
      if step.DeliverToA? {
        WaitingToA(l, k);
      } else if step.DeliverToB? {
        WaitingToB(l, k);
      } else {
        WaitingSteps(l, k, step);
      }
    } else {
      var k :| Ready(l, k);
      if step.DeliverToA? {
        ReadyToA(l, k);
      } else if step.DeliverToB? {
        ReadyToB(l, k);
      } else {
        ReadySteps(l, k, step);
      }
    }
  }

  lemma {:induction false} FairRun(l: Link, steps: seq<Step>)
    requires Fair(l) && Run(l, steps)
    ensures Fair(Exec(l, steps))
    decreases |steps|
  {
    hide Fair, Next, Enabled;
    if |steps| > 0 {
      FairStep(l, steps[0]);
      FairRun(Next(l, steps[0]), steps[1..]);
    }
  }

  lemma {:induction false} HarmlessEndsWell(l: Link)
    requires Connected(l) && l.a.polling && Harmless(l)
    ensures EndsWell(l)
  {
    assert Fair(l) by {
      if NoneFinal(l.ba) {
        var k :| LeadsFrom(l, k);
        assert Waiting(l, k);
      } else {
        var k :| Paced(l, k);
        assert Ready(l, k);
      }
    }
    forall m | Reaches(l, m) && !m.a.polling ensures m.a.detect == Due(m.b) {
      var steps :| Run(l, steps) && Exec(l, steps) == m;
      FairRun(l, steps);
    }
  }

  // ---- It is needed

  lemma {:induction false} ReachesNow(l: Link)
    ensures Reaches(l, l)
  {
    assert Run(l, []) && Exec(l, []) == l;
  }

  lemma {:induction false} ReachesBy(l: Link, step: Step, m: Link)
    requires Enabled(l, step) && Reaches(Next(l, step), m)
    ensures Reaches(l, m)
  {
    hide Next, Enabled;
    var steps :| Run(Next(l, step), steps) && Exec(Next(l, step), steps) == m;
    assert ([step] + steps)[1..] == steps;
    assert Run(l, [step] + steps) && Exec(l, [step] + steps) == m;
  }

  /** What ends well from here ends well from wherever this leads. */
  lemma {:induction false} StepEndsWell(l: Link, step: Step)
    requires EndsWell(l) && Enabled(l, step)
    ensures EndsWell(Next(l, step))
  {
    hide Next, Enabled, Reaches;
    forall m | Reaches(Next(l, step), m) && !m.a.polling ensures m.a.detect == Due(m.b) {
      ReachesBy(l, step, m);
    }
  }

  /** `b` takes the packet `i`, those before it being lost. */
  lemma {:induction false} TakenByB(l: Link, i: nat)
    requires EndsWell(l) && i < |l.ab|
    ensures EndsWell(Next(l.(ab := l.ab[i..]), DeliverToB))
    decreases i
  {
    hide EndsWell;
    if i == 0 {
      assert l.ab[0..] == l.ab;
      StepEndsWell(l, DeliverToB);
    } else {
      StepEndsWell(l, LoseAB(0));
      assert Lost(l.ab, 0) == l.ab[1..];
      TakenByB(l.(ab := l.ab[1..]), i - 1);
      assert l.ab[1..][i - 1..] == l.ab[i..];
    }
  }

  lemma {:induction false} TakenByA(l: Link, i: nat)
    requires EndsWell(l) && i < |l.ba|
    ensures EndsWell(Next(l.(ba := l.ba[i..]), DeliverToA))
    decreases i
  {
    hide EndsWell;
    if i == 0 {
      assert l.ba[0..] == l.ba;
      StepEndsWell(l, DeliverToA);
    } else {
      StepEndsWell(l, LoseBA(0));
      assert Lost(l.ba, 0) == l.ba[1..];
      TakenByA(l.(ba := l.ba[1..]), i - 1);
      assert l.ba[1..][i - 1..] == l.ba[i..];
    }
  }

  /** When an answer is on the way, it sets the detection time, so it must fit the pace of `b` as it is. */
  lemma {:induction false} AnswerFits(l: Link, i: nat)
    requires Connected(l) && EndsWell(l) && i < |l.ba|
    requires l.a.polling ==> l.ba[i].final
    requires !l.a.polling ==> l.a.cur == l.a.timers
    ensures
      var m := Next(l.(ba := l.ba[i..]), DeliverToA);
      && Heard(l.a, l.ba[i]) == Due(l.b) && EndsWell(m) && Connected(m) && m.b == l.b && m.ba == l.ba[i + 1..]
      && SameConfig(l.a, m.a) && !m.a.polling && m.a.cur == m.a.timers
  {
    var l1 := l.(ba := l.ba[i..]);
    var m := Next(l1, DeliverToA);
    assert l1.ba[0] == l.ba[i] && l.ba[i] in l.ba;
    TakenByA(l, i);
    AReceives(l1);
    StepConnected(l1, DeliverToA);
    EndsOn(l.a, l.ba[i]);
    ReachesNow(m);
  }

  /** `b` takes a packet and follows it, which must lead it right. */
  lemma {:induction false} LeadFits(l: Link, i: nat)
    requires Connected(l) && EndsWell(l) && i < |l.ab| && Follows(l.b, l.ab[i])
    ensures
      var m := Next(l.(ab := l.ab[i..]), DeliverToB);
      && EndsWell(m) && Connected(m) && m.a == l.a && SameConfig(l.b, m.b) && Due(m.b) == Led(l.b, l.ab[i])
      && m.ba == l.ba + (if l.ab[i].poll then [Said(m.b, true)] else [])
      && m.ab == l.ab[i + 1..] && Tells(Said(m.b, true), m.b) && (m.b.polling == (l.b.polling && !l.ab[i].final))
  {
    var l1 := l.(ab := l.ab[i..]);
    assert l1.ab[0] == l.ab[i] && l.ab[i] in l.ab;
    TakenByB(l, i);
    BReceives(l1);
    BFollows(l1);
    UpReceives(l1.b, l1.ab[0]);
    StepConnected(l1, DeliverToB);
  }

  /** With an answer on the way, what `b` follows must lead it right whenever it comes. */
  lemma {:induction false} AnsweredLeads(l: Link, f: nat, i: nat)
    requires Connected(l) && EndsWell(l) && l.a.polling && f < |l.ba| && l.ba[f].final
    requires i < |l.ab| && Follows(l.b, l.ab[i])
    ensures Heard(l.a, l.ba[f]) == Led(l.b, l.ab[i])
  {
    LeadFits(l, i);
    var m := Next(l.(ab := l.ab[i..]), DeliverToB);
    assert m.ba[f] == l.ba[f];
    AnswerFits(m, f);
  }

  /** With an answer on the way: it fits the goal, as a poll told to `b` before it arrives shows. */
  lemma {:induction false} AnswerIsGoal(l: Link, f: nat)
    requires Connected(l) && EndsWell(l) && l.a.polling && f < |l.ba| && l.ba[f].final
    ensures Heard(l.a, l.ba[f]) == Goal(l) == Due(l.b)
  {
    AnswerFits(l, f);
    StepEndsWell(l, SendA);
    StepConnected(l, SendA);
    var m := Next(l, SendA);
    assert m.ab[|l.ab|] == Said(l.a, false);
    AnsweredLeads(m, f, |l.ab|);
  }

  lemma {:induction false} AnsweredPaced(l: Link, f: nat)
    requires Connected(l) && EndsWell(l) && l.a.polling && f < |l.ba| && l.ba[f].final
    requires forall i | 0 <= i < f :: !l.ba[i].final
    ensures Paced(l, f)
  {
    AnswerIsGoal(l, f);
    forall i | 0 <= i < |l.ab| ensures Leads(l, l.ab[i]) {
      if Follows(l.b, l.ab[i]) {
        AnsweredLeads(l, f, i);
      }
    }
    AnswerFits(l, f);
    var m := Next(l.(ba := l.ba[f..]), DeliverToA);
    forall i | f < i < |l.ba| ensures Heard(l.a, l.ba[i]) == Goal(l) {
      assert m.ba[i - f - 1] == l.ba[i];
      AnswerFits(m, i - f - 1);
    }
    StepEndsWell(m, SendB);
    StepConnected(m, SendB);
    assert Next(m, SendB).ba[|m.ba|] == Said(l.b, false);
    AnswerFits(Next(m, SendB), |m.ba|);
  }

  /** With no answer on the way, a poll gets one, which must fit; so must what comes after it. */
  lemma {:induction false} PollFits(l: Link, j: nat)
    requires Connected(l) && EndsWell(l) && l.a.polling && j < |l.ab| && l.ab[j].poll
    ensures Led(l.b, l.ab[j]) == Goal(l)
    ensures !l.ab[j].final ==> forall i | j < i < |l.ab| :: Leads(l, l.ab[i])
  {
    hide EndsWell, Connected, Next, Received, Said;
    LeadFits(l, j);
    var m := Next(l.(ab := l.ab[j..]), DeliverToB);
    var f := |l.ba|;
    assert m.ba[f] == Said(m.b, true);
    SaidFinal(m.b);
    AnswerIsGoal(m, f);
    if !l.ab[j].final {
      forall i | j < i < |l.ab| ensures Leads(l, l.ab[i]) {
        assert m.ab[i - j - 1] == l.ab[i];
        if Follows(m.b, l.ab[i]) {
          AnsweredLeads(m, f, i - j - 1);
        }
      }
    }
  }

  lemma {:induction false} SaidFinal(s: Session)
    ensures Said(s, true).final
  {
  }

  /** The first packet that polls `b` and leaves it polling; the number of packets if there is none. */
  function FirstPoll(ps: seq<Packet>): (k: nat)
    ensures k <= |ps| && (k < |ps| ==> ps[k].poll && !ps[k].final)
    ensures forall i | 0 <= i < k :: ps[i].poll ==> ps[i].final
  {
    if |ps| == 0 || (ps[0].poll && !ps[0].final) then 0 else 1 + FirstPoll(ps[1..])
  }

  lemma {:induction false} UnansweredLeads(l: Link)
    requires Connected(l) && EndsWell(l) && l.a.polling
    ensures LeadsFrom(l, FirstPoll(l.ab))
  {
    hide EndsWell, Connected, Led, Goal, Follows;
    var k := FirstPoll(l.ab);
    forall i | 0 <= i < |l.ab| ensures if i >= k then Leads(l, l.ab[i]) else Passes(l, l.ab[i]) {
      if k < |l.ab| {
        PollFits(l, k);
      }
      if l.ab[i].poll {
        PollFits(l, i);
      }
    }
  }

  function FirstFinal(ps: seq<Packet>): (k: nat)
    requires !NoneFinal(ps)
    ensures k < |ps| && ps[k].final && forall i | 0 <= i < k :: !ps[i].final
  {
    if ps[0].final then 0 else 1 + FirstFinal(ps[1..])
  }

  /**
   Every run that ends the poll of `a` leaves it detecting by the pace at which `b` sends, if and only if what is on
   the way is harmless.
   */
  lemma {:induction false} PollEndsWellIff(l: Link)
    requires Connected(l) && l.a.polling
    ensures EndsWell(l) <==> Harmless(l)
  {
    hide EndsWell, Connected, Paced, LeadsFrom;
    if EndsWell(l) {
      if NoneFinal(l.ba) {
        UnansweredLeads(l);
      } else {
        AnsweredPaced(l, FirstFinal(l.ba));
      }
    }
    if Harmless(l) {
      HarmlessEndsWell(l);
    }
  }

  /** In particular, if the peer is not polling and has not answered: all polls on the way must lead to the pace that
      the new intervals call for. */
  lemma {:induction false} UnansweredPollIff(l: Link)
    requires Connected(l) && l.a.polling && !l.b.polling && NoneFinal(l.ba)
    ensures EndsWell(l) <==> forall p | p in l.ab && p.poll :: Led(l.b, p) == Goal(l)
  {
    hide EndsWell, Connected, Led, Goal;
    PollEndsWellIff(l);
    if k :| LeadsFrom(l, k) {
      forall p | p in l.ab && p.poll ensures Led(l.b, p) == Goal(l) {
        var i :| 0 <= i < |l.ab| && l.ab[i] == p;
      }
    }
    if forall p | p in l.ab && p.poll :: Led(l.b, p) == Goal(l) {
      forall i | 0 <= i < |l.ab| ensures Leads(l, l.ab[i]) {
        assert l.ab[i] in l.ab;
      }
      assert LeadsFrom(l, 0);
    }
  }

  // ---- Reconfiguration

  /** bfd_session_apply: new intervals take a poll to take effect; a new multiplier is told at once. */
  function Configured(s: Session, mult: u8, timers: Timers): Session {
    s.(mult := mult, timers := timers, polling := s.polling || (s.status == Up && timers != s.timers))
  }

  /** Links on which `a` may be reconfigured at any time. */
  datatype Move = Pass(step: Step) | Configure(mult: u8, timers: Timers)

  predicate Possible(l: Link, move: Move) { move.Pass? ==> Enabled(l, move.step) }

  function After(l: Link, move: Move): Link
    requires Possible(l, move)
  {
    match move
    case Pass(step) => Next(l, step)
    case Configure(mult, timers) => l.(a := Configured(l.a, mult, timers))
  }

  ghost predicate Moves(l: Link, moves: seq<Move>, m: Link)
    decreases |moves|
  {
    if |moves| == 0 then l == m else Possible(l, moves[0]) && Moves(After(l, moves[0]), moves[1..], m)
  }

  ghost predicate Comes(l: Link, m: Link) { exists moves :: Moves(l, moves, m) }

  lemma {:induction false} ComesBy(l: Link, move: Move, m: Link)
    requires Possible(l, move) && (After(l, move) == m || Comes(After(l, move), m))
    ensures Comes(l, m)
  {
    hide After, Possible;
    if After(l, move) == m {
      assert Moves(m, [], m);
      assert [move][1..] == [];
      assert Moves(l, [move], m);
    } else {
      var moves :| Moves(After(l, move), moves, m);
      assert ([move] + moves)[1..] == moves;
      assert Moves(l, [move] + moves, m);
    }
  }

  /** The same packet but for the multiplier. */
  predicate SamePacket(p: Packet, r: Packet) { p.(mult := 0) == r.(mult := 0) }

  /** The same link but for the multiplier of `a` and what follows from it at `b`. */
  predicate SameButMult(l: Link, m: Link) {
    && m.a.(mult := l.a.mult) == l.a && m.b.(remoteMult := l.b.remoteMult, detect := l.b.detect) == l.b
    && m.ba == l.ba && |m.ab| == |l.ab| && forall i | 0 <= i < |l.ab| :: SamePacket(l.ab[i], m.ab[i])
  }

  lemma {:induction false} SameStep(l: Link, m: Link, step: Step)
    requires SameButMult(l, m) && Enabled(l, step) && Connected(l) && Connected(m)
    ensures Enabled(m, step) && SameButMult(Next(l, step), Next(m, step))
  {
    match step
    case DeliverToA =>
      assert l.ba[0] in l.ba;
      SameReceivesA(l.a, m.a, l.ba[0]);
    case DeliverToB =>
      assert l.ab[0] in l.ab && m.ab[0] in m.ab;
      SameReceivesB(l.b, m.b, l.ab[0], m.ab[0]);
    case _ =>
  }

  lemma {:induction false} SameReceivesA(s: Session, t: Session, p: Packet)
    requires s.status == Up && !s.demand && Alive(p) && t.(mult := s.mult) == s
    ensures Received(t, p).(mult := s.mult) == Received(s, p)
    ensures
      var ps, rs := ReceiverSends(s, p), ReceiverSends(t, p);
      |ps| == |rs| && forall i | 0 <= i < |ps| :: SamePacket(ps[i], rs[i])
  {
    UpReceives(s, p);
    UpReceives(t, p);
    hide Handled, ReceiverSends, Times;
  }

  lemma {:induction false} SameReceivesB(s: Session, t: Session, p: Packet, r: Packet)
    requires s.status == Up && !s.demand && Alive(p) && SamePacket(p, r)
    requires t.(remoteMult := s.remoteMult, detect := s.detect) == s
    ensures
      var s', t' := Received(s, p), Received(t, r);
      t'.(remoteMult := s'.remoteMult, detect := s'.detect) == s' && ReceiverSends(s, p) == ReceiverSends(t, r)
  {
    UpReceives(s, p);
    UpReceives(t, r);
    hide Handled, ReceiverSends, Times;
  }

  lemma {:induction false} SameRun(l: Link, m: Link, steps: seq<Step>)
    requires SameButMult(l, m) && Run(l, steps) && Connected(l) && Connected(m)
    ensures Run(m, steps) && SameButMult(Exec(l, steps), Exec(m, steps))
    decreases |steps|
  {
    hide SameButMult, Next, Enabled, Connected;
    if |steps| > 0 {
      SameStep(l, m, steps[0]);
      StepConnected(l, steps[0]);
      StepConnected(m, steps[0]);
      SameRun(Next(l, steps[0]), Next(m, steps[0]), steps[1..]);
    }
  }

  lemma {:induction false} SameEnds(l: Link, m: Link)
    requires SameButMult(m, l) && Connected(l) && Connected(m) && EndsWell(l)
    ensures EndsWell(m)
  {
    forall o | Reaches(m, o) && !o.a.polling ensures o.a.detect == Due(o.b) {
      var steps :| Run(m, steps) && Exec(m, steps) == o;
      SameRun(m, l, steps);
      assert Reaches(l, Exec(l, steps));
    }
  }

  /**
   A reconfiguration succeeds exactly if what is on the way is harmless under the new configuration. Where it starts no
   poll and none is running, it is the multiplier alone that changes, and with it nothing about how polls end.
   */
  lemma {:induction false} ReconfigurationIff(l: Link, mult: u8, timers: Timers)
    requires Connected(l)
    ensures
      var m := After(l, Configure(mult, timers));
      if m.a.polling then EndsWell(m) <==> Harmless(m)
      else timers == l.a.timers && (EndsWell(m) <==> EndsWell(l))
  {
    hide EndsWell, Harmless;
    var m := After(l, Configure(mult, timers));
    if m.a.polling {
      PollEndsWellIff(m);
    } else {
      if EndsWell(l) { SameEnds(l, m); }
      if EndsWell(m) { SameEnds(m, l); }
    }
  }

  /** Two sides that agree, both at 100 ms, with nothing on the way. */
  function Quiet(): (l: Link)
    ensures Agreed(l) && l.ab == [] && l.ba == []
  {
    var fast := Timers(100_000, 100_000);
    var s := Session(Up, false, false, false, 3, fast, fast, fast, 3, 100_000, 300_000, true);
    Link(s, s, [], [])
  }

  /** `a` listens three times as slowly as `b` sends, and takes this for agreed. */
  predicate Misled(l: Link) { !l.a.polling && l.a.detect == 900_000 && l.b.mult == 3 && l.b.xmt == 100_000 }

  /** If the intervals change while an older poll is on the way, its answer ends the poll for the new ones. */
  lemma {:induction false} OlderPollMisleads()
    ensures exists l, m :: Comes(Quiet(), l) && l.a.polling && NoneFinal(l.ba) && Reaches(l, m) && Misled(m)
  {
    hide Comes, Reaches;
    var m0, first, slow := Quiet(), Timers(200_000, 100_000), Timers(200_000, 300_000);
    var m1 := After(m0, Configure(3, first));
    var m2 := After(m1, Pass(SendA));
    var m3 := After(m2, Configure(3, slow));
    var m4 := After(m3, Pass(DeliverToB));
    var m5 := After(m4, Pass(DeliverToA));
    assert Misled(m5);
    ReachesNow(m5);
    ReachesBy(m4, DeliverToA, m5);
    ReachesBy(m3, DeliverToB, m5);
    ComesBy(m2, Configure(3, slow), m3);
    ComesBy(m1, Pass(SendA), m3);
    ComesBy(m0, Configure(3, first), m3);
  }

  /** A poll that was repeated is over, and its second answer still on the way, when the intervals change again. */
  lemma {:induction false} SecondAnswer(slow: Timers) returns (l: Link)
    requires slow == Timers(200_000, 300_000)
    ensures Comes(Quiet(), l) && l.ab == [] && l.ba == [Said(l.b, true)] && l.b.xmt == 100_000 && l.b.mult == 3
    ensures !l.b.polling && l.b.cur == Timers(100_000, 100_000)
    ensures l.a.polling && !l.a.demand && l.a.timers == slow && l.a.status == l.b.status == Up
  {
    hide Comes;
    var m0, first := Quiet(), Timers(200_000, 100_000);
    var m1 := After(m0, Configure(3, first));
    var m2 := After(m1, Pass(SendA));
    var m3 := After(m2, Pass(RepeatAB(0)));
    assert m3 == m1.(ab := [Said(m1.a, false), Said(m1.a, false)]);
    var m4 := After(m3, Pass(DeliverToB));
    assert m4 == m3.(b := m4.b, ab := [Said(m1.a, false)], ba := [Said(m4.b, true)]);
    var m5 := After(m4, Pass(DeliverToB));
    assert m5 == m4.(ab := [], ba := [Said(m4.b, true), Said(m4.b, true)]);
    var m6 := After(m5, Pass(DeliverToA));
    l := After(m6, Configure(3, slow));
    ComesBy(m6, Configure(3, slow), l);
    ComesBy(m5, Pass(DeliverToA), l);
    ComesBy(m4, Pass(DeliverToB), l);
    ComesBy(m3, Pass(DeliverToB), l);
    ComesBy(m2, Pass(RepeatAB(0)), l);
    ComesBy(m1, Pass(SendA), l);
    ComesBy(m0, Configure(3, first), l);
  }

  /** A second answer to a poll that was repeated ends a later poll that has not even been sent. */
  lemma {:induction false} LateAnswerMisleads()
    ensures exists l, m :: Comes(Quiet(), l) && l.a.polling && l.ab == [] && Reaches(l, m) && Misled(m)
  {
    hide Comes, Reaches;
    var l := SecondAnswer(Timers(200_000, 300_000));
    var m := Next(l, DeliverToA);
    EndsOn(l.a, l.ba[0]);
    assert Misled(m);
    ReachesNow(m);
    ReachesBy(l, DeliverToA, m);
  }
}
