/** The state machine of BFD sessions (sections 6.2 and 6.8.6 of RFC 5880): coming up, and going down. */
module BfdState {
  import opened Basics
  import opened Bfd

  // ---- One side

  /** The new state of a session in state `session` that receives a packet with state `received`, as the RFC puts it. */
  function StateAfter(session: Status, received: Status): Status {
    if session == AdminDown then AdminDown
    else if received == AdminDown then Down
    else if session == Down then (if received == Down then Init else if received == Init then Up else Down)
    else if session == Init then (if received == Init || received == Up then Up else Init)
    else if received == Down then Down
    else Up
  }

  lemma {:induction false} StateFollows(s: Session, p: Packet)
    ensures Received(s, p).status == StateAfter(s.status, p.status)
  {
    HandledFollows(Learnt(s, p), p.status);
    hide Handled, Detection, MaxOf, StateAfter;
  }

  lemma {:induction false} HandledFollows(s: Session, peer: Status)
    ensures Handled(s, peer).status == StateAfter(s.status, peer)
  {
  }

  /** A session that comes up asks for its intervals at once. */
  lemma {:induction false} UpPolls(s: Session, p: Packet)
    requires s.status != Up && StateAfter(s.status, p.status) == Up
    ensures Received(s, p).polling == !p.final
    ensures
      var sent := ReceiverSends(s, p);
      |sent| > 0 && sent[0].status == Up && sent[0].poll && !sent[0].final && Tells(sent[0], s)
  {
  }

  /**
   A session that hears that its peer is down goes down, says so if it has a socket, polls no more, and sends and
   listens slowly, unless it was polled by that very packet, which makes it take up the configured intervals.
   */
  lemma {:induction false} HearsDown(s: Session, p: Packet)
    requires s.status == Up && (p.status == Down || p.status == AdminDown)
    ensures
      var r, slow := Received(s, p), Timers(SLOW_TX, SLOW_TX);
      && r.status == Down && !r.polling && !r.demand
      && r.cur == (if p.poll then s.timers else slow)
      && r.xmt == (if p.poll then MaxOf(s.timers.tx, p.timers.rx) else SLOW_TX)
    ensures
      var sent := ReceiverSends(s, p);
      s.socket ==> |sent| > 0 && sent[0].status == Down && !sent[0].poll
  {
    var h := Handled(Learnt(s, p), p.status);
    assert h == WentDown(Learnt(s, p));
    hide Times, Handled;
  }

  // ---- Two sides

  /** Two sessions that have not heard of each other. */
  predicate Strangers(l: Link) {
    l.a.status == Down && l.b.status == Down && !l.a.polling && !l.b.polling && l.ab == [] && l.ba == []
  }

  /** Whatever their intervals, and whether passive or not, three packets bring both up. */
  lemma {:induction false} BringUp(l: Link)
    requires Strangers(l)
    ensures
      var steps := [SendA, DeliverToB, SendB, DeliverToA, DeliverToB];
      Run(l, steps) && Exec(l, steps).a.status == Up && Exec(l, steps).b.status == Up
      && Exec(l, steps).a.polling && Exec(l, steps).b.polling
  {
    var l1 := Next(l, SendA);
    assert l1.ab == [Said(l.a, false)];
    var l2 := Next(l1, DeliverToB);
    HearsStranger(l1.b, l1.ab[0]);
    hide Received, ReceiverSends;
    var l3 := Next(l2, SendB);
    assert l3.ba[0] in l3.ba;
    var p := l3.ba[0];
    assert p.status == Init && !p.final;
    var l4 := Next(l3, DeliverToA);
    UpPolls(l3.a, p);
    StateFollows(l3.a, p);
    assert l4.ab[0] == ReceiverSends(l3.a, p)[0];
    var l5 := Next(l4, DeliverToB);
    UpPolls(l4.b, l4.ab[0]);
    StateFollows(l4.b, l4.ab[0]);
    FiveSteps(l, l1, l2, l3, l4, l5);
  }

  /** A session that is down and hears from one that is down says, if anything, that it is coming up. */
  lemma {:induction false} HearsStranger(s: Session, p: Packet)
    requires s.status == Down && p.status == Down && !p.poll && !s.polling
    ensures Received(s, p).status == Init && !Received(s, p).polling
    ensures forall r | r in ReceiverSends(s, p) :: r.status == Init && !r.final && !r.poll
    ensures ReceiverSends(s, p) == [] <==> !s.passive
  {
    hide Times, MaxOf;
  }

  lemma {:induction false} FiveSteps(l: Link, l1: Link, l2: Link, l3: Link, l4: Link, l5: Link)
    requires Enabled(l, SendA) && l1 == Next(l, SendA) && Enabled(l1, DeliverToB) && l2 == Next(l1, DeliverToB)
    requires Enabled(l2, SendB) && l3 == Next(l2, SendB) && Enabled(l3, DeliverToA) && l4 == Next(l3, DeliverToA)
    requires Enabled(l4, DeliverToB) && l5 == Next(l4, DeliverToB)
    ensures
      var steps := [SendA, DeliverToB, SendB, DeliverToA, DeliverToB];
      Run(l, steps) && Exec(l, steps) == l5
  {
    hide Next, Enabled;
    var s5 := [DeliverToB];
    var s4 := [DeliverToA, DeliverToB];
    var s3 := [SendB, DeliverToA, DeliverToB];
    var s2 := [DeliverToB, SendB, DeliverToA, DeliverToB];
    var s1 := [SendA, DeliverToB, SendB, DeliverToA, DeliverToB];
    assert s5[1..] == [] && s4[1..] == s5 && s3[1..] == s4 && s2[1..] == s3 && s1[1..] == s2;
    assert Run(l4, s5) && Exec(l4, s5) == l5;
    assert Run(l3, s4) && Exec(l3, s4) == l5;
    assert Run(l2, s3) && Exec(l2, s3) == l5;
    assert Run(l1, s2) && Exec(l1, s2) == l5;
  }

  /** `b` has not heard anything: it is down, says so, and `a` can only be coming up. */
  predicate Unheard(l: Link) {
    l.b.status == Down && (l.a.status == Down || l.a.status == Init) && forall p | p in l.ba :: p.status == Down
  }

  lemma {:induction false} UnheardStep(l: Link, step: Step)
    requires Unheard(l) && Enabled(l, step) && !step.DeliverToB?
    ensures Unheard(Next(l, step))
  {
    if step.DeliverToA? {
      assert l.ba[0] in l.ba;
      StateFollows(l.a, l.ba[0]);
    }
  }

  /** In every run, one side is up only after the other has taken a packet of its. */
  lemma {:induction false} HeardBeforeUp(l: Link, steps: seq<Step>)
    requires Unheard(l) && Run(l, steps) && DeliverToB !in steps
    ensures Exec(l, steps).a.status != Up && Exec(l, steps).b.status == Down
    decreases |steps|
  {
    if |steps| > 0 {
      assert steps[0] in steps;
      UnheardStep(l, steps[0]);
      HeardBeforeUp(Next(l, steps[0]), steps[1..]);
    }
  }

  /** The same for the other side. */
  function Mirror(l: Link): Link { Link(l.b, l.a, l.ba, l.ab) }

  function MirrorStep(step: Step): Step {
    match step
    case SendA => SendB
    case SendB => SendA
    case DeliverToA => DeliverToB
    case DeliverToB => DeliverToA
    case LoseAB(i) => LoseBA(i)
    case LoseBA(i) => LoseAB(i)
    case RepeatAB(i) => RepeatBA(i)
    case RepeatBA(i) => RepeatAB(i)
  }

  function MirrorSteps(steps: seq<Step>): (r: seq<Step>)
    ensures |r| == |steps| && forall i | 0 <= i < |r| :: r[i] == MirrorStep(steps[i])
  {
    seq(|steps|, i requires 0 <= i < |steps| => MirrorStep(steps[i]))
  }

  /** A link is the same seen from either side, so whatever holds of one side in all runs holds of the other. */
  lemma {:induction false} MirrorRun(l: Link, steps: seq<Step>)
    requires Run(l, steps)
    ensures Run(Mirror(l), MirrorSteps(steps)) && Exec(Mirror(l), MirrorSteps(steps)) == Mirror(Exec(l, steps))
    decreases |steps|
  {
    if |steps| > 0 {
      MirrorNext(l, steps[0]);
      MirrorRun(Next(l, steps[0]), steps[1..]);
      assert MirrorSteps(steps)[1..] == MirrorSteps(steps[1..]);
      hide Next, Enabled, Mirror, MirrorStep;
    }
  }

  lemma {:induction false} MirrorNext(l: Link, step: Step)
    requires Enabled(l, step)
    ensures Enabled(Mirror(l), MirrorStep(step)) && Next(Mirror(l), MirrorStep(step)) == Mirror(Next(l, step))
  {
    hide Received, ReceiverSends, Said;
  }

  /** From strangers, neither side is up before the other has taken a packet of its. */
  lemma {:induction false} NeitherUpUnheard(l: Link, steps: seq<Step>)
    requires Strangers(l) && Run(l, steps)
    ensures Exec(l, steps).a.status == Up ==> DeliverToB in steps
    ensures Exec(l, steps).b.status == Up ==> DeliverToA in steps
  {
    if DeliverToB !in steps {
      HeardBeforeUp(l, steps);
    }
    if DeliverToA !in steps {
      MirrorRun(l, steps);
      assert DeliverToB !in MirrorSteps(steps);
      HeardBeforeUp(Mirror(l), MirrorSteps(steps));
    }
  }

  // ---- Polls and answers

  /** In demand mode a session keeps its pace, whatever it hears from a peer that is alive. */
  lemma {:induction false} DemandKeepsPace(s: Session, p: Packet)
    requires s.status == Up && s.demand && Alive(p)
    ensures Received(s, p).xmt == s.xmt && Received(s, p).demand
  {
    hide Times, MaxOf;
  }

  predicate NoneBoth(ps: seq<Packet>) { forall p | p in ps :: !(p.poll && p.final) }

  /** What a session sends on its own account is never an answer; what it sends to a poll is, and is no poll itself. */
  lemma {:induction false} AnswersOnly(s: Session, p: Packet)
    ensures
      var sent := ReceiverSends(s, p);
      && NoneBoth(sent) && |sent| <= 2
      && (p.poll ==> |sent| > 0 && sent[|sent| - 1].final)
      && (!p.poll ==> forall r | r in sent :: !r.final)
  {
    hide Times, MaxOf, Received;
  }

  /** In every run, no packet both polls and answers, so that an answer is never answered. */
  lemma {:induction false} NeverBoth(l: Link, steps: seq<Step>)
    requires NoneBoth(l.ab) && NoneBoth(l.ba) && Run(l, steps)
    ensures NoneBoth(Exec(l, steps).ab) && NoneBoth(Exec(l, steps).ba)
    decreases |steps|
  {
    if |steps| > 0 {
      NeverBothStep(l, steps[0]);
      NeverBoth(Next(l, steps[0]), steps[1..]);
    }
  }

  lemma {:induction false} NeverBothStep(l: Link, step: Step)
    requires NoneBoth(l.ab) && NoneBoth(l.ba) && Enabled(l, step)
    ensures NoneBoth(Next(l, step).ab) && NoneBoth(Next(l, step).ba)
  {
    hide Received, ReceiverSends;
    match step
    case DeliverToA => AnswersOnly(l.a, l.ba[0]);
    case DeliverToB => AnswersOnly(l.b, l.ab[0]);
    case _ =>
  }
}
