/**
 The updates an interface sends are those of the network: what goes out for a destination is the message of an
 advertisement or an origination, so that loop freedom is about what is on the wire.
 */
module BabelAdvertise {
  import opened Basics
  import opened Address
  import opened BabelPrefix
  import opened BabelRoundTrip
  import opened BabelSend
  import opened BabelOrder
  import Wire = BabelDecode
  import Route = BabelRoute
  import Net = BabelNet

  /** The tables that sending looks at say about `p` what the node of the network knows; `name` gives router-ids. */
  ghost predicate Views(env: Env, p: Prefix, node: Net.Node, flavour: Net.Flavour, name: Route.RouterId -> Wire.Id) {
    && env.myid == name(node.id) && env.myseqno == node.seqno
    && var installed := Route.Installed(node.dest.chain);
      match env.table(p)
      case Xroute(_) => node.dest.xroute
      case Installed(id, seqno, metric, _, _) =>
        && installed.Some? && id == name(installed.value.src) && seqno == installed.value.seqno
        && metric == Net.AdvertisedMetric(installed.value, flavour)
      case NoRoute => !node.dest.xroute && installed.None?
  }

  /** The step of the network that an update for `p` belongs to, if there is anything to announce. */
  function StepFor(env: Env, p: Prefix, u: Net.NodeId, flavour: Net.Flavour, now: int): Option<Net.Step> {
    match env.table(p)
    case Xroute(metric) => Some(Net.Originate(u, Plus(metric, env.filter(env.myid, p))))
    case Installed(id, _, _, _, _) => Some(Net.Advertise(u, flavour, env.filter(id, p), now))
    case NoRoute => None
  }

  /** Every update sent is the answer for a destination that was noted. */
  lemma {:induction false} AnnouncedFrom(env: Env, ps: seq<Prefix>, last: Option<Prefix>, s: Sent)
    requires EnvOk(env) && AllMasked(ps) && s in Announced(env, ps, last)
    ensures exists q :: q in ps && Masked(q) && s in Answer(env, q)
    decreases |ps|
  {
    hide Answer, Masked;
    if last == Some(ps[0]) {
      AnnouncedFrom(env, ps[1..], last, s);
    } else if s in Answer(env, ps[0]) {
      assert Masked(ps[0]);
    } else {
      AnnouncedFrom(env, ps[1..], NextLast(env, ps[0], last), s);
    }
  }

  lemma {:induction false} DueFrom(env: Env, ps: seq<Prefix>, p: Prefix, s: Sent)
    requires EnvOk(env) && AllMasked(ps) && s in Due(env, ps) && IsFor(s, p)
    ensures Masked(p) && s in Answer(env, p)
  {
    SortedMasked(env, ps);
    AnnouncedFrom(env, SortUpdates(env, ps), None, s);
    var q :| q in SortUpdates(env, ps) && Masked(q) && s in Answer(env, q);
    AnswerFor(env, q, s);
  }

  lemma {:induction false} AnswerFor(env: Env, q: Prefix, s: Sent)
    requires Masked(q) && LookupOk(env.table(q)) && s in Answer(env, q)
    ensures IsFor(s, q)
  {
  }

  /** What the update carries beside what the network knows about. */
  predicate Dressed(env: Env, s: Sent, p: Prefix) {
    && s.snd == env.snd && s.m.SendUpdate?
    && s.m.channels == if !env.diversity then None
                       else match env.table(p)
                         case Xroute(_) => Some([])
                         case Installed(_, _, _, channels, _) => Some(channels)
                         case NoRoute => None
  }

  /**
   Whatever is pending, each update that goes out for `p` is the message that the corresponding step of the network puts
   on the channel; where there is nothing to announce, it is a retraction under the own router-id and seqno.
   */
  lemma {:induction false} UpdatesAreSteps(env: Env, ps: seq<Prefix>, p: Prefix, s: Sent, n: Net.Net, u: Net.NodeId,
                                           flavour: Net.Flavour, name: Route.RouterId -> Wire.Id, now: int)
    requires EnvOk(env) && AllMasked(ps) && s in Due(env, ps) && IsFor(s, p)
    requires u in n.nodes && Views(env, p, n.nodes[u], flavour, name)
    requires forall r | r in n.nodes[u].dest.chain :: r.src in n.nodes[u].dest.sources
    ensures Dressed(env, s, p)
    ensures
      match StepFor(env, p, u, flavour, now)
      case Some(st) =>
        && Net.Enabled(n, st)
        && exists id :: s.m.id == name(id) && Net.Apply(n, st).chan == n.chan + {Net.Msg(u, id, s.m.seqno, s.m.metric)}
      case None => s.m.id == name(n.nodes[u].id) && s.m.seqno == n.nodes[u].seqno && s.m.metric == INFINITY
  {
    DueFrom(env, ps, p, s);
    var node := n.nodes[u];
    match env.table(p)
    case Xroute(metric) =>
      var st := Net.Originate(u, Plus(metric, env.filter(env.myid, p)));
      assert Net.Apply(n, st).chan == n.chan + {Net.Msg(u, node.id, s.m.seqno, s.m.metric)};
    case Installed(id, _, _, _, _) =>
      var st := Net.Advertise(u, flavour, env.filter(id, p), now);
      var r := node.dest.chain[0];
      assert r in node.dest.chain;
      assert Net.Apply(n, st).chan == n.chan + {Net.Msg(u, r.src, s.m.seqno, s.m.metric)};
    case NoRoute =>
  }

  /** A destination that was noted is answered, unless the interface is down, split horizon hides it, a filter forbids
      it, or it is an IPv4 one and the interface has no IPv4 address. */
  lemma {:induction false} AnsweredIff(env: Env, ps: seq<Prefix>, p: Prefix)
    requires EnvOk(env) && AllMasked(ps) && p in ps
    ensures
      var t := env.table(p);
      CountFor(Due(env, ps), p) > 0 <==>
        && env.up && !(t.Installed? && t.hidden) && !(IsV4(p) && env.snd.ipv4.None?)
        && env.filter(if t.Installed? then t.id else env.myid, p) < INFINITY
  {
    DueCount(env, ps, p);
    assert multiset(ps)[p] > 0;
    assert LookupOk(env.table(p));
    var n: nat := if Remembered(env, p) then 1 else multiset(ps)[p];
    assert |Answer(env, p)| == 0 || |Answer(env, p)| == 1;
    assert |Answer(env, p)| * n > 0 <==> |Answer(env, p)| == 1;
  }
}
