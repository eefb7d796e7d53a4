/** The output queue of a BFD control connection: messages reach the client whole and one after the other. */
module ControlQueue {
  import opened Basics

  type Message = m: seq<u8> | |m| > 0 witness [0]

  /** A queued message and how far it has been written. */
  class Buffer {
    const msg: Message
    var pos: nat
    var left: nat

    constructor (m: Message)
      ensures msg == m && pos == 0 && left == |m|
    {
      msg, pos, left := m, 0, |m|;
    }
  }

  function Flat(ms: seq<Message>): seq<u8> {
    if |ms| == 0 then [] else Flat(ms[..|ms| - 1]) + ms[|ms| - 1]
  }

  lemma {:induction false} FlatMore(ms: seq<Message>, m: Message)
    ensures Flat(ms + [m]) == Flat(ms) + m
  {
    assert (ms + [m])[..|ms|] == ms;
  }

  lemma {:induction false} FlatConcat(a: seq<Message>, b: seq<Message>)
    ensures Flat(a + b) == Flat(a) + Flat(b)
  {
    if |b| == 0 {
      assert a + b == a;
    } else {
      var c := b[..|b| - 1];
      FlatConcat(a, c);
      assert a + b == (a + c) + [b[|b| - 1]];
      FlatMore(a + c, b[|b| - 1]);
    }
  }

  /** The order of the queue after a message is put first: behind one that has started. */
  function PutFirst(ms: seq<Message>, started: bool, m: Message): seq<Message> {
    if started && |ms| > 0 then [ms[0], m] + ms[1..] else [m] + ms
  }

  function Messages(bs: seq<Buffer>): (ms: seq<Message>)
    ensures |ms| == |bs| && forall i | 0 <= i < |bs| :: ms[i] == bs[i].msg
  {
    seq(|bs|, i requires 0 <= i < |bs| => bs[i].msg)
  }

  predicate Distinct(bs: seq<Buffer>) { forall i, j | 0 <= i < j < |bs| :: bs[i] != bs[j] }

  /** The two counters of a buffer tell what is left of it. */
  ghost predicate Counts(b: Buffer)
    reads b
  {
    b.left > 0 && b.pos + b.left == |b.msg|
  }

  /** Not started. */
  ghost predicate Waits(b: Buffer)
    reads b
  {
    Counts(b) && b.pos == 0
  }

  ghost predicate AllWait(bs: seq<Buffer>)
    reads bs
  {
    forall b | b in bs :: Waits(b)
  }

  function HeadOf(ms: seq<Message>): seq<u8> { if |ms| == 0 then [] else ms[0] }

  /** The bytes written are those of the messages done and the first `n` of the head of the queue; nothing is lost. */
  ghost predicate Told(written: seq<u8>, done: seq<Message>, queued: seq<Message>, n: nat, all: multiset<Message>)
    requires n <= |HeadOf(queued)|
  {
    written == Flat(done) + HeadOf(queued)[..n] && all == multiset(done) + multiset(queued)
  }

  lemma {:induction false} MessagesMore(bs: seq<Buffer>, b: Buffer)
    ensures Messages(bs + [b]) == Messages(bs) + [b.msg]
  {
  }

  lemma {:induction false} ToldMore(written: seq<u8>, done: seq<Message>, q: seq<Message>, n: nat,
                                    all: multiset<Message>, m: Message)
    requires n <= |HeadOf(q)| && Told(written, done, q, n, all)
    ensures n <= |HeadOf(q + [m])| && Told(written, done, q + [m], n, all + multiset{m})
  {
    if |q| > 0 {
      assert (q + [m])[0] == q[0];
    }
  }

  /** Moving the last message first, or behind the head if that has started, leaves what is told the same. */
  lemma {:induction false} ToldMoved(written: seq<u8>, done: seq<Message>, q: seq<Message>, n: nat,
                                     all: multiset<Message>, m: Message)
    requires |q| > 0 && n <= |HeadOf(q)| && Told(written, done, q + [m], n, all)
    ensures var p := PutFirst(q, n > 0, m); n <= |HeadOf(p)| && Told(written, done, p, n, all)
  {
    assert q == [q[0]] + q[1..];
    assert (q + [m])[0] == q[0];
    assert m[..0] == q[0][..0];
  }

  lemma {:induction false} PutFirstAlone(b: Buffer)
    ensures Messages([b]) == PutFirst(Messages([]), false, b.msg)
  {
  }

  class Socket {
    var queue: seq<Buffer>
    var bout: Buffer?
    /** Whether a write is scheduled. */
    var armed: bool
    var closed: bool
    /** The bytes the client got. */
    var written: seq<u8>
    ghost var done: seq<Message>
    /** All messages ever queued. */
    ghost var all: multiset<Message>

    /** How much of the head has been written. */
    ghost function Progress(): nat
      reads `queue, queue
    {
      if |queue| == 0 then 0 else queue[0].pos
    }

    /** The next to be written is the head, and only it may have started. */
    ghost predicate Ordered()
      reads `queue, `bout, `armed, queue
    {
      && Distinct(queue) && (|queue| > 0 ==> Counts(queue[0]) && AllWait(queue[1..]))
      && bout == (if |queue| == 0 then null else queue[0]) && (armed <==> |queue| > 0)
    }

    /** What is written is all messages done and the start of the head; every message queued is done or waiting. */
    ghost predicate Valid()
      reads this, queue
    {
      && Ordered()
      && Progress() <= |HeadOf(Messages(queue))| && Told(written, done, Messages(queue), Progress(), all)
    }

    constructor ()
      ensures Valid() && queue == [] && written == [] && done == [] && !closed
    {
      queue, bout, armed, closed, written := [], null, false, false, [];
      done, all := [], multiset{};
    }

    /** Puts a buffer last. */
    method Append(b: Buffer)
      requires Ordered() && b !in queue && Waits(b)
      modifies `queue, `bout, `armed
      ensures Ordered() && queue == old(queue) + [b] && Progress() == old(Progress())
    {
      if |queue| > 0 {
        assert (queue + [b])[1..] == queue[1..] + [b];
      }
      queue := queue + [b];
      if bout == null {
        bout := b;
        armed := true;
      }
    }

    /** control_queue_enqueue. */
    method Enqueue(m: Message) returns (b: Buffer)
      requires Valid()
      modifies `queue, `bout, `armed, `all
      ensures Valid() && b.msg == m && b !in old(queue) && queue == old(queue) + [b] && all == old(all) + multiset{m}
      ensures Progress() == old(Progress())
    {
      hide Ordered, Told, HeadOf, Messages, Progress;
      b := new Buffer(m);
      MessagesMore(queue, b);
      ToldMore(written, done, Messages(queue), Progress(), all, m);
      Append(b);
      all := all + multiset{m};
    }

    /** control_queue_dequeue: the head is done, the next one takes its place. */
    method Dequeue()
      requires |queue| > 0
      modifies `queue, `bout, `armed
      ensures queue == old(queue[1..]) && bout == (if |queue| == 0 then null else queue[0]) && (armed <==> |queue| > 0)
    {
      queue := queue[1..];
      if |queue| == 0 {
        bout, armed := null, false;
      } else {
        bout, armed := queue[0], true;
      }
    }

    /** control_queue_enqueue_first: the last is moved to the front, behind a head that has started. */
    method EnqueueFirst(m: Message)
      requires Valid()
      modifies `queue, `bout, `armed, `all
      ensures Valid() && all == old(all) + multiset{m}
      ensures Messages(queue) == PutFirst(old(Messages(queue)), old(Progress()) > 0, m)
      ensures old(Progress()) > 0 ==> queue[0] == old(queue[0]) && Progress() == old(Progress())
    {
      hide Ordered, Told, Messages, PutFirst, HeadOf;
      ghost var was := queue;
      var b := Enqueue(m);
      if queue[0] == b {
        assert was == [] && queue == [b];
        PutFirstAlone(b);
        return;
      }
      Promote(b, was);
    }

    method Promote(b: Buffer, ghost was: seq<Buffer>)
      requires Valid() && |was| > 0 && queue == was + [b]
      modifies `queue, `bout
      ensures Valid() && Messages(queue) == PutFirst(Messages(was), old(Progress()) > 0, b.msg)
      ensures Progress() == old(Progress()) && (Progress() > 0 ==> |queue| > 0 && queue[0] == was[0])
    {
      hide Ordered, Told, Messages, PutFirst, HeadOf, Progress;
      ProgressFits();
      MovedCount(was, b);
      ToldMoved(written, done, Messages(was), Progress(), all, b.msg);
      assert queue[..|queue| - 1] == was;
      MoveFirst(b);
    }

    lemma {:induction false} ProgressFits()
      requires Valid() && |queue| > 1
      ensures Progress() <= |HeadOf(Messages(queue[..|queue| - 1]))|
    {
    }

    method MoveFirst(b: Buffer)
      requires Ordered() && |queue| > 1 && queue[|queue| - 1] == b
      modifies `queue, `bout
      ensures Ordered() && Progress() == old(Progress())
      ensures var rest := old(queue)[..old(|queue|) - 1];
              queue == if old(Progress()) > 0 then [rest[0], b] + rest[1..] else [b] + rest
    {
      var rest := queue[..|queue| - 1];
      assert queue == rest + [b] && queue[1..] == rest[1..] + [b];
      assert Waits(b) && AllWait(rest[1..]);
      if queue[0].pos != 0 {
        queue := [rest[0], b] + rest[1..];
        assert queue[1..] == [b] + rest[1..];
      } else {
        assert Waits(rest[0]) && rest == [rest[0]] + rest[1..];
        queue := [b] + rest;
        bout := b;
        assert queue[1..] == rest;
      }
    }

    /** control_write, when the socket takes `n` bytes, would block, or fails. */
    method Write(n: int, retry: bool)
      requires Valid() && armed && n <= bout.left
      modifies this, bout
      ensures n > 0 ==> Valid() && all == old(all) && closed == old(closed)
      ensures n > 0 ==> written == old(written) + old(bout.msg[bout.pos..bout.pos + n])
      ensures n > 0 ==> if n == old(bout.left) then done == old(done) + [old(bout.msg)] && queue == old(queue[1..])
                        else done == old(done) && queue == old(queue) && Progress() == old(Progress()) + n
      ensures n < 0 && retry ==> Valid() && unchanged(this) && unchanged(bout)
      ensures n == 0 || (n < 0 && !retry) ==> closed && written == old(written)
    {
      if n == 0 {
        closed := true;
        return;
      }
      if n < 0 {
        if !retry {
          closed := true;
        }
        return;
      }
      Took(n);
    }

    method Took(n: nat)
      requires Valid() && |queue| > 0 && 0 < n <= bout.left
      modifies `queue, `bout, `armed, `written, `done, bout
      ensures Valid() && written == old(written) + old(bout.msg[bout.pos..bout.pos + n])
      ensures if n == old(bout.left) then done == old(done) + [old(bout.msg)] && queue == old(queue[1..])
              else done == old(done) && queue == old(queue) && Progress() == old(Progress()) + n
    {
      hide Told;
      ghost var q, start := Messages(queue), bout.pos;
      ToldOn(written, done, q, start, all, n);
      Advance(n);
      if bout.left == 0 {
        NextMessage();
      }
    }

    /** The head is written. */
    method NextMessage()
      requires |queue| > 0 && Distinct(queue) && AllWait(queue[1..]) && bout == queue[0]
      requires Told(written, done, Messages(queue), |bout.msg|, all)
      modifies `queue, `bout, `armed, `done
      ensures Valid() && done == old(done) + [old(bout.msg)] && queue == old(queue[1..])
    {
      hide Told;
      ghost var rest := queue[1..];
      ToldDone(written, done, Messages(queue), all);
      assert Messages(rest) == Messages(queue)[1..];
      assert Distinct(rest);
      if |rest| > 0 {
        assert rest[0] in rest && Waits(rest[0]);
        assert AllWait(rest[1..]);
      }
      done := done + [bout.msg];
      Dequeue();
    }

    /** The socket took `n` more bytes of the head. */
    method Advance(n: nat)
      requires Ordered() && |queue| > 0 && 0 < n <= bout.left
      modifies `written, bout
      ensures written == old(written) + old(bout.msg[bout.pos..bout.pos + n])
      ensures bout.pos == old(bout.pos) + n && bout.left == old(bout.left) - n
      ensures AllWait(queue[1..])
    {
      written := written + bout.msg[bout.pos..bout.pos + n];
      bout.pos, bout.left := bout.pos + n, bout.left - n;
      forall b | b in queue[1..] ensures Waits(b) {
        var i :| 0 <= i < |queue[1..]| && queue[1..][i] == b;
        assert queue[0] != queue[i + 1];
      }
    }
  }

  lemma {:induction false} ToldOn(written: seq<u8>, done: seq<Message>, q: seq<Message>, n: nat,
                                  all: multiset<Message>, more: nat)
    requires |q| > 0 && n + more <= |q[0]| && Told(written, done, q, n, all)
    ensures Told(written + q[0][n..n + more], done, q, n + more, all)
  {
    assert q[0][..n + more] == q[0][..n] + q[0][n..n + more];
  }

  lemma {:induction false} ToldDone(written: seq<u8>, done: seq<Message>, q: seq<Message>, all: multiset<Message>)
    requires |q| > 0 && Told(written, done, q, |q[0]|, all)
    ensures Told(written, done + [q[0]], q[1..], 0, all)
  {
    FlatMore(done, q[0]);
    assert q[0][..|q[0]|] == q[0] && q == [q[0]] + q[1..];
    assert HeadOf(q[1..])[..0] == [];
  }

  lemma {:induction false} MovedCount(rest: seq<Buffer>, b: Buffer)
    requires |rest| > 0
    ensures Messages(rest + [b]) == Messages(rest) + [b.msg]
    ensures Messages([b] + rest) == PutFirst(Messages(rest), false, b.msg)
    ensures Messages([rest[0], b] + rest[1..]) == PutFirst(Messages(rest), true, b.msg)
  {
    var ms := Messages(rest);
    assert Messages([rest[0], b] + rest[1..]) == [ms[0], b.msg] + ms[1..];
  }

  /** The client has a beginning of the concatenation of whole messages, in queue order, none twice. */
  lemma {:induction false} WholeMessages(s: Socket)
    requires s.Valid()
    ensures s.written <= Flat(s.done + Messages(s.queue))
    ensures s.all == multiset(s.done + Messages(s.queue))
  {
    var ms := Messages(s.queue);
    FlatConcat(s.done, ms);
    if |ms| > 0 {
      assert ms == [ms[0]] + ms[1..];
      FlatConcat([ms[0]], ms[1..]);
      FlatMore([], ms[0]);
      assert [] + [ms[0]] == [ms[0]];
      assert ms[0][..s.queue[0].pos] <= ms[0];
    }
  }
}
