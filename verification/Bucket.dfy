/** The token bucket that bounds how many packets an interface sends. */
module Bucket {

  const TOKENS_MAX := 200
  const TOKENS_PER_SEC := 40

  datatype State = State(tokens: nat, time: int)

  function Refilled(s: State, now: int): State {
    if s.tokens > 0 then s
    else if now <= s.time then State(0, now)
    else
      var tokens := (now - s.time) * TOKENS_PER_SEC;
      State(if tokens < TOKENS_MAX then tokens else TOKENS_MAX, now)
  }

  predicate Grants(s: State, now: int) { Refilled(s, now).tokens > 0 }

  function After(s: State, now: int): State {
    var r := Refilled(s, now);
    if r.tokens > 0 then r.(tokens := r.tokens - 1) else r
  }

  // ---- Whole runs

  /** How many of the attempts at the given times are granted. */
  function Granted(s: State, times: seq<int>): nat
    decreases |times|
  {
    if |times| == 0 then 0 else (if Grants(s, times[0]) then 1 else 0) + Granted(After(s, times[0]), times[1..])
  }

  predicate Monotone(times: seq<int>) { forall i, j | 0 <= i < j < |times| :: times[i] <= times[j] }

  lemma {:induction false} GrantedBound(s: State, times: seq<int>)
    requires Monotone(times) && |times| > 0 && s.time <= times[0]
    ensures Granted(s, times) <= s.tokens + TOKENS_PER_SEC * (times[|times| - 1] - s.time)
    decreases |times|
  {
    var s1, rest := After(s, times[0]), times[1..];
    if |rest| > 0 {
      GrantedBound(s1, rest);
    }
  }

  /** By any time, an interface created at `start` has sent no more than its first tokens and the rate allow. */
  lemma {:induction false} RateBound(start: int, times: seq<int>)
    requires Monotone(times) && |times| > 0 && start <= times[0]
    ensures Granted(State(TOKENS_MAX, start), times) <= TOKENS_MAX + TOKENS_PER_SEC * (times[|times| - 1] - start)
  {
    GrantedBound(State(TOKENS_MAX, start), times);
  }

  /** In any stretch of a run, at most two buckets more than the rate allows. */
  lemma {:induction false} WindowBound(s: State, times: seq<int>)
    requires Monotone(times) && |times| > 0 && s.time <= times[0] && s.tokens <= TOKENS_MAX
    ensures Granted(s, times) <= 2 * TOKENS_MAX + TOKENS_PER_SEC * (times[|times| - 1] - times[0])
    decreases |times|
  {
    WindowStep(s, times);
  }

  lemma {:induction false} WindowStep(s: State, times: seq<int>)
    requires Monotone(times) && |times| > 0 && s.time <= times[0]
    ensures Granted(s, times) <= s.tokens + TOKENS_MAX + TOKENS_PER_SEC * (times[|times| - 1] - times[0])
    decreases |times|
  {
    var s1, rest := After(s, times[0]), times[1..];
    if |rest| > 0 {
      if s.tokens == 0 {
        GrantedBound(s1, rest);
      } else {
        WindowStep(s1, rest);
      }
    }
  }

  /** An attempt a second or more after the bucket was found empty succeeds. */
  lemma {:induction false} GrantedAgain(s: State, now: int, later: int)
    requires !Grants(s, now) && later > now
    ensures Grants(After(s, now), later)
  {
  }

  /** `n` attempts at the same time. */
  function Burst(n: nat, now: int): (times: seq<int>)
    ensures |times| == n && forall i | 0 <= i < n :: times[i] == now
  {
    seq(n, _ => now)
  }

  lemma {:induction false} BurstSpends(tokens: nat, n: nat, now: int)
    ensures Granted(State(tokens, now), Burst(n, now)) == if n <= tokens then n else tokens
    decreases n
  {
    if n > 0 {
      assert Burst(n, now)[1..] == Burst(n - 1, now);
      BurstSpends(if tokens > 0 then tokens - 1 else 0, n - 1, now);
    }
  }

  /** Exactly how many of `n` attempts succeed after a bucket was found empty: 40 for every second since, up to 200. */
  lemma {:induction false} BurstGranted(s: State, now: int, later: int, n: nat)
    requires !Grants(s, now) && later >= now
    ensures
      var tokens := if 40 * (later - now) < 200 then 40 * (later - now) else 200;
      Granted(After(s, now), Burst(n, later)) == if n <= tokens then n else tokens
  {
    var tokens := if TOKENS_PER_SEC * (later - now) < TOKENS_MAX then TOKENS_PER_SEC * (later - now) else TOKENS_MAX;
    assert After(s, now) == State(0, now) && Refilled(State(0, now), later) == State(tokens, later);
    BurstSpends(tokens, n, later);
    if n > 0 {
      assert Granted(State(0, now), Burst(n, later)) == Granted(State(tokens, later), Burst(n, later));
    }
  }

  class TokenBucket {
    var tokens: nat
    var time: int
    const start: int
    ghost var sent: nat

    /** Tokens spent and left do not exceed what time has brought. */
    ghost predicate Valid()
      reads this
    {
      tokens <= TOKENS_MAX && sent + tokens <= TOKENS_MAX + TOKENS_PER_SEC * (time - start)
    }

    constructor (now: int)
      ensures Valid() && sent == 0 && start == now && time == now
    {
      tokens, time, start, sent := TOKENS_MAX, now, now, 0;
    }

    /** check_bucket, before a packet is sent to all neighbours or to one. */
    method Check(now: int) returns (ok: bool)
      requires Valid() && time <= now
      modifies this
      ensures Valid() && time <= now
      ensures State(tokens, time) == After(State(old(tokens), old(time)), now)
      ensures ok == Grants(State(old(tokens), old(time)), now)
      ensures sent == old(sent) + (if ok then 1 else 0) && sent <= TOKENS_MAX + TOKENS_PER_SEC * (now - start)
    {
      if tokens == 0 {
        var seconds := now - time;
        if seconds > 0 {
          tokens := if TOKENS_MAX < seconds * TOKENS_PER_SEC then TOKENS_MAX else seconds * TOKENS_PER_SEC;
        }
        time := now;
      }
      ok := tokens > 0;
      if ok {
        tokens, sent := tokens - 1, sent + 1;
      }
    }
  }
}
