/** The order in which pending updates are sent, and that it makes a comparison with the last one enough. */
module BabelOrder {
  import opened Basics
  import opened Address
  import opened BabelPrefix
  import opened BabelDecode
  import opened BabelRoundTrip
  import opened BabelSend

  // ---- The comparison

  /** The router-id under which a destination is sorted. */
  function IdFor(env: Env, p: Prefix): Id {
    match env.table(p)
    case Installed(id, _, _, _, _) => id
    case _ => env.myid
  }

  predicate OwnsId(env: Env, p: Prefix) { !IsV4(p) && p.plen == 128 && p.addr[8..] == IdFor(env, p) }

  /** compare_buffered_updates: by router-id, IPv6 first, the router's own address first, longer prefixes first. */
  function CompareUpdates(env: Env, p: Prefix, q: Prefix): int {
    var rc := Memcmp(IdFor(env, p), IdFor(env, q));
    if rc != 0 then rc
    else if IsV4(p) != IsV4(q) then (if IsV4(p) then 1 else -1)
    else if OwnsId(env, p) != OwnsId(env, q) then (if OwnsId(env, p) then -1 else 1)
    else if p.plen < q.plen then 1
    else if p.plen > q.plen then -1
    else Memcmp(p.addr, q.addr)
  }

  /** The bytes whose order that is. */
  function SortKey(env: Env, p: Prefix): (k: seq<u8>)
    ensures |k| == 27
  {
    IdFor(env, p) + [if IsV4(p) then 1 else 0, if OwnsId(env, p) then 0 else 1, 255 - p.plen] + p.addr
  }

  lemma {:induction false} MemcmpConcat(a: seq<u8>, b: seq<u8>, c: seq<u8>, d: seq<u8>)
    requires |a| == |b| && |c| == |d|
    ensures Memcmp(a + c, b + d) == if Memcmp(a, b) != 0 then Memcmp(a, b) else Memcmp(c, d)
  {
    if |a| == 0 {
      assert a + c == c && b + d == d;
    } else {
      assert (a + c)[1..] == a[1..] + c && (b + d)[1..] == b[1..] + d;
      MemcmpConcat(a[1..], b[1..], c, d);
    }
  }

  lemma {:induction false} MemcmpThree(x: seq<u8>, y: seq<u8>)
    requires |x| == |y| == 3
    ensures Memcmp(x, y) == if x[0] != y[0] then (if x[0] < y[0] then -1 else 1)
                            else if x[1] != y[1] then (if x[1] < y[1] then -1 else 1)
                            else if x[2] != y[2] then (if x[2] < y[2] then -1 else 1) else 0
  {
    var x1, y1 := x[1..], y[1..];
    var x2, y2 := x1[1..], y1[1..];
    assert x1[0] == x[1] && y1[0] == y[1] && x2[0] == x[2] && y2[0] == y[2];
    assert x2[1..] == [] && y2[1..] == [];
    assert Memcmp(x2[1..], y2[1..]) == 0;
    assert Memcmp(x2, y2) == if x[2] != y[2] then (if x[2] < y[2] then -1 else 1) else 0;
  }

  /** The cascade of comparisons is one comparison of bytes, so it is a total order. */
  lemma {:induction false} CompareIsMemcmp(env: Env, p: Prefix, q: Prefix)
    ensures CompareUpdates(env, p, q) == Memcmp(SortKey(env, p), SortKey(env, q))
  {
    hide Memcmp;
    var a, b := IdFor(env, p), IdFor(env, q);
    var x: seq<u8> := [if IsV4(p) then 1 else 0, if OwnsId(env, p) then 0 else 1, 255 - p.plen];
    var y: seq<u8> := [if IsV4(q) then 1 else 0, if OwnsId(env, q) then 0 else 1, 255 - q.plen];
    MemcmpConcat(a + x, b + y, p.addr, q.addr);
    MemcmpConcat(a, b, x, y);
    MemcmpThree(x, y);
  }

  lemma {:induction false} CompareZeroIff(env: Env, p: Prefix, q: Prefix)
    ensures CompareUpdates(env, p, q) == 0 <==> p == q
    ensures CompareUpdates(env, p, q) == -CompareUpdates(env, q, p)
  {
    hide SortKey, CompareUpdates;
    CompareIsMemcmp(env, p, q);
    CompareIsMemcmp(env, q, p);
    MemcmpOrder(SortKey(env, p), SortKey(env, q));
    KeyInjective(env, p, q);
  }

  lemma {:induction false} KeyInjective(env: Env, p: Prefix, q: Prefix)
    ensures SortKey(env, p) == SortKey(env, q) ==> p == q
  {
    var k, l := SortKey(env, p), SortKey(env, q);
    assert k[10] == 255 - p.plen && l[10] == 255 - q.plen && k[11..] == p.addr && l[11..] == q.addr;
  }

  lemma {:induction false} CompareTransitively(env: Env, p: Prefix, q: Prefix, r: Prefix)
    requires CompareUpdates(env, p, q) <= 0 && CompareUpdates(env, q, r) <= 0
    ensures CompareUpdates(env, p, r) <= 0
  {
    hide SortKey, CompareUpdates;
    CompareZeroIff(env, p, q);
    CompareZeroIff(env, q, r);
    CompareIsMemcmp(env, p, q);
    CompareIsMemcmp(env, q, r);
    CompareIsMemcmp(env, p, r);
    if p != q && q != r {
      MemcmpTransitive(SortKey(env, p), SortKey(env, q), SortKey(env, r));
    }
  }

  // ---- Sorting

  function InsertUpdate(env: Env, p: Prefix, s: seq<Prefix>): seq<Prefix> {
    if |s| == 0 || CompareUpdates(env, p, s[0]) <= 0 then [p] + s else [s[0]] + InsertUpdate(env, p, s[1..])
  }

  function SortUpdates(env: Env, s: seq<Prefix>): seq<Prefix> {
    if |s| == 0 then [] else InsertUpdate(env, s[0], SortUpdates(env, s[1..]))
  }

  ghost predicate Ascending(env: Env, s: seq<Prefix>) {
    forall i, j | 0 <= i < j < |s| :: CompareUpdates(env, s[i], s[j]) <= 0
  }

  lemma {:induction false} InsertMembers(env: Env, p: Prefix, s: seq<Prefix>)
    ensures multiset(InsertUpdate(env, p, s)) == multiset(s) + multiset{p}
  {
    hide CompareUpdates;
    if |s| > 0 && !(CompareUpdates(env, p, s[0]) <= 0) {
      InsertMembers(env, p, s[1..]);
      assert s == [s[0]] + s[1..];
    }
  }

  lemma {:induction false} InsertAscending(env: Env, p: Prefix, s: seq<Prefix>)
    requires Ascending(env, s)
    ensures Ascending(env, InsertUpdate(env, p, s))
  {
    hide CompareUpdates;
    if |s| == 0 {
    } else if CompareUpdates(env, p, s[0]) <= 0 {
      var t := [p] + s;
      forall j | 1 <= j < |t| ensures CompareUpdates(env, p, t[j]) <= 0 {
        if j > 1 {
          assert CompareUpdates(env, s[0], s[j - 1]) <= 0;
          CompareTransitively(env, p, s[0], s[j - 1]);
        }
      }
    } else {
      InsertAscending(env, p, s[1..]);
      InsertMembers(env, p, s[1..]);
      CompareZeroIff(env, p, s[0]);
      var t := InsertUpdate(env, p, s[1..]);
      forall j | 0 <= j < |t| ensures CompareUpdates(env, s[0], t[j]) <= 0 {
        assert t[j] in multiset(t);
        if t[j] != p {
          assert t[j] in s[1..];
        }
      }
    }
  }

  /** The sorted list holds the same destinations, as often, in ascending order. */
  lemma {:induction false} SortUpdatesOk(env: Env, s: seq<Prefix>)
    ensures multiset(SortUpdates(env, s)) == multiset(s) && Ascending(env, SortUpdates(env, s))
  {
    hide CompareUpdates, InsertUpdate;
    if |s| > 0 {
      SortUpdatesOk(env, s[1..]);
      InsertMembers(env, s[0], SortUpdates(env, s[1..]));
      InsertAscending(env, s[0], SortUpdates(env, s[1..]));
      assert s == [s[0]] + s[1..];
    }
  }

  lemma {:induction false} SortedMasked(env: Env, s: seq<Prefix>)
    requires AllMasked(s)
    ensures AllMasked(SortUpdates(env, s))
  {
    SortUpdatesOk(env, s);
    forall p | p in SortUpdates(env, s) ensures Masked(p) {
      assert p in multiset(SortUpdates(env, s));
    }
  }

  lemma {:induction false} LeastFirst(env: Env, s: seq<Prefix>, p: Prefix)
    requires Ascending(env, s) && p in multiset(s)
    ensures |s| > 0 && CompareUpdates(env, s[0], p) <= 0
  {
    hide CompareUpdates;
    var i :| 0 <= i < |s| && s[i] == p;
    CompareZeroIff(env, p, p);
  }

  lemma {:induction false} TailMultiset(s: seq<Prefix>)
    requires |s| > 0
    ensures multiset(s[1..]) == multiset(s) - multiset{s[0]}
  {
    assert s == [s[0]] + s[1..];
  }

  lemma {:induction false} AscendingTail(env: Env, s: seq<Prefix>)
    requires Ascending(env, s) && |s| > 0
    ensures Ascending(env, s[1..])
  {
    hide CompareUpdates;
    forall i, j | 0 <= i < j < |s| - 1 ensures CompareUpdates(env, s[1..][i], s[1..][j]) <= 0 {
      assert CompareUpdates(env, s[i + 1], s[j + 1]) <= 0;
    }
  }

  /** There is only one way to sort, so any sorting algorithm gives this list. */
  lemma {:induction false} SortedUnique(env: Env, s: seq<Prefix>, t: seq<Prefix>)
    requires Ascending(env, s) && Ascending(env, t) && multiset(s) == multiset(t)
    ensures s == t
  {
    hide CompareUpdates, Ascending;
    assert |s| == |multiset(s)| == |multiset(t)| == |t|;
    if |s| > 0 {
      assert s[0] in multiset(s) && t[0] in multiset(t);
      AscendingTail(env, s);
      AscendingTail(env, t);
      LeastFirst(env, t, s[0]);
      LeastFirst(env, s, t[0]);
      CompareZeroIff(env, s[0], t[0]);
      TailMultiset(s);
      TailMultiset(t);
      SortedUnique(env, s[1..], t[1..]);
      assert s == [s[0]] + s[1..] && t == [t[0]] + t[1..];
    }
  }

  // ---- Nothing is announced twice

  /** What is sent for a list of pending destinations. */
  ghost function Due(env: Env, ps: seq<Prefix>): seq<Sent>
    requires EnvOk(env) && AllMasked(ps)
  {
    SortedMasked(env, ps);
    Announced(env, SortUpdates(env, ps), None)
  }

  predicate IsFor(s: Sent, p: Prefix) { s.m.SendUpdate? && s.m.prefix == p }

  /** How many of these updates are for `p`. */
  function CountFor(log: seq<Sent>, p: Prefix): nat {
    if |log| == 0 then 0 else (if IsFor(log[0], p) then 1 else 0) + CountFor(log[1..], p)
  }

  lemma {:induction false} CountConcat(a: seq<Sent>, b: seq<Sent>, p: Prefix)
    ensures CountFor(a + b, p) == CountFor(a, p) + CountFor(b, p)
  {
    hide IsFor;
    if |a| == 0 {
      assert a + b == b;
    } else {
      assert (a + b)[1..] == a[1..] + b;
      CountConcat(a[1..], b, p);
    }
  }

  lemma {:induction false} AnswerCount(env: Env, q: Prefix, p: Prefix)
    requires Masked(q) && LookupOk(env.table(q))
    ensures CountFor(Answer(env, q), p) == if q == p then |Answer(env, q)| else 0
    ensures |Answer(env, q)| <= 1
  {
    hide Masked;
    var a := Answer(env, q);
    if |a| == 1 {
      assert a[1..] == [];
    }
  }

  function Occurrences(ps: seq<Prefix>, p: Prefix): nat {
    if |ps| == 0 then 0 else (if ps[0] == p then 1 else 0) + Occurrences(ps[1..], p)
  }

  lemma {:induction false} OccurrencesIs(ps: seq<Prefix>, p: Prefix)
    ensures Occurrences(ps, p) == multiset(ps)[p]
  {
    if |ps| > 0 {
      OccurrencesIs(ps[1..], p);
      assert ps == [ps[0]] + ps[1..];
    }
  }

  /** Whether sending for `p` is remembered. */
  predicate Remembered(env: Env, p: Prefix) {
    env.table(p).Xroute? || (env.table(p).Installed? && !env.table(p).hidden)
  }

  /** All copies of the last destination come first, if there are any left. */
  ghost predicate CopiesFirst(ps: seq<Prefix>, last: Option<Prefix>) {
    last.Some? ==> forall i | 0 <= i < |ps| && ps[i] == last.value :: forall j | 0 <= j < i :: ps[j] == last.value
  }

  lemma {:induction false} AscendingCopies(env: Env, ps: seq<Prefix>, last: Prefix)
    requires |ps| > 0 && Ascending(env, ps) && ps[0] == last
    ensures CopiesFirst(ps[1..], Some(last)) && Ascending(env, ps[1..])
  {
    hide CompareUpdates;
    var rest := ps[1..];
    forall i, j | 0 <= j < i < |rest| && rest[i] == last ensures rest[j] == last {
      assert CompareUpdates(env, ps[0], ps[j + 1]) <= 0 && CompareUpdates(env, ps[j + 1], ps[i + 1]) <= 0;
      CompareZeroIff(env, last, rest[j]);
    }
  }

  /** In an ascending list, a remembered destination is answered once and any other as often as it is listed. */
  lemma {:induction false} AnnouncedCount(env: Env, ps: seq<Prefix>, last: Option<Prefix>, p: Prefix)
    requires EnvOk(env) && AllMasked(ps) && Ascending(env, ps)
    requires last.Some? ==> Remembered(env, last.value) && CopiesFirst(ps, last)
    ensures CountFor(Announced(env, ps, last), p) ==
            |Answered(env, p)| * (if !Remembered(env, p) then Occurrences(ps, p)
                                  else if p in ps && last != Some(p) then 1 else 0)
    decreases |ps|
  {
    if |ps| > 0 {
      var q, rest := ps[0], ps[1..];
      assert ps == [q] + rest && q in ps;
      if last == Some(q) {
        AscendingCopies(env, ps, q);
        AnnouncedCount(env, rest, last, p);
      } else {
        AnnouncedFirst(env, ps, last, p);
      }
    }
  }

  function Answered(env: Env, p: Prefix): seq<Sent>
    requires LookupOk(env.table(p))
  {
    if Masked(p) then Answer(env, p) else []
  }

  lemma {:induction false} AnnouncedFirst(env: Env, ps: seq<Prefix>, last: Option<Prefix>, p: Prefix)
    requires EnvOk(env) && AllMasked(ps) && Ascending(env, ps) && |ps| > 0 && last != Some(ps[0])
    requires last.Some? ==> Remembered(env, last.value) && CopiesFirst(ps, last)
    ensures CountFor(Announced(env, ps, last), p) ==
            |Answered(env, p)| * (if !Remembered(env, p) then Occurrences(ps, p)
                                  else if p in ps && last != Some(p) then 1 else 0)
    decreases |ps|, 0
  {
    var q, rest := ps[0], ps[1..];
    var next := NextLast(env, q, last);
    AscendingCopies(env, ps, q);
    NotListed(ps, last);
    AnnouncedCount(env, rest, next, p);
    AnswerCount(env, q, p);
    CountConcat(Answer(env, q), Announced(env, rest, next), p);
  }

  lemma {:induction false} NotListed(ps: seq<Prefix>, last: Option<Prefix>)
    requires |ps| > 0 && last != Some(ps[0]) && CopiesFirst(ps, last)
    ensures last.Some? ==> last.value !in ps && CopiesFirst(ps[1..], last)
  {
  }

  /** One flush announces a destination with a route once, however often it was noted; a retraction goes out every
      time it was noted. */
  lemma {:induction false} DueCount(env: Env, ps: seq<Prefix>, p: Prefix)
    requires EnvOk(env) && AllMasked(ps) && p in ps
    ensures CountFor(Due(env, ps), p) == |Answer(env, p)| * (if Remembered(env, p) then 1 else multiset(ps)[p])
  {
    SortUpdatesOk(env, ps);
    SortedMasked(env, ps);
    assert p in multiset(ps);
    AnnouncedCount(env, SortUpdates(env, ps), None, p);
    OccurrencesIs(SortUpdates(env, ps), p);
  }
}
