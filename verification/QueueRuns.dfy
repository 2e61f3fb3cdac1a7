/** Whole runs of one queue: clients push and pop, the TTL cleaner sweeps. */
module QueueRuns {
  import opened Wrappers
  import opened Queue

  datatype Op = Push(msg: Message) | Pop(now: int) | Sweep(now: int)

  datatype Output = Accepted | Rejected | Got(result: Option<Message>) | Swept(removed: nat)

  /** One operation, as the ring buffer's methods are proved to perform it. */
  function Step(q: seq<Message>, capacity: nat, op: Op): (seq<Message>, Output) {
    match op
    case Push(msg) => if |q| == capacity then (q, Rejected) else (q + [msg], Accepted)
    case Pop(now) => var (rest, r) := Queue.Pop(q, now); (rest, Got(r))
    case Sweep(now) => (Live(q, now), Swept(|q| - |Live(q, now)|))
  }

  function After(capacity: nat, ops: seq<Op>): seq<Message> {
    if ops == [] then [] else Step(After(capacity, ops[..|ops| - 1]), capacity, ops[|ops| - 1]).0
  }

  /** What the clients see, push by push and pop by pop. */
  function ClientOutputs(capacity: nat, ops: seq<Op>): seq<Output> {
    if ops == [] then []
    else
      var before, op := ops[..|ops| - 1], ops[|ops| - 1];
      ClientOutputs(capacity, before) + if op.Sweep? then [] else [Step(After(capacity, before), capacity, op).1]
  }

  function Unswept(ops: seq<Op>): seq<Op> {
    if ops == [] then []
    else Unswept(ops[..|ops| - 1]) + if ops[|ops| - 1].Sweep? then [] else [ops[|ops| - 1]]
  }

  function Clock(start: int, ops: seq<Op>): int {
    if ops == [] then start
    else if ops[|ops| - 1].Push? then Clock(start, ops[..|ops| - 1]) else ops[|ops| - 1].now
  }

  /** The clock readings of the run, from `start` on, never go back. */
  predicate Clocked(start: int, ops: seq<Op>) {
    ops != [] ==>
      && Clocked(start, ops[..|ops| - 1])
      && (!ops[|ops| - 1].Push? ==> Clock(start, ops[..|ops| - 1]) <= ops[|ops| - 1].now)
  }

  // ---------- sweep transparency ----------

  /** s is u with some messages missing, all expired at t. */
  predicate Thinned(u: seq<Message>, s: seq<Message>, t: int) {
    if u == [] then s == []
    else (s != [] && s[0] == u[0] && Thinned(u[1..], s[1..], t)) || (u[0].ExpiredAt(t) && Thinned(u[1..], s, t))
  }

  lemma {:induction false} ThinnedIsShorter(u: seq<Message>, s: seq<Message>, t: int)
    requires Thinned(u, s, t)
    ensures |s| <= |u|
  {
    if u != [] {
      if s != [] && s[0] == u[0] && Thinned(u[1..], s[1..], t) {
        ThinnedIsShorter(u[1..], s[1..], t);
      } else {
        ThinnedIsShorter(u[1..], s, t);
      }
    }
  }

  lemma {:induction false} ThinnedLater(u: seq<Message>, s: seq<Message>, t: int, t': int)
    requires Thinned(u, s, t) && t <= t'
    ensures Thinned(u, s, t')
  {
    if u != [] {
      if s != [] && s[0] == u[0] && Thinned(u[1..], s[1..], t) {
        ThinnedLater(u[1..], s[1..], t, t');
      } else {
        ThinnedLater(u[1..], s, t, t');
      }
    }
  }

  lemma {:induction false} ThinnedPush(u: seq<Message>, s: seq<Message>, t: int, msg: Message)
    requires Thinned(u, s, t)
    ensures Thinned(u + [msg], s + [msg], t)
  {
    if u == [] {
      assert (u + [msg])[1..] == [] && (s + [msg])[1..] == [];
    } else {
      assert (u + [msg])[1..] == u[1..] + [msg];
      if s != [] && s[0] == u[0] && Thinned(u[1..], s[1..], t) {
        assert (s + [msg])[1..] == s[1..] + [msg];
        ThinnedPush(u[1..], s[1..], t, msg);
      } else {
        ThinnedPush(u[1..], s, t, msg);
      }
    }
  }

  lemma {:induction false} ThinnedPop(u: seq<Message>, s: seq<Message>, now: int)
    requires Thinned(u, s, now)
    ensures Queue.Pop(u, now).1 == Queue.Pop(s, now).1
    ensures Thinned(Queue.Pop(u, now).0, Queue.Pop(s, now).0, now)
  {
    if u != [] {
      if s != [] && s[0] == u[0] && Thinned(u[1..], s[1..], now) {
        if u[0].ExpiredAt(now) {
          ThinnedPop(u[1..], s[1..], now);
        }
      } else {
        ThinnedPop(u[1..], s, now);
      }
    }
  }

  lemma {:induction false} ThinnedSweep(u: seq<Message>, s: seq<Message>, now: int)
    requires Thinned(u, s, now)
    ensures Thinned(u, Live(s, now), now)
  {
    if u != [] {
      if s != [] && s[0] == u[0] && Thinned(u[1..], s[1..], now) {
        LiveFirst(s, now);
        ThinnedSweep(u[1..], s[1..], now);
        assert !s[0].ExpiredAt(now) ==> Live(s, now)[1..] == Live(s[1..], now);
      } else {
        ThinnedSweep(u[1..], s, now);
      }
    }
  }

  lemma {:induction false} AfterFits(capacity: nat, ops: seq<Op>)
    ensures |After(capacity, ops)| <= capacity
  {
    if ops != [] {
      AfterFits(capacity, ops[..|ops| - 1]);
    }
  }

  /** At every push of the run that finds the never-swept queue full, the swept one
      is full too: Push takes the same branch in both. */
  predicate FullTogether(capacity: nat, ops: seq<Op>) {
    ops != [] ==>
      var before := ops[..|ops| - 1];
      && FullTogether(capacity, before)
      && (ops[|ops| - 1].Push? && |After(capacity, Unswept(before))| == capacity
          ==> |After(capacity, before)| == capacity)
  }

  lemma FullTogetherSnoc(capacity: nat, before: seq<Op>, op: Op)
    ensures FullTogether(capacity, before + [op])
       <==> FullTogether(capacity, before)
            && (op.Push? && |After(capacity, Unswept(before))| == capacity ==> |After(capacity, before)| == capacity)
  {
    assert (before + [op])[..|before|] == before;
  }

  lemma {:induction false} SameNumberOfOutputs(capacity: nat, ops: seq<Op>)
    ensures |ClientOutputs(capacity, ops)| == |ClientOutputs(capacity, Unswept(ops))|
  {
    if ops != [] {
      var before, op := ops[..|ops| - 1], ops[|ops| - 1];
      SameNumberOfOutputs(capacity, before);
      OneMore(0, capacity, Unswept(before), op);
      assert op.Sweep? ==> Unswept(ops) == Unswept(before);
    }
  }

  lemma SnocEqual<T>(a: seq<T>, b: seq<T>, x: T, y: T)
    requires |a| == |b|
    ensures a + [x] == b + [y] <==> a == b && x == y
  {
    if a + [x] == b + [y] {
      assert a == (a + [x])[..|a|] && b == (b + [y])[..|b|];
      assert x == (a + [x])[|a|] && y == (b + [y])[|b|];
    }
  }

  /** What the swept and the unswept run show after one more operation. */
  lemma OutputsTogether(capacity: nat, before: seq<Op>, op: Op)
    ensures ClientOutputs(capacity, before + [op]) == ClientOutputs(capacity, Unswept(before + [op]))
       <==> ClientOutputs(capacity, before) == ClientOutputs(capacity, Unswept(before))
            && (op.Sweep? ||
                Step(After(capacity, before), capacity, op).1 == Step(After(capacity, Unswept(before)), capacity, op).1)
  {
    var ub := Unswept(before);
    OneMore(0, capacity, before, op);
    if op.Sweep? {
      assert Unswept(before + [op]) == ub;
      assert ClientOutputs(capacity, before + [op]) == ClientOutputs(capacity, before);
    } else {
      SameNumberOfOutputs(capacity, before);
      OneMore(0, capacity, ub, op);
      SnocEqual(ClientOutputs(capacity, before), ClientOutputs(capacity, ub),
                Step(After(capacity, before), capacity, op).1, Step(After(capacity, ub), capacity, op).1);
    }
  }

  /** As long as the two queues are full together, the swept one is the other thinned. */
  lemma ThinnedStep(capacity: nat, u: seq<Message>, s: seq<Message>, t: int, op: Op)
    requires Thinned(u, s, t) && |u| <= capacity && (!op.Push? ==> t <= op.now)
    ensures var u' := if op.Sweep? then u else Step(u, capacity, op).0;
            var together := op.Push? && |u| == capacity ==> |s| == capacity;
            && (together ==> Thinned(u', Step(s, capacity, op).0, if op.Push? then t else op.now))
            && (op.Sweep? || Step(s, capacity, op).1 == Step(u, capacity, op).1 <==> together)
  {
    ThinnedIsShorter(u, s, t);
    match op
    case Push(msg) => ThinnedPush(u, s, t, msg);
    case Pop(now) =>
      ThinnedLater(u, s, t, now);
      ThinnedPop(u, s, now);
    case Sweep(now) =>
      ThinnedLater(u, s, t, now);
      ThinnedSweep(u, s, now);
  }

  /** The swept queue is the unswept one thinned, as long as they are full together. */
  ghost predicate Follows(capacity: nat, start: int, ops: seq<Op>) {
    && (FullTogether(capacity, ops) ==> Thinned(After(capacity, Unswept(ops)), After(capacity, ops), Clock(start, ops)))
    && (FullTogether(capacity, ops) <==> ClientOutputs(capacity, ops) == ClientOutputs(capacity, Unswept(ops)))
  }

  lemma FollowsOneMore(capacity: nat, start: int, before: seq<Op>, op: Op)
    requires Follows(capacity, start, before) && (!op.Push? ==> Clock(start, before) <= op.now)
    ensures Follows(capacity, start, before + [op])
  {
    var ub := Unswept(before);
    OutputsTogether(capacity, before, op);
    FullTogetherSnoc(capacity, before, op);
    if FullTogether(capacity, before) {
      AfterFits(capacity, ub);
      ThinnedStep(capacity, After(capacity, ub), After(capacity, before), Clock(start, before), op);
      OneMore(start, capacity, before, op);
      OneMore(start, capacity, ub, op);
      assert op.Sweep? ==> Unswept(before + [op]) == ub;
    }
  }

  lemma FollowsNone(capacity: nat, start: int, ops: seq<Op>)
    requires ops == []
    ensures Follows(capacity, start, ops)
  {
  }

  lemma {:induction false} ThinnedRun(capacity: nat, start: int, ops: seq<Op>)
    requires Clocked(start, ops)
    ensures Follows(capacity, start, ops)
  {
    if ops == [] {
      FollowsNone(capacity, start, ops);
    } else {
      var before, op := ops[..|ops| - 1], ops[|ops| - 1];
      assert ops == before + [op];
      ThinnedRun(capacity, start, before);
      FollowsOneMore(capacity, start, before, op);
    }
  }

  /** Sweeping changes nothing a client sees, pops and rejections alike, exactly when
      no push finds the never-swept queue full and the swept one with room. */
  lemma SweepTransparency(capacity: nat, start: int, ops: seq<Op>)
    requires Clocked(start, ops)
    ensures ClientOutputs(capacity, ops) == ClientOutputs(capacity, Unswept(ops)) <==> FullTogether(capacity, ops)
  {
    ThinnedRun(capacity, start, ops);
  }

  lemma {:induction false} NeverFullTogether(capacity: nat, ops: seq<Op>)
    requires Rejected !in ClientOutputs(capacity, Unswept(ops))
    ensures FullTogether(capacity, ops)
  {
    if ops != [] {
      var before, op := ops[..|ops| - 1], ops[|ops| - 1];
      var ub := Unswept(before);
      OneMore(0, capacity, ub, op);
      var outs, last := ClientOutputs(capacity, ub), Step(After(capacity, ub), capacity, op).1;
      assert op.Sweep? ==> Unswept(ops) == ub;
      assert forall x :: x in outs ==> x in outs + [last];
      assert last in outs + [last];
      NeverFullTogether(capacity, before);
    }
  }

  /** In particular, if the never-swept queue rejects no push, sweeps at any points
      of the run change no pop and cause no rejection. */
  lemma SweepsAreUnseen(capacity: nat, start: int, ops: seq<Op>)
    requires Clocked(start, ops) && Rejected !in ClientOutputs(capacity, Unswept(ops))
    ensures ClientOutputs(capacity, ops) == ClientOutputs(capacity, Unswept(ops))
  {
    NeverFullTogether(capacity, ops);
    SweepTransparency(capacity, start, ops);
  }

  /** A run that fails the condition: with capacity 1, a sweep between two pushes makes
      room for the second, which the unswept queue rejects. */
  lemma SweepMakesRoom(a: Message, b: Message, now: int) returns (ops: seq<Op>)
    requires a.ExpiredAt(now)
    ensures ops == [Push(a), Sweep(now), Push(b)]
    ensures ClientOutputs(1, ops) == [Accepted, Accepted]
    ensures ClientOutputs(1, Unswept(ops)) == [Accepted, Rejected]
  {
    var first := OnePush(a);
    OneMore(now, 1, first, Push(b));
    OneMore(now, 1, first, Sweep(now));
    assert [a][..0] == [];
    var swept := first + [Sweep(now)];
    assert Live([a], now) == [];
    OneMore(now, 1, swept, Push(b));
    ops := swept + [Push(b)];
  }

  lemma OnePush(a: Message) returns (ops: seq<Op>)
    ensures ops == [Push(a)] && Unswept(ops) == ops && After(1, ops) == [a] && ClientOutputs(1, ops) == [Accepted]
  {
    ops := [];
    OneMore(0, 1, ops, Push(a));
    ops := ops + [Push(a)];
  }

  lemma OneMore(start: int, capacity: nat, ops: seq<Op>, op: Op)
    ensures After(capacity, ops + [op]) == Step(After(capacity, ops), capacity, op).0
    ensures ClientOutputs(capacity, ops + [op])
         == ClientOutputs(capacity, ops) + if op.Sweep? then [] else [Step(After(capacity, ops), capacity, op).1]
    ensures Unswept(ops + [op]) == Unswept(ops) + if op.Sweep? then [] else [op]
    ensures Clocked(start, ops + [op]) <==> Clocked(start, ops) && (!op.Push? ==> Clock(start, ops) <= op.now)
    ensures Clock(start, ops + [op]) == if op.Push? then Clock(start, ops) else op.now
  {
  }

  // ---------- conservation and order ----------

  /** A message that left the queue: which accepted push it was, and when. */
  datatype Left = Left(index: nat, at: int)

  /** Every accepted push of a run, and where each has gone. */
  datatype History = History(accepted: seq<Message>, returned: seq<Left>, discarded: seq<Left>, queued: seq<nat>)

  predicate InRange(accepted: seq<Message>, queued: seq<nat>) {
    forall k :: 0 <= k < |queued| ==> queued[k] < |accepted|
  }

  function Messages(accepted: seq<Message>, queued: seq<nat>): (q: seq<Message>)
    requires InRange(accepted, queued)
  {
    seq(|queued|, k requires 0 <= k < |queued| => accepted[queued[k]])
  }

  /** Length of the expired head. */
  function ExpiredHead(accepted: seq<Message>, queued: seq<nat>, now: int): (d: nat)
    requires InRange(accepted, queued)
    ensures d <= |queued|
    ensures forall k :: 0 <= k < d ==> accepted[queued[k]].ExpiredAt(now)
    ensures d < |queued| ==> !accepted[queued[d]].ExpiredAt(now)
  {
    if queued != [] && accepted[queued[0]].ExpiredAt(now) then 1 + ExpiredHead(accepted, queued[1..], now) else 0
  }

  function Keep(accepted: seq<Message>, queued: seq<nat>, now: int, expired: bool): (kept: seq<nat>)
    requires InRange(accepted, queued)
    ensures InRange(accepted, kept)
    ensures forall k :: 0 <= k < |kept| ==> kept[k] in queued && accepted[kept[k]].ExpiredAt(now) == expired
  {
    if queued == [] then []
    else
      var n := |queued| - 1;
      var rest := Keep(accepted, queued[..n], now, expired);
      if accepted[queued[n]].ExpiredAt(now) == expired then rest + [queued[n]] else rest
  }

  function LeftAt(indices: seq<nat>, at: int): (ls: seq<Left>) {
    seq(|indices|, k requires 0 <= k < |indices| => Left(indices[k], at))
  }

  function Track(h: History, capacity: nat, op: Op): History
    requires InRange(h.accepted, h.queued)
  {
    match op
    case Push(msg) =>
      if |h.queued| == capacity then h
      else h.(accepted := h.accepted + [msg], queued := h.queued + [|h.accepted|])
    case Pop(now) =>
      var d := ExpiredHead(h.accepted, h.queued, now);
      var h1 := h.(discarded := h.discarded + LeftAt(h.queued[..d], now));
      if d == |h.queued| then h1.(queued := [])
      else h1.(returned := h.returned + [Left(h.queued[d], now)], queued := h.queued[d + 1..])
    case Sweep(now) =>
      h.(discarded := h.discarded + LeftAt(Keep(h.accepted, h.queued, now, true), now),
         queued := Keep(h.accepted, h.queued, now, false))
  }

  function Tracked(capacity: nat, ops: seq<Op>): (h: History)
    ensures InRange(h.accepted, h.queued)
  {
    if ops == [] then History([], [], [], [])
    else
      var before := Tracked(capacity, ops[..|ops| - 1]);
      Track(before, capacity, ops[|ops| - 1])
  }

  function Indices(ls: seq<Left>): (indices: seq<nat>) {
    seq(|ls|, k requires 0 <= k < |ls| => ls[k].index)
  }

  ghost function Places(h: History): multiset<nat> {
    multiset(Indices(h.returned)) + multiset(Indices(h.discarded)) + multiset(h.queued)
  }

  ghost predicate Ascending(s: seq<nat>) {
    forall i, j :: 0 <= i < j < |s| ==> s[i] < s[j]
  }

  /** Each accepted push is in exactly one place; pops return pushes in the order
      they were accepted, live when returned; what is discarded was expired then. */
  ghost predicate Conserved(h: History) {
    && (forall i: nat :: Places(h)[i] == if i < |h.accepted| then 1 else 0)
    && Ascending(Indices(h.returned) + h.queued)
    && (forall l :: l in h.returned ==>
          l.index < |h.accepted| && var m := h.accepted[l.index]; m.ttl <= 0 || l.at < m.createdAt + m.ttl)
    && (forall l :: l in h.discarded ==>
          l.index < |h.accepted| && var m := h.accepted[l.index]; m.ttl > 0 && m.createdAt + m.ttl <= l.at)
    && InRange(h.accepted, h.queued)
  }

  /** What the pops of a run returned, in order. */
  function Popped(capacity: nat, ops: seq<Op>): seq<Message> {
    if ops == [] then []
    else
      var before, op := ops[..|ops| - 1], ops[|ops| - 1];
      var out := Step(After(capacity, before), capacity, op).1;
      Popped(capacity, before) + if out.Got? && out.result.Some? then [out.result.value] else []
  }

  lemma {:induction false} ExpiredHeadIsDropped(accepted: seq<Message>, queued: seq<nat>, now: int)
    requires InRange(accepted, queued)
    ensures DropExpired(Messages(accepted, queued), now)
         == Messages(accepted, queued)[ExpiredHead(accepted, queued, now)..]
  {
    if queued != [] && accepted[queued[0]].ExpiredAt(now) {
      assert Messages(accepted, queued)[1..] == Messages(accepted, queued[1..]);
      ExpiredHeadIsDropped(accepted, queued[1..], now);
    }
  }

  lemma {:induction false} KeepIsLive(accepted: seq<Message>, queued: seq<nat>, now: int)
    requires InRange(accepted, queued)
    ensures Messages(accepted, Keep(accepted, queued, now, false)) == Live(Messages(accepted, queued), now)
  {
    if queued != [] {
      var n := |queued| - 1;
      assert Messages(accepted, queued)[..n] == Messages(accepted, queued[..n]);
      KeepIsLive(accepted, queued[..n], now);
    }
  }

  lemma {:induction false} KeepSplits(accepted: seq<Message>, queued: seq<nat>, now: int)
    requires InRange(accepted, queued)
    ensures multiset(Keep(accepted, queued, now, true)) + multiset(Keep(accepted, queued, now, false))
         == multiset(queued)
  {
    if queued != [] {
      var n := |queued| - 1;
      assert queued == queued[..n] + [queued[n]];
      KeepSplits(accepted, queued[..n], now);
    }
  }

  lemma {:induction false} KeepAscends(accepted: seq<Message>, queued: seq<nat>, now: int, front: seq<nat>,
                                       expired: bool)
    requires InRange(accepted, queued) && Ascending(front + queued)
    ensures Ascending(front + Keep(accepted, queued, now, expired))
  {
    if queued != [] {
      var n := |queued| - 1;
      var rest, all := Keep(accepted, queued[..n], now, expired), front + queued;
      assert front + queued[..n] == all[..|front| + n];
      KeepAscends(accepted, queued[..n], now, front, expired);
      forall k | 0 <= k < |front + rest| ensures (front + rest)[k] < queued[n] {
        if k < |front| {
          assert all[k] == front[k];
        } else {
          var m :| 0 <= m < n && queued[..n][m] == rest[k - |front|];
          assert all[|front| + m] == queued[m];
        }
        assert all[|front| + n] == queued[n];
      }
      assert front + (rest + [queued[n]]) == (front + rest) + [queued[n]];
    }
  }

  lemma LeftIndices(a: seq<Left>, indices: seq<nat>, at: int)
    ensures Indices(a + LeftAt(indices, at)) == Indices(a) + indices
  {
  }

  lemma PopAscends(h: History, capacity: nat, now: int)
    requires Conserved(h)
    ensures var h' := Track(h, capacity, Pop(now)); Ascending(Indices(h'.returned) + h'.queued)
  {
    var h', d := Track(h, capacity, Pop(now)), ExpiredHead(h.accepted, h.queued, now);
    var all, all' := Indices(h.returned) + h.queued, Indices(h'.returned) + h'.queued;
    var r := |h.returned|;
    forall i, j | 0 <= i < j < |all'| ensures all'[i] < all'[j] {
      assert all'[i] == all[if i < r then i else i + d] && all'[j] == all[if j < r then j else j + d];
    }
  }

  lemma Regroup(r: multiset<nat>, d: multiset<nat>, q: multiset<nat>, r': multiset<nat>, d': multiset<nat>,
                q': multiset<nat>, p: multiset<nat>, s: multiset<nat>)
    requires r' + q' == r + s && d' == d + p && q == p + s
    ensures r' + d' + q' == r + d + q
  {
    assert r' + d' + q' == (r' + q') + d';
    assert r + d + q == (r + s) + (d + p);
  }

  lemma PopPlaces(h: History, capacity: nat, now: int)
    requires InRange(h.accepted, h.queued)
    ensures Places(Track(h, capacity, Pop(now))) == Places(h)
  {
    var h', d := Track(h, capacity, Pop(now)), ExpiredHead(h.accepted, h.queued, now);
    LeftIndices(h.discarded, h.queued[..d], now);
    PopSplits(h, capacity, now, d);
    assert h.queued == h.queued[..d] + h.queued[d..];
    Regroup(multiset(Indices(h.returned)), multiset(Indices(h.discarded)), multiset(h.queued),
            multiset(Indices(h'.returned)), multiset(Indices(h'.discarded)), multiset(h'.queued),
            multiset(h.queued[..d]), multiset(h.queued[d..]));
  }

  lemma PopSplits(h: History, capacity: nat, now: int, d: nat)
    requires InRange(h.accepted, h.queued) && d == ExpiredHead(h.accepted, h.queued, now)
    ensures var h' := Track(h, capacity, Pop(now));
            multiset(Indices(h'.returned)) + multiset(h'.queued)
            == multiset(Indices(h.returned)) + multiset(h.queued[d..])
  {
    if d < |h.queued| {
      assert Indices(h.returned + [Left(h.queued[d], now)]) == Indices(h.returned) + [h.queued[d]];
      MoveOver(Indices(h.returned), h.queued[d..]);
      assert h.queued[d..][1..] == h.queued[d + 1..];
    }
  }

  lemma MoveOver(a: seq<nat>, b: seq<nat>)
    requires b != []
    ensures multiset(a + [b[0]]) + multiset(b[1..]) == multiset(a) + multiset(b)
  {
    assert b == [b[0]] + b[1..];
  }

  lemma PopConserves(h: History, capacity: nat, now: int)
    requires Conserved(h)
    ensures Conserved(Track(h, capacity, Pop(now)))
  {
    PopAscends(h, capacity, now);
    PopPlaces(h, capacity, now);
    var d := ExpiredHead(h.accepted, h.queued, now);
    assert forall k :: 0 <= k < d ==> LeftAt(h.queued[..d], now)[k].index == h.queued[k];
  }

  lemma SweepConserves(h: History, capacity: nat, now: int)
    requires Conserved(h)
    ensures Conserved(Track(h, capacity, Sweep(now)))
  {
    var h' := Track(h, capacity, Sweep(now));
    LeftIndices(h.discarded, Keep(h.accepted, h.queued, now, true), now);
    KeepSplits(h.accepted, h.queued, now);
    KeepAscends(h.accepted, h.queued, now, Indices(h.returned), false);
    assert Places(h') == Places(h);
  }

  lemma PushConserves(h: History, capacity: nat, msg: Message)
    requires Conserved(h)
    ensures Conserved(Track(h, capacity, Push(msg)))
  {
    var h', n := Track(h, capacity, Push(msg)), |h.accepted|;
    if h' != h {
      assert Places(h') == Places(h) + multiset{n};
      forall i: nat ensures Places(h')[i] == if i < |h'.accepted| then 1 else 0 {
        assert Places(h)[i] == if i < n then 1 else 0;
      }
      assert Indices(h'.returned) + h'.queued == (Indices(h.returned) + h.queued) + [n];
    }
  }

  /** Over every run of pushes, pops and sweeps no message is lost, duplicated or reordered. */
  lemma {:induction false} Conservation(capacity: nat, ops: seq<Op>)
    ensures Conserved(Tracked(capacity, ops))
  {
    if ops != [] {
      var before := ops[..|ops| - 1];
      Conservation(capacity, before);
      match ops[|ops| - 1]
      case Push(msg) => PushConserves(Tracked(capacity, before), capacity, msg);
      case Pop(now) => PopConserves(Tracked(capacity, before), capacity, now);
      case Sweep(now) => SweepConserves(Tracked(capacity, before), capacity, now);
    }
  }

  lemma TrackIsStep(h: History, capacity: nat, op: Op)
    requires InRange(h.accepted, h.queued)
    ensures var h', (q', out) := Track(h, capacity, op), Step(Messages(h.accepted, h.queued), capacity, op);
            && InRange(h'.accepted, h'.queued) && Messages(h'.accepted, h'.queued) == q'
            && (out.Got? && out.result.Some? ==>
                  |h'.returned| == |h.returned| + 1 && h'.returned[..|h.returned|] == h.returned
                  && h'.returned[|h.returned|].index < |h'.accepted|
                     && h'.accepted[h'.returned[|h.returned|].index] == out.result.value)
            && (!(out.Got? && out.result.Some?) ==> h'.returned == h.returned)
            && h.accepted <= h'.accepted
  {
    var q := Messages(h.accepted, h.queued);
    match op
    case Push(msg) =>
      if |h.queued| != capacity {
        var h' := Track(h, capacity, op);
        assert Messages(h'.accepted, h'.queued) == q + [msg];
      }
    case Pop(now) =>
      ExpiredHeadIsDropped(h.accepted, h.queued, now);
    case Sweep(now) =>
      KeepIsLive(h.accepted, h.queued, now);
  }

  ghost predicate Tells(h: History, q: seq<Message>, popped: seq<Message>) {
    && InRange(h.accepted, h.queued) && Messages(h.accepted, h.queued) == q
    && |h.returned| == |popped|
    && forall k :: 0 <= k < |popped| ==>
         h.returned[k].index < |h.accepted| && h.accepted[h.returned[k].index] == popped[k]
  }

  lemma TrackTells(h: History, q: seq<Message>, popped: seq<Message>, capacity: nat, op: Op)
    requires Tells(h, q, popped)
    ensures var (q', out) := Step(q, capacity, op);
            Tells(Track(h, capacity, op), q', popped + if out.Got? && out.result.Some? then [out.result.value] else [])
  {
    TrackIsStep(h, capacity, op);
  }

  /** The history tells of the very queue the operations act on: its queued pushes
      are the queue, and its returned pushes are what the pops returned. */
  lemma {:induction false} HistoryIsTheRun(capacity: nat, ops: seq<Op>)
    ensures Tells(Tracked(capacity, ops), After(capacity, ops), Popped(capacity, ops))
  {
    if ops != [] {
      var before := ops[..|ops| - 1];
      HistoryIsTheRun(capacity, before);
      TrackTells(Tracked(capacity, before), After(capacity, before), Popped(capacity, before), capacity,
                 ops[|ops| - 1]);
    }
  }

  /** A message without a TTL is never discarded. */
  lemma ImmortalIsKept(capacity: nat, ops: seq<Op>, k: nat)
    requires k < |Tracked(capacity, ops).discarded|
    ensures var h := Tracked(capacity, ops);
            h.discarded[k].index < |h.accepted| && h.accepted[h.discarded[k].index].ttl > 0
  {
    Conservation(capacity, ops);
  }

  /** What leaves the queue in an operation was queued until then, and is stamped with
      that operation's reading of the clock; nothing leaves in a push. */
  lemma LeavesThen(capacity: nat, before: seq<Op>, op: Op)
    ensures var h, h' := Tracked(capacity, before), Tracked(capacity, before + [op]);
            && h.returned <= h'.returned && h.discarded <= h'.discarded
            && (forall k :: |h.returned| <= k < |h'.returned| ==>
                  op.Pop? && h'.returned[k].at == op.now && h'.returned[k].index in h.queued)
            && (forall k :: |h.discarded| <= k < |h'.discarded| ==>
                  !op.Push? && h'.discarded[k].at == op.now && h'.discarded[k].index in h.queued)
  {
    assert (before + [op])[..|before|] == before;
  }
}
