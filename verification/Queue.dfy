/** A Baby-Rabbit queue as a sequence of messages: what each operation does to it. */
module Queue {
  import opened Wrappers

  /** Times and durations are integers on one clock. */
  datatype Message = Message(id: string, value: string, createdAt: int, ttl: int)
  {
    /** A TTL of 0 or below means the message never expires. */
    predicate ExpiredAt(now: int) {
      ttl > 0 && now - createdAt >= ttl
    }
  }

  const ZERO_MESSAGE := Message("", "", 0, 0)

  datatype QueueError =
    | QueueFull
    | QueueEmpty
    | QueueNotFound
    | QueueAlreadyExists
    | InvalidCapacity
    | InvalidName
    | InvalidTtl

  /** The messages not expired at `now`, in order. */
  function Live(q: seq<Message>, now: int): (live: seq<Message>)
    ensures |live| <= |q|
  {
    if q == [] then []
    else
      var n := |q| - 1;
      if q[n].ExpiredAt(now) then Live(q[..n], now) else Live(q[..n], now) + [q[n]]
  }

  /** The queue without its expired head. */
  function DropExpired(q: seq<Message>, now: int): (rest: seq<Message>)
    ensures |rest| <= |q|
  {
    if q != [] && q[0].ExpiredAt(now) then DropExpired(q[1..], now) else q
  }

  /** What Pop leaves, and what it returns. */
  function Pop(q: seq<Message>, now: int): (seq<Message>, Option<Message>) {
    var rest := DropExpired(q, now);
    if rest == [] then ([], None) else (rest[1..], Some(rest[0]))
  }

  lemma {:induction false} LiveConcat(a: seq<Message>, b: seq<Message>, now: int)
    ensures Live(a + b, now) == Live(a, now) + Live(b, now)
  {
    if b == [] {
      assert a + b == a;
    } else {
      assert (a + b)[..|a + b| - 1] == a + b[..|b| - 1];
      LiveConcat(a, b[..|b| - 1], now);
    }
  }

  /** The live ones of the first n messages. */
  function LiveUpTo(q: seq<Message>, n: nat, now: int): (live: seq<Message>)
    requires n <= |q|
  {
    if n == 0 then []
    else if q[n - 1].ExpiredAt(now) then LiveUpTo(q, n - 1, now)
    else LiveUpTo(q, n - 1, now) + [q[n - 1]]
  }

  lemma {:induction false} LiveUpToIs(q: seq<Message>, n: nat, now: int)
    requires n <= |q|
    ensures LiveUpTo(q, n, now) == Live(q[..n], now)
  {
    if n > 0 {
      LiveUpToIs(q, n - 1, now);
      assert q[..n][..n - 1] == q[..n - 1];
    }
  }

  lemma LiveUpToAll(q: seq<Message>, n: nat, now: int)
    requires n == |q|
    ensures LiveUpTo(q, n, now) == Live(q, now)
  {
    LiveUpToIs(q, n, now);
    assert q[..n] == q;
  }

  lemma LiveFirst(q: seq<Message>, now: int)
    requires q != []
    ensures Live(q, now) == if q[0].ExpiredAt(now) then Live(q[1..], now) else [q[0]] + Live(q[1..], now)
  {
    assert q == q[..1] + q[1..];
    assert q[..1][..0] == [];
    LiveConcat(q[..1], q[1..], now);
  }

  /** Pop returns the first live message and leaves the queue after it. */
  lemma {:induction false} PopReturnsFirstLive(q: seq<Message>, now: int)
    ensures var (rest, r) := Pop(q, now);
            && (r.Some? <==> Live(q, now) != [])
            && (r.Some? ==> !r.value.ExpiredAt(now) && Live(q, now) == [r.value] + Live(rest, now))
            && (r.None? ==> rest == [])
    decreases q
  {
    if q != [] {
      LiveFirst(q, now);
      if q[0].ExpiredAt(now) {
        PopReturnsFirstLive(q[1..], now);
      }
    }
  }

  /** Pop in plain numbers: what is past createdAt + ttl at the head is dropped, and
      the first message that is not, or never will be, is returned. */
  lemma {:induction false} PopExact(q: seq<Message>, now: int) returns (d: nat)
    ensures d <= |q|
    ensures forall i :: 0 <= i < d ==> q[i].ttl > 0 && q[i].createdAt + q[i].ttl <= now
    ensures d < |q| ==> q[d].ttl <= 0 || now < q[d].createdAt + q[d].ttl
    ensures Pop(q, now) == if d < |q| then (q[d + 1..], Some(q[d])) else ([], None)
  {
    d := 0;
    if q != [] && q[0].ExpiredAt(now) {
      d := PopExact(q[1..], now);
      d := d + 1;
    }
  }

  /** What Pop returns is not past its deadline, and what it drops is. */
  lemma PopMembers(q: seq<Message>, now: int)
    ensures var (rest, r) := Pop(q, now);
            && (r.Some? ==> r.value.ttl <= 0 || now < r.value.createdAt + r.value.ttl)
            && forall m :: m in q && m !in rest && r != Some(m) ==> m.ttl > 0 && m.createdAt + m.ttl <= now
  {
    var d := PopExact(q, now);
    assert forall i :: d < i < |q| ==> q[d + 1..][i - d - 1] == q[i];
    forall m | m in q && m !in Pop(q, now).0 && Pop(q, now).1 != Some(m)
      ensures m.ttl > 0 && m.createdAt + m.ttl <= now
    {
      var i :| 0 <= i < |q| && q[i] == m;
    }
  }

  /** Live in plain numbers: the messages at the ascending positions `at`, which are
      those not past createdAt + ttl, or without a deadline. */
  lemma {:induction false} LiveExact(q: seq<Message>, now: int) returns (at: seq<nat>)
    ensures forall i, j :: 0 <= i < j < |at| ==> at[i] < at[j]
    ensures forall i: nat :: i in at <==> i < |q| && (q[i].ttl <= 0 || now < q[i].createdAt + q[i].ttl)
    ensures |Live(q, now)| == |at| && forall j :: 0 <= j < |at| ==> at[j] < |q| && Live(q, now)[j] == q[at[j]]
  {
    at := [];
    if q != [] {
      var n := |q| - 1;
      at := LiveExact(q[..n], now);
      assert forall j :: 0 <= j < |at| ==> at[j] in at;
      if !q[n].ExpiredAt(now) {
        at := at + [n];
      }
    }
  }

  /** As a set of messages. */
  lemma LiveMembers(q: seq<Message>, now: int)
    ensures forall m :: m in Live(q, now) <==> m in q && (m.ttl <= 0 || now < m.createdAt + m.ttl)
  {
    var at := LiveExact(q, now);
    forall m | m in q && (m.ttl <= 0 || now < m.createdAt + m.ttl) ensures m in Live(q, now) {
      var i :| 0 <= i < |q| && q[i] == m;
      assert i in at;
      var j :| 0 <= j < |at| && at[j] == i;
      assert Live(q, now)[j] == m;
    }
    forall m | m in Live(q, now) ensures m in q && (m.ttl <= 0 || now < m.createdAt + m.ttl) {
      var j :| 0 <= j < |at| && Live(q, now)[j] == m;
      assert at[j] in at;
    }
  }
}
