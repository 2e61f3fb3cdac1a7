/** The publishing half of the outbox pattern: one tick of the relay as the loop
    it is, the steps that tick is made of, and how fast ticks drain the outbox. */
module Relay {
  import opened Wrappers
  import opened LinkDomain
  import T = Tables
  import opened Serde
  import opened Postgres
  import W = WriteSteps
  import S = RelaySteps

  /** What the broker does with a publish: nothing arrives; the message is stored; or
      it is dropped if its id is still remembered. An acknowledgement may be lost. */
  datatype BrokerChoice = Unreachable | Stores(ackLost: bool) | Remembers(ackLost: bool)

  predicate Known(stream: seq<Envelope>, id: IdText) {
    exists i :: 0 <= i < |stream| && stream[i].eventId == id
  }

  predicate Stored(stream: seq<Envelope>, env: Envelope, c: BrokerChoice) {
    c.Stores? || (c.Remembers? && !Known(stream, env.eventId))
  }

  /** The stream after a publish. */
  function Arrive(stream: seq<Envelope>, env: Envelope, c: BrokerChoice): (stream': seq<Envelope>)
    ensures stream <= stream'
  {
    if Stored(stream, env, c) then stream + [env] else stream
  }

  predicate Acked(c: BrokerChoice) {
    !c.Unreachable? && !c.ackLost
  }

  /** What becomes of the stream when a message is sent. */
  ghost predicate Delivers(stream: seq<Envelope>, env: Envelope, c: BrokerChoice, stream': seq<Envelope>) {
    match c
    case Unreachable => stream' == stream
    case Stores(_) => stream' == stream + [env]
    case Remembers(_) =>
      stream' == if exists i :: 0 <= i < |stream| && stream[i].eventId == env.eventId then stream else stream + [env]
  }

  class Bus {
    var stream: seq<Envelope>

    constructor ()
      ensures stream == []
    {
      stream := [];
    }

    method Publish(env: Envelope, choice: BrokerChoice) returns (ok: bool)
      modifies this
      ensures ok == Acked(choice)
      ensures stream == Arrive(old(stream), env, choice)
    {
      if choice.Stores? || (choice.Remembers? && !Known(stream, env.eventId)) {
        stream := stream + [env];
      }
      return Acked(choice);
    }
  }

  /** Publishes envs[k..] in order up to the first failure: the stream then, and
      how many of the batch were acknowledged. */
  function Send(stream: seq<Envelope>, envs: seq<Envelope>, net: nat -> BrokerChoice, k: nat): (r: (seq<Envelope>, nat))
    requires k <= |envs|
    ensures k <= r.1 <= |envs| && stream <= r.0
    decreases |envs| - k
  {
    if k == |envs| then (stream, k)
    else
      var stream' := Arrive(stream, envs[k], net(k));
      if Acked(net(k)) then Send(stream', envs, net, k + 1) else (stream', k)
  }

  /** `streams` are the streams as envs[k..] arrive one by one. */
  ghost predicate DeliversAll(streams: seq<seq<Envelope>>, envs: seq<Envelope>, net: nat -> BrokerChoice, k: nat) {
    && streams != [] && k + |streams| <= |envs| + 1
    && forall i :: 0 <= i < |streams| - 1 ==> Delivers(streams[i], envs[k + i], net(k + i), streams[i + 1])
  }

  /** The message is appended unless nothing arrives, or its id is remembered and in the stream. */
  lemma ArriveExact(stream: seq<Envelope>, env: Envelope, c: BrokerChoice)
    ensures Delivers(stream, env, c, Arrive(stream, env, c))
  {
  }

  lemma DeliversMore(stream: seq<Envelope>, streams: seq<seq<Envelope>>, envs: seq<Envelope>,
                     net: nat -> BrokerChoice, k: nat)
    requires k < |envs| && DeliversAll(streams, envs, net, k + 1) && Delivers(stream, envs[k], net(k), streams[0])
    ensures DeliversAll([stream] + streams, envs, net, k)
  {
    var all := [stream] + streams;
    forall i | 0 <= i < |all| - 1 ensures Delivers(all[i], envs[k + i], net(k + i), all[i + 1]) {
      if i > 0 {
        assert Delivers(streams[i - 1], envs[k + 1 + (i - 1)], net(k + 1 + (i - 1)), streams[i]);
      }
    }
  }

  lemma AckedExact(c: BrokerChoice)
    ensures Acked(c) <==> c == Stores(false) || c == Remembers(false)
  {
  }

  /** What is sent from envs[k] on is acknowledged up to the n-th message, where the loop stops. */
  lemma {:induction false} SendStops(stream: seq<Envelope>, envs: seq<Envelope>, net: nat -> BrokerChoice, k: nat,
                                     i: nat)
    requires k <= i < |envs| && i <= Send(stream, envs, net, k).1
    ensures i < Send(stream, envs, net, k).1 <==> net(i) == Stores(false) || net(i) == Remembers(false)
    decreases |envs| - k
  {
    AckedExact(net(k));
    if k < i {
      SendStops(Arrive(stream, envs[k], net(k)), envs, net, k + 1, i);
    }
  }

  /** Every message sent is delivered as the network has it, the one whose acknowledgement
      fails included, and no other. */
  lemma {:induction false} SendExact(stream: seq<Envelope>, envs: seq<Envelope>, net: nat -> BrokerChoice, k: nat)
    returns (streams: seq<seq<Envelope>>)
    requires k <= |envs|
    ensures DeliversAll(streams, envs, net, k) && streams[0] == stream
    ensures var (stream', n) := Send(stream, envs, net, k);
            |streams| == n - k + (if n < |envs| then 2 else 1) && streams[|streams| - 1] == stream'
    decreases |envs| - k
  {
    streams := [stream];
    if k < |envs| {
      ArriveExact(stream, envs[k], net(k));
      var stream' := Arrive(stream, envs[k], net(k));
      var rest := [stream'];
      if Acked(net(k)) {
        rest := SendExact(stream', envs, net, k + 1);
      }
      DeliversMore(stream, rest, envs, net, k);
      streams := [stream] + rest;
    }
  }

  function EnvelopesOf(outbox: T.Outbox, seqs: seq<nat>): (envs: seq<Envelope>)
    requires forall k :: 0 <= k < |seqs| ==> seqs[k] < |outbox| && outbox[seqs[k]].Row?
  {
    seq(|seqs|, k requires 0 <= k < |seqs| => ToEnvelope(outbox[seqs[k]].event))
  }

  /** One tick: the stream, the outbox, and the number forwarded. */
  function Tick(outbox: T.Outbox, stream: seq<Envelope>, limit: nat, net: nat -> BrokerChoice, mark: Outcome)
    : (T.Outbox, seq<Envelope>, nat)
  {
    var batch := T.Fetch(outbox, limit);
    var (stream', n) := Send(stream, EnvelopesOf(outbox, batch), net, 0);
    (if n > 0 && !mark.Fails? then T.Mark(outbox, batch[..n]) else outbox, stream', n)
  }

  /** Row by row: marked is what the tick forwarded, and only if the marking gets through. */
  lemma TickExact(outbox: T.Outbox, stream: seq<Envelope>, limit: nat, net: nat -> BrokerChoice, mark: Outcome)
    ensures var (outbox', _, n) := Tick(outbox, stream, limit, net, mark);
            var batch := T.Fetch(outbox, limit);
            && n <= |batch| && |outbox'| == |outbox|
            && forall i :: 0 <= i < |outbox| ==>
                 outbox'[i] == if !mark.Fails? && i in batch[..n] then T.Row(outbox[i].event, true) else outbox[i]
  {
    var batch := T.Fetch(outbox, limit);
    assert forall k :: 0 <= k < |batch| ==> T.Unpublished(outbox[batch[k]]);
  }

  class Publisher {
    const source: Store
    const bus: Bus
    const batchSize: nat

    constructor (source: Store, bus: Bus, batchSize: nat)
      ensures this.source == source && this.bus == bus && this.batchSize == batchSize
    {
      this.source, this.bus, this.batchSize := source, bus, batchSize;
    }

    /** RunOnce's loop: publishes in order and collects seq numbers until a publish fails. */
    method PublishBatch(records: seq<OutboxRecord>, ghost envs: seq<Envelope>, net: nat -> BrokerChoice)
      returns (published: seq<nat>)
      requires |envs| == |records| && forall k :: 0 <= k < |records| ==> records[k].envelope == envs[k]
      modifies bus
      ensures |published| <= |records| && forall k :: 0 <= k < |published| ==> published[k] == records[k].seqNo
      ensures (bus.stream, |published|) == Send(old(bus.stream), envs, net, 0)
    {
      published := [];
      var k := 0;
      while k < |records|
        invariant 0 <= k <= |records| && |published| == k
        invariant forall i :: 0 <= i < k ==> published[i] == records[i].seqNo
        invariant Send(old(bus.stream), envs, net, 0) == Send(bus.stream, envs, net, k)
        decreases |records| - k
      {
        var sent := bus.Publish(records[k].envelope, net(k));
        if !sent {
          break;
        }
        published := published + [records[k].seqNo];
        k := k + 1;
      }
    }

    /** Publishes one batch, stopping at the first failure, and marks what was acknowledged. */
    method RunOnce(net: nat -> BrokerChoice, readOk: bool, mark: Outcome) returns (count: nat, ok: bool)
      modifies source`outbox, bus
      ensures !readOk ==> source.outbox == old(source.outbox) && bus.stream == old(bus.stream) && count == 0 && !ok
      ensures readOk ==>
                && (source.outbox, bus.stream, count) == Tick(old(source.outbox), old(bus.stream), batchSize, net, mark)
                && (ok <==> count == 0 || mark.Succeeds?)
    {
      var fetched := source.FetchUnpublished(batchSize, readOk);
      if fetched.Err? {
        return 0, false;
      }
      var records := fetched.value;
      if |records| == 0 {
        return 0, true;
      }
      ghost var batch := T.Fetch(source.outbox, batchSize);
      var published := PublishBatch(records, EnvelopesOf(source.outbox, batch), net);
      assert published == batch[..|published|];
      assert (bus.stream, |published|) == Send(old(bus.stream), EnvelopesOf(old(source.outbox), batch), net, 0);
      if |published| > 0 {
        var marked := source.MarkPublished(published, mark);
        if !marked {
          return |published|, false;
        }
      }
      return |published|, true;
    }
  }

  // ---------- a tick is a run of relay steps ----------

  ghost predicate RelayRun(f: S.Flow, acts: seq<S.RelayAction>, f': S.Flow)
    decreases acts
  {
    if acts == [] then f == f'
    else S.RelayEnabled(f, acts[0]) && RelayRun(S.RelayNext(f, acts[0]), acts[1..], f')
  }

  lemma {:induction false} RelayRunConcat(f: S.Flow, a: seq<S.RelayAction>, g: S.Flow, b: seq<S.RelayAction>, h: S.Flow)
    requires RelayRun(f, a, g) && RelayRun(g, b, h)
    ensures RelayRun(f, a + b, h)
    decreases a
  {
    if a == [] {
      assert a + b == b;
    } else {
      assert (a + b)[1..] == a[1..] + b;
      RelayRunConcat(S.RelayNext(f, a[0]), a[1..], g, b, h);
    }
  }

  /** The broker remembers an id only of an event it holds. */
  lemma KnownIsInStream(f: S.Flow, e: DomainEvent)
    requires W.EventIdsDistinct(f.outbox) && S.HasRow(f.outbox, e) && Known(ToEnvelopes(f.stream), Uuid(e.id))
    requires forall x :: x in f.stream ==> S.HasRow(f.outbox, x)
    ensures e in f.stream
  {
    var i :| 0 <= i < |f.stream| && ToEnvelopes(f.stream)[i].eventId == Uuid(e.id);
    assert f.stream[i] in f.stream;
    var a :| 0 <= a < |f.outbox| && f.outbox[a].Row? && f.outbox[a].event == e;
    var b :| 0 <= b < |f.outbox| && f.outbox[b].Row? && f.outbox[b].event == f.stream[i];
    assert W.EventOf(f.outbox[a]).id == W.EventOf(f.outbox[b]).id;
  }

  lemma OnePublish(f: S.Flow, c: BrokerChoice) returns (a: S.RelayAction)
    requires W.EventIdsDistinct(f.outbox) && S.FlowInv(false, f) && S.AboutToSend(f)
    ensures S.RelayEnabled(f, a)
    ensures a == S.Publish(Stored(ToEnvelopes(f.stream), ToEnvelope(S.NextEvent(f)), c), Acked(c))
    ensures ToEnvelopes(S.RelayNext(f, a).stream) == Arrive(ToEnvelopes(f.stream), ToEnvelope(S.NextEvent(f)), c)
    ensures S.FlowInv(false, S.RelayNext(f, a)) && S.RelayNext(f, a).outbox == f.outbox
  {
    var e := S.NextEvent(f);
    a := S.Publish(Stored(ToEnvelopes(f.stream), ToEnvelope(e), c), Acked(c));
    assert S.HasRow(f.outbox, e);
    if a.acked && !a.stored {
      KnownIsInStream(f, e);
    }
    S.PublishKeepsInv(false, f, a);
  }

  /** f' is where the loop over the batch leaves f. */
  ghost predicate SendsTo(f: S.Flow, net: nat -> BrokerChoice, acts: seq<S.RelayAction>, f': S.Flow)
    requires S.FlowInv(false, f) && f.relay.Sending?
  {
    && RelayRun(f, acts, f') && f'.outbox == f.outbox && f'.relay.Sending? && f'.relay.batch == f.relay.batch
    && (f'.relay.stopped || f'.relay.next == |f.relay.batch|)
    && (ToEnvelopes(f'.stream), f'.relay.next)
       == Send(ToEnvelopes(f.stream), EnvelopesOf(f.outbox, f.relay.batch), net, f.relay.next)
  }

  lemma RelayRunCons(f: S.Flow, a: S.RelayAction, acts: seq<S.RelayAction>, f': S.Flow)
    requires S.RelayEnabled(f, a) && RelayRun(S.RelayNext(f, a), acts, f')
    ensures RelayRun(f, [a] + acts, f')
  {
    assert ([a] + acts)[1..] == acts;
  }

  lemma {:induction false} SendIsRun(f: S.Flow, net: nat -> BrokerChoice) returns (acts: seq<S.RelayAction>, f': S.Flow)
    requires W.EventIdsDistinct(f.outbox) && S.FlowInv(false, f) && f.relay.Sending? && !f.relay.stopped
    ensures SendsTo(f, net, acts, f')
    decreases |f.relay.batch| - f.relay.next
  {
    acts, f' := [], f;
    if f.relay.next < |f.relay.batch| {
      var a := OnePublish(f, net(f.relay.next));
      if a.acked {
        acts, f' := SendIsRun(S.RelayNext(f, a), net);
      } else {
        f' := S.RelayNext(f, a);
      }
      RelayRunCons(f, a, acts, f');
      acts := [a] + acts;
    }
  }

  /** Whatever the network does, a tick of the loop is a run of the relay's steps,
      so what is proved of all runs holds of it. */
  lemma TickIsRun(f: S.Flow, limit: nat, net: nat -> BrokerChoice, mark: Outcome)
    returns (acts: seq<S.RelayAction>, f': S.Flow)
    requires W.EventIdsDistinct(f.outbox) && S.FlowInv(false, f) && f.relay.Idle?
    ensures RelayRun(f, acts, f') && f'.relay.Idle?
    ensures var (outbox, stream, n) := Tick(f.outbox, ToEnvelopes(f.stream), limit, net, mark);
            f'.outbox == outbox && ToEnvelopes(f'.stream) == stream
  {
    acts, f' := [], f;
    if T.Fetch(f.outbox, limit) != [] {
      var fetch, last := S.FetchBatch(limit), S.MarkBatch(!mark.Fails?);
      var g := S.RelayNext(f, fetch);
      S.FetchKeepsInv(false, f, limit);
      var send, h := SendIsRun(g, net);
      f' := S.RelayNext(h, last);
      assert RelayRun(g, [], g) && RelayRun(f', [], f');
      RelayRunConcat(f, [fetch], g, send, h);
      RelayRunConcat(f, [fetch] + send, h, [last], f');
      acts := [fetch] + send + [last];
      MarkNothing(f.outbox);
    }
  }

  lemma MarkNothing(o: T.Outbox)
    ensures T.Mark(o, []) == o
  {
  }

  // ---------- draining ----------

  ghost predicate Ascending(s: seq<nat>) {
    forall i, j :: 0 <= i < j < |s| ==> s[i] < s[j]
  }

  lemma {:induction false} AscendingUnique(a: seq<nat>, b: seq<nat>)
    requires Ascending(a) && Ascending(b) && forall x :: x in a <==> x in b
    ensures a == b
  {
    assert |b| > 0 ==> b[0] in b;
    if a == [] {
    } else {
      assert a[0] in b && b[0] in a;
      assert a == [a[0]] + a[1..] && b == [b[0]] + b[1..];
      assert a[0] == b[0];
      forall x ensures x in a[1..] <==> x in b[1..] {
        assert x in a[1..] <==> x in a && x != a[0];
        assert x in b[1..] <==> x in b && x != b[0];
      }
      AscendingUnique(a[1..], b[1..]);
    }
  }

  /** Marking the first n pending rows leaves exactly the others pending. */
  lemma MarkPending(o: T.Outbox, n: nat)
    requires n <= |T.Pending(o)|
    ensures T.Pending(T.Mark(o, T.Pending(o)[..n])) == T.Pending(o)[n..]
  {
    var p := T.Pending(o);
    var o' := T.Mark(o, p[..n]);
    var p' := T.Pending(o');
    assert p == p[..n] + p[n..];
    forall x: nat ensures x in p' <==> x in p[n..] {
      SplitAscending(p, n, x);
      assert x in p' <==> x < |o'| && T.Unpublished(o'[x]);
      assert x in p <==> x < |o| && T.Unpublished(o[x]);
    }
    AscendingUnique(p', p[n..]);
  }

  lemma SplitAscending(p: seq<nat>, n: nat, x: nat)
    requires Ascending(p) && n <= |p|
    ensures x in p[n..] <==> x in p && x !in p[..n]
  {
  }

  predicate Clear(net: nat -> BrokerChoice, n: nat) {
    forall k: nat :: k < n ==> Acked(net(k))
  }

  lemma {:induction false} ClearSendsAll(stream: seq<Envelope>, envs: seq<Envelope>, net: nat -> BrokerChoice, k: nat)
    requires k <= |envs| && Clear(net, |envs|)
    ensures Send(stream, envs, net, k).1 == |envs|
    decreases |envs| - k
  {
    if k < |envs| {
      ClearSendsAll(Arrive(stream, envs[k], net(k)), envs, net, k + 1);
    }
  }

  /** What one tick meets: its network, and what becomes of its marking. */
  datatype Weather = Weather(net: nat -> BrokerChoice, mark: Outcome)
  {
    predicate Fair(limit: nat) {
      Clear(net, limit) && !mark.Fails?
    }
  }

  /** Ticks in a row, each in its own weather. */
  function Ticks(outbox: T.Outbox, stream: seq<Envelope>, limit: nat, ws: seq<Weather>): (T.Outbox, seq<Envelope>) {
    if ws == [] then (outbox, stream)
    else
      var n := |ws| - 1;
      var (o, s) := Ticks(outbox, stream, limit, ws[..n]);
      var (o', s', _) := Tick(o, s, limit, ws[n].net, ws[n].mark);
      (o', s')
  }

  function Min(a: nat, b: nat): nat {
    if a < b then a else b
  }

  lemma TickMarks(o: T.Outbox, stream: seq<Envelope>, limit: nat, net: nat -> BrokerChoice, mark: Outcome)
    ensures var (o', _, n) := Tick(o, stream, limit, net, mark);
            && n <= Min(limit, |T.Pending(o)|)
            && (Clear(net, limit) ==> n == Min(limit, |T.Pending(o)|))
            && o' == if !mark.Fails? then T.Mark(o, T.Pending(o)[..n]) else o
  {
    var envs := EnvelopesOf(o, T.Fetch(o, limit));
    FetchIsPrefix(o, limit, Send(stream, envs, net, 0).1);
    MarkNothing(o);
    if Clear(net, limit) {
      ClearSendsAll(stream, envs, net, 0);
    }
  }

  lemma FetchIsPrefix(o: T.Outbox, limit: nat, n: nat)
    requires n <= |T.Fetch(o, limit)|
    ensures |T.Fetch(o, limit)| == Min(limit, |T.Pending(o)|)
    ensures T.Fetch(o, limit)[..n] == T.Pending(o)[..n]
  {
  }

  lemma TickPending(o: T.Outbox, stream: seq<Envelope>, limit: nat, net: nat -> BrokerChoice, mark: Outcome)
    ensures var (o', _, n) := Tick(o, stream, limit, net, mark);
            && n <= |T.Pending(o)| && T.Pending(o') == T.Pending(o)[if !mark.Fails? then n else 0..]
            && (!mark.Fails? && Clear(net, limit) ==> T.Pending(o') == T.Pending(o)[Min(limit, |T.Pending(o)|)..])
  {
    TickMarks(o, stream, limit, net, mark);
    MarkPending(o, Tick(o, stream, limit, net, mark).2);
  }

  function PendingAfter(o: T.Outbox, stream: seq<Envelope>, limit: nat, ws: seq<Weather>): seq<nat> {
    T.Pending(Ticks(o, stream, limit, ws).0)
  }

  lemma OneMoreTick(o: T.Outbox, stream: seq<Envelope>, limit: nat, ws: seq<Weather>)
    returns (p: seq<nat>, p': seq<nat>)
    requires ws != []
    ensures p == PendingAfter(o, stream, limit, ws[..|ws| - 1]) && p' == PendingAfter(o, stream, limit, ws)
    ensures |p'| <= |p|
    ensures ws[|ws| - 1].Fair(limit) ==> p' == p[Min(limit, |p|)..]
  {
    var n := |ws| - 1;
    var (o1, s1) := Ticks(o, stream, limit, ws[..n]);
    TickPending(o1, s1, limit, ws[n].net, ws[n].mark);
    p, p' := T.Pending(o1), T.Pending(Ticks(o, stream, limit, ws).0);
  }

  /** What is pending along k ticks. */
  ghost predicate DrainsTo(p: seq<nat>, limit: nat, k: nat, p': seq<nat>) {
    p' == p[Min(Times(k, limit), |p|)..]
  }

  lemma DrainsFurther(p0: seq<nat>, limit: nat, k: nat, p: seq<nat>, p': seq<nat>)
    requires DrainsTo(p0, limit, k, p) && p' == p[Min(limit, |p|)..]
    ensures DrainsTo(p0, limit, k + 1, p')
  {
  }

  /** k times the batch size. */
  function Times(k: nat, limit: nat): (n: nat) {
    if k == 0 then 0 else Times(k - 1, limit) + limit
  }

  lemma {:induction false} TimesIsProduct(k: nat, limit: nat)
    ensures Times(k, limit) == k * limit
  {
    if k > 0 {
      TimesIsProduct(k - 1, limit);
      assert (k - 1) * limit + limit == k * limit;
    }
  }

  /** After k failure-free ticks exactly the first min(k * B, pending) rows have been marked. */
  lemma {:induction false} DrainBound(o: T.Outbox, stream: seq<Envelope>, limit: nat, ws: seq<Weather>)
    requires forall k :: 0 <= k < |ws| ==> ws[k].Fair(limit)
    ensures DrainsTo(T.Pending(o), limit, |ws|, PendingAfter(o, stream, limit, ws))
    decreases |ws|
  {
    if ws != [] {
      DrainBound(o, stream, limit, ws[..|ws| - 1]);
      var p, p' := OneMoreTick(o, stream, limit, ws);
      DrainsFurther(T.Pending(o), limit, |ws| - 1, p, p');
    }
  }

  /** ceil(pending / B). */
  function TicksNeeded(pending: nat, limit: nat): (k: nat)
    requires limit > 0
    ensures Times(k, limit) >= pending && (k > 0 ==> Times(k - 1, limit) < pending)
  {
    CeilingCovers(pending, limit);
    (pending + limit - 1) / limit
  }

  lemma CeilingCovers(pending: nat, limit: nat)
    requires limit > 0
    ensures var k := (pending + limit - 1) / limit;
            Times(k, limit) >= pending && (k > 0 ==> Times(k - 1, limit) < pending)
  {
    var q := pending + limit - 1;
    var k := q / limit;
    assert q == k * limit + q % limit;
    TimesIsProduct(k, limit);
  }

  /** So with B above 0, ceil(pending / B) failure-free ticks empty the outbox. */
  lemma DrainsInTime(o: T.Outbox, stream: seq<Envelope>, limit: nat, ws: seq<Weather>)
    requires limit > 0 && |ws| == TicksNeeded(|T.Pending(o)|, limit)
    requires forall k :: 0 <= k < |ws| ==> ws[k].Fair(limit)
    ensures PendingAfter(o, stream, limit, ws) == []
  {
    DrainBound(o, stream, limit, ws);
  }

  /** Failing or not, ticks never add to the pending rows. */
  lemma {:induction false} PendingNeverGrows(o: T.Outbox, stream: seq<Envelope>, limit: nat, ws: seq<Weather>)
    ensures |PendingAfter(o, stream, limit, ws)| <= |T.Pending(o)|
    decreases |ws|
  {
    if ws != [] {
      PendingNeverGrows(o, stream, limit, ws[..|ws| - 1]);
      var _, _ := OneMoreTick(o, stream, limit, ws);
    }
  }
}
