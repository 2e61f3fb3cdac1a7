/** The relay's comment says stopping at a failed publish preserves ordering. It
    does within a batch; across transactions, seq order in the stream depends on
    the order in which they commit. Here is exactly when it holds. */
module CommitOrder {
  import opened LinkDomain
  import opened Tables
  import opened WriteSteps
  import opened RelaySteps
  import opened Pipeline

  /** In the stream, every event comes after all committed rows of smaller seq. */
  ghost predicate SeqOrdered(s: Sys) {
    OrderKept(true, s.write.outbox, s.stream)
  }

  /** A commit overtakes nothing: no row of larger seq is in the stream yet. A
      publish overtakes nothing: every committed row of smaller seq is in the stream. */
  predicate InTurn(s: Sys, a: Action)
    requires Enabled(s, a)
  {
    match a
    case ByApi(Commit(k)) =>
      forall j :: k < j < |s.write.outbox| && s.write.outbox[j].Row? ==> s.write.outbox[j].event !in s.stream
    case ByRelay(Publish(stored, _)) =>
      var o, b := s.write.outbox, s.relay.batch[s.relay.next];
      stored ==> forall i :: 0 <= i < b && o[i].Row? ==> o[i].event in s.stream
    case _ => true
  }

  ghost predicate AllInTurn(m: Assumptions, s: Sys, acts: seq<Action>, s': Sys)
    requires Run(m, s, acts, s')
    decreases acts
  {
    acts != [] ==> InTurn(s, acts[0]) && AllInTurn(m, Next(s, acts[0]), acts[1..], s')
  }

  lemma CommitInTurn(o: Outbox, k: nat, e: DomainEvent, stream: seq<DomainEvent>)
    requires k < |o| && o[k].Open? && OrderKept(true, o, stream) && e !in stream
    requires forall j :: k < j < |o| && o[j].Row? ==> o[j].event !in stream
    ensures OrderKept(true, o[k := Row(e, false)], stream)
  {
  }

  lemma CommitOutOfTurn(o: Outbox, k: nat, e: DomainEvent, stream: seq<DomainEvent>)
    requires k < |o| && o[k].Open? && OrderKept(true, o[k := Row(e, false)], stream) && e !in stream
    ensures OrderKept(true, o, stream)
    ensures forall j :: k < j < |o| && o[j].Row? ==> o[j].event !in stream
  {
    var o' := o[k := Row(e, false)];
    forall i, j, p | Precedes(true, o, i, j) && 0 <= p < |stream| && stream[p] == o[j].event
      ensures SentBefore(stream, o[i].event, p)
    {
      assert Precedes(true, o', i, j);
    }
    forall p ensures !SentBefore(stream, e, p) {
      if 0 <= p <= |stream| { assert stream == stream[..p] + stream[p..]; }
    }
    forall j, p | k < j < |o| && o[j].Row? && 0 <= p < |stream| ensures stream[p] != o[j].event {
      assert Precedes(true, o', k, j);
    }
  }

  lemma CommitOrderExact(m: Assumptions, s: Sys, k: nat)
    requires Inv(m, s) && Enabled(s, ByApi(Commit(k)))
    ensures SeqOrdered(Next(s, ByApi(Commit(k)))) <==> SeqOrdered(s) && InTurn(s, ByApi(Commit(k)))
  {
    var e := s.write.outbox[k].tx.event;
    CommittingIsNew(s.write, k);
    assert e !in s.stream;
    if SeqOrdered(s) && InTurn(s, ByApi(Commit(k))) {
      CommitInTurn(s.write.outbox, k, e, s.stream);
    }
    if SeqOrdered(Next(s, ByApi(Commit(k)))) {
      CommitOutOfTurn(s.write.outbox, k, e, s.stream);
    }
  }

  /** The committing event has no row yet. */
  lemma CommittingIsNew(w: Write, k: nat)
    requires WriteInv(w) && IsOpen(w.outbox, k)
    ensures !HasRow(w.outbox, w.outbox[k].tx.event)
  {
  }

  lemma OrderOfPrefix(o: Outbox, stream: seq<DomainEvent>, b: int)
    requires 0 <= b < |o| && o[b].Row? && OrderKept(true, o, stream + [o[b].event])
    ensures OrderKept(true, o, stream)
    ensures forall i :: 0 <= i < b && o[i].Row? ==> o[i].event in stream
  {
    var stream' := stream + [o[b].event];
    forall i, j, p | Precedes(true, o, i, j) && 0 <= p < |stream| && stream[p] == o[j].event
      ensures SentBefore(stream, o[i].event, p)
    {
      assert stream'[p] == o[j].event;
      assert SentBefore(stream', o[i].event, p);
      assert stream'[..p] == stream[..p];
    }
    forall i | 0 <= i < b && o[i].Row? ensures o[i].event in stream {
      assert Precedes(true, o, i, b) && stream'[|stream|] == o[b].event;
      assert SentBefore(stream', o[i].event, |stream|);
      assert stream'[..|stream|] == stream;
    }
  }

  lemma OrderOfAppend(o: Outbox, stream: seq<DomainEvent>, b: int)
    requires EventIdsDistinct(o) && 0 <= b < |o| && o[b].Row? && OrderKept(true, o, stream)
    requires forall i :: 0 <= i < b && o[i].Row? ==> o[i].event in stream
    ensures OrderKept(true, o, stream + [o[b].event])
  {
    var stream' := stream + [o[b].event];
    forall i, j, p | Precedes(true, o, i, j) && 0 <= p < |stream'| && stream'[p] == o[j].event
      ensures SentBefore(stream', o[i].event, p)
    {
      if p < |stream| {
        assert SentBefore(stream, o[i].event, p);
        assert stream'[..p] == stream[..p];
      } else {
        SameEventSameRow(o, j, b);
        assert stream'[..p] == stream;
      }
    }
  }

  lemma PublishOrderExact(m: Assumptions, s: Sys, a: Action)
    requires Inv(m, s) && Enabled(s, a) && a.ByRelay? && a.relay.Publish?
    ensures SeqOrdered(Next(s, a)) <==> SeqOrdered(s) && InTurn(s, a)
  {
    var o, b := s.write.outbox, s.relay.batch[s.relay.next];
    if a.relay.stored {
      if OrderKept(true, o, s.stream + [o[b].event]) { OrderOfPrefix(o, s.stream, b); }
      if SeqOrdered(s) && InTurn(s, a) { OrderOfAppend(o, s.stream, b); }
    }
  }

  /** Order is about the rows: adding slots that are none changes nothing. */
  lemma SameRowsSameOrder(o: Outbox, o': Outbox, stream: seq<DomainEvent>)
    requires |o| <= |o'| && forall i :: 0 <= i < |o'| && o'[i].Row? ==> i < |o|
    requires forall i :: 0 <= i < |o| ==> (o[i].Row? <==> o'[i].Row?) && (o[i].Row? ==> o[i].event == o'[i].event)
    ensures OrderKept(true, o', stream) <==> OrderKept(true, o, stream)
  {
  }

  lemma OtherStepsKeepOrder(m: Assumptions, s: Sys, a: Action)
    requires Inv(m, s) && Enabled(s, a) && !(a.ByApi? && a.write.Commit?) && !(a.ByRelay? && a.relay.Publish?)
    ensures SeqOrdered(Next(s, a)) <==> SeqOrdered(s)
  {
    match a
    case ByApi(w) => OtherWritesKeepOrder(s.write, w, s.stream);
    case ByRelay(r) => OtherRelayStepsKeepOrder(FlowOf(s), r);
    case ByProjector(_) =>
  }

  lemma OtherWritesKeepOrder(w: Write, a: WriteAction, stream: seq<DomainEvent>)
    requires WriteEnabled(w, a) && !a.Commit?
    ensures OrderKept(true, WriteNext(w, a).outbox, stream) <==> OrderKept(true, w.outbox, stream)
  {
    SameRowsSameOrder(w.outbox, WriteNext(w, a).outbox, stream);
  }

  lemma OtherRelayStepsKeepOrder(f: Flow, a: RelayAction)
    requires RelayEnabled(f, a) && !a.Publish?
    ensures OrderKept(true, RelayNext(f, a).outbox, RelayNext(f, a).stream) <==> OrderKept(true, f.outbox, f.stream)
  {
    SameRowsSameOrder(f.outbox, RelayNext(f, a).outbox, f.stream);
  }

  lemma StepOrderExact(m: Assumptions, s: Sys, a: Action)
    requires Inv(m, s) && Enabled(s, a)
    ensures SeqOrdered(Next(s, a)) <==> SeqOrdered(s) && InTurn(s, a)
  {
    if a.ByApi? && a.write.Commit? {
      CommitOrderExact(m, s, a.write.slot);
    } else if a.ByRelay? && a.relay.Publish? {
      PublishOrderExact(m, s, a);
    } else {
      OtherStepsKeepOrder(m, s, a);
    }
  }

  lemma {:induction false} RunOrderExact(m: Assumptions, s: Sys, acts: seq<Action>, s': Sys)
    requires Inv(m, s) && Run(m, s, acts, s')
    ensures SeqOrdered(s') <==> SeqOrdered(s) && AllInTurn(m, s, acts, s')
    decreases acts
  {
    if acts != [] {
      StepKeepsInv(m, s, acts[0]);
      StepOrderExact(m, s, acts[0]);
      RunOrderExact(m, Next(s, acts[0]), acts[1..], s');
    }
  }

  /** The stream is in seq order at the end of a run exactly when no commit and no
      publish of the run overtook a row, and one that did is never made good. */
  lemma SeqOrderExact(m: Assumptions, s0: Sys, acts: seq<Action>, s: Sys)
    requires Init(s0) && Run(m, s0, acts, s)
    ensures SeqOrdered(s) <==> AllInTurn(m, s0, acts, s)
  {
    InitInv(m, s0);
    RunOrderExact(m, s0, acts, s);
  }

  /** Commits in seq order are enough: then nothing is ever overtaken. */
  lemma OrderedCommitsStayInTurn(m: Assumptions, s0: Sys, acts: seq<Action>, s: Sys)
    requires m.ordered && Init(s0) && Run(m, s0, acts, s)
    ensures AllInTurn(m, s0, acts, s)
  {
    InitInv(m, s0);
    RunKeepsInv(m, s0, acts, s);
    SeqOrderExact(m, s0, acts, s);
  }
}
