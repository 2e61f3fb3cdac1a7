/** The relay as an interleaving: fetch a batch, publish it row by row, mark what
    was acknowledged. Between any two of these the write side moves, and the
    relay may crash. The broker may store a publish whose acknowledgement is
    lost, and may drop a duplicate it still remembers. */
module RelaySteps {
  import opened LinkDomain
  import opened Tables
  import opened WriteSteps
  import opened Replay

  datatype RelayState =
    | Idle
    | Sending(batch: seq<nat>, next: nat, stopped: bool)

  /** What the relay works on. */
  datatype Flow = Flow(outbox: Outbox, relay: RelayState, stream: seq<DomainEvent>)

  datatype RelayAction =
    | FetchBatch(limit: nat)
    | Publish(stored: bool, acked: bool)
    | MarkBatch(ok: bool)
    | Crash

  predicate AboutToSend(f: Flow) {
    && f.relay.Sending? && !f.relay.stopped && f.relay.next < |f.relay.batch|
    && f.relay.batch[f.relay.next] < |f.outbox| && f.outbox[f.relay.batch[f.relay.next]].Row?
  }

  function NextEvent(f: Flow): DomainEvent
    requires AboutToSend(f)
  {
    f.outbox[f.relay.batch[f.relay.next]].event
  }

  predicate RelayEnabled(f: Flow, a: RelayAction) {
    match a
    case FetchBatch(limit) => f.relay.Idle? && Fetch(f.outbox, limit) != []
    case Publish(stored, acked) => AboutToSend(f) && (acked && !stored ==> NextEvent(f) in f.stream)
    case MarkBatch(_) => f.relay.Sending? && f.relay.next <= |f.relay.batch|
                         && (f.relay.stopped || f.relay.next == |f.relay.batch|)
    case Crash => f.relay.Sending?
  }

  function RelayNext(f: Flow, a: RelayAction): Flow
    requires RelayEnabled(f, a)
  {
    match a
    case FetchBatch(limit) => f.(relay := Sending(Fetch(f.outbox, limit), 0, false))
    case Publish(stored, acked) =>
      f.(stream := if stored then f.stream + [NextEvent(f)] else f.stream,
         relay := if acked then f.relay.(next := f.relay.next + 1) else f.relay.(stopped := true))
    case MarkBatch(ok) =>
      f.(outbox := if ok then Mark(f.outbox, f.relay.batch[..f.relay.next]) else f.outbox, relay := Idle)
    case Crash => f.(relay := Idle)
  }

  // ---------- the invariant ----------

  /** Row i has to precede row j: always for a link's creation and its disabling,
      and for every two rows if transactions commit in seq order. */
  ghost predicate Precedes(ordered: bool, o: Outbox, i: int, j: int) {
    && 0 <= i < j < |o| && o[i].Row? && o[j].Row?
    && (ordered || (o[i].event.LinkCreated? && o[j].event.LinkDisabled? && o[i].event.code == o[j].event.code))
  }

  ghost predicate IsPublished(o: Outbox, i: int) {
    0 <= i < |o| && o[i].Row? && o[i].published
  }

  ghost predicate HasRow(o: Outbox, e: DomainEvent) {
    exists i :: 0 <= i < |o| && o[i].Row? && o[i].event == e
  }

  /** The event's first occurrence, if any, is below position p. */
  ghost predicate SentBefore(stream: seq<DomainEvent>, e: DomainEvent, p: int) {
    0 <= p <= |stream| && e in stream[..p]
  }

  ghost predicate OrderKept(ordered: bool, o: Outbox, stream: seq<DomainEvent>) {
    forall i, j, p :: Precedes(ordered, o, i, j) && 0 <= p < |stream| && stream[p] == o[j].event
      ==> SentBefore(stream, o[i].event, p)
  }

  ghost predicate BatchInv(ordered: bool, f: Flow)
    requires f.relay.Sending?
  {
    var b, n := f.relay.batch, f.relay.next;
    && n <= |b|
    && (forall k, m :: 0 <= k < m < |b| ==> b[k] < b[m])
    && (forall k :: 0 <= k < |b| ==> b[k] < |f.outbox| && Unpublished(f.outbox[b[k]]))
    && (forall k :: 0 <= k < n ==> f.outbox[b[k]].event in f.stream)
    && (forall i, j :: Precedes(ordered, f.outbox, i, j) && j in b ==> IsPublished(f.outbox, i) || i in b)
  }

  ghost predicate FlowInv(ordered: bool, f: Flow) {
    && (forall e :: e in f.stream ==> HasRow(f.outbox, e))
    && (forall i :: IsPublished(f.outbox, i) ==> f.outbox[i].event in f.stream)
    && (forall i, j :: Precedes(ordered, f.outbox, i, j) && IsPublished(f.outbox, j) ==> IsPublished(f.outbox, i))
    && OrderKept(ordered, f.outbox, f.stream)
    && (f.relay.Sending? ==> BatchInv(ordered, f))
  }

  /** Row j has been published as far as the relay knows. */
  ghost predicate Acknowledged(f: Flow, j: int) {
    || IsPublished(f.outbox, j)
    || (f.relay.Sending? && f.relay.next <= |f.relay.batch| && j in f.relay.batch[..f.relay.next])
  }

  ghost predicate LastIsDisabled(stream: seq<DomainEvent>, code: Code) {
    LastLifecycle(stream, code).Some? && LastLifecycle(stream, code).value.LinkDisabled?
  }

  /** Once the relay takes a LinkDisabled for delivered, the stream's last word on the code is a LinkDisabled. */
  ghost predicate Settled(f: Flow) {
    forall j, c :: DisabledRow(f.outbox, j, c) && Acknowledged(f, j) ==> LastIsDisabled(f.stream, c)
  }

  /** The broker drops a duplicate LinkDisabled only while it is the last word on its code. */
  ghost predicate SafeDrop(f: Flow, a: RelayAction) {
    a.Publish? && a.acked && !a.stored && AboutToSend(f) && NextEvent(f).LinkDisabled? ==>
      LastIsDisabled(f.stream, NextEvent(f).code)
  }

  ghost predicate NoOpenBelowRow(o: Outbox) {
    forall i, j :: 0 <= i < j < |o| && o[j].Row? ==> !o[i].Open?
  }

  // ---------- relay steps ----------

  lemma SameEventSameRow(o: Outbox, i: int, j: int)
    requires EventIdsDistinct(o) && 0 <= i < |o| && 0 <= j < |o| && o[i].Row? && o[j].Row? && o[i].event == o[j].event
    ensures i == j
  {
  }

  /** A batch holds every unpublished row below any of its own. */
  lemma FetchIsClosed(o: Outbox, limit: nat, i: nat, j: nat)
    requires i < j && i < |o| && Unpublished(o[i]) && j in Fetch(o, limit)
    ensures i in Fetch(o, limit)
  {
  }

  lemma FetchKeepsInv(ordered: bool, f: Flow, limit: nat)
    requires FlowInv(ordered, f) && RelayEnabled(f, FetchBatch(limit))
    ensures FlowInv(ordered, RelayNext(f, FetchBatch(limit)))
  {
    var b := Fetch(f.outbox, limit);
    forall i, j | Precedes(ordered, f.outbox, i, j) && j in b ensures IsPublished(f.outbox, i) || i in b {
      if !IsPublished(f.outbox, i) {
        FetchIsClosed(f.outbox, limit, i, j);
      }
    }
  }

  lemma MarkedRows(o: Outbox, seqs: seq<nat>)
    requires forall k :: 0 <= k < |seqs| ==> seqs[k] < |o| && o[seqs[k]].Row?
    ensures forall i :: IsPublished(Mark(o, seqs), i) <==> IsPublished(o, i) || i in seqs
    ensures forall e :: HasRow(o, e) ==> HasRow(Mark(o, seqs), e)
    ensures forall ordered, i, j :: Precedes(ordered, Mark(o, seqs), i, j) <==> Precedes(ordered, o, i, j)
  {
    var o' := Mark(o, seqs);
    forall e | HasRow(o, e) ensures HasRow(o', e) {
      var i :| 0 <= i < |o| && o[i].Row? && o[i].event == e;
      assert o'[i].event == e;
    }
  }

  /** What the relay sent below b[n] includes everything that has to precede b[n]. */
  lemma PredecessorSent(ordered: bool, f: Flow, i: int)
    requires FlowInv(ordered, f) && AboutToSend(f) && Precedes(ordered, f.outbox, i, f.relay.batch[f.relay.next])
    ensures f.outbox[i].event in f.stream
  {
  }

  lemma PublishKeepsOrder(ordered: bool, f: Flow, a: RelayAction)
    requires EventIdsDistinct(f.outbox) && FlowInv(ordered, f) && a.Publish? && RelayEnabled(f, a)
    ensures OrderKept(ordered, f.outbox, RelayNext(f, a).stream)
  {
    var s' := RelayNext(f, a).stream;
    forall i, j, p | Precedes(ordered, f.outbox, i, j) && 0 <= p < |s'| && s'[p] == f.outbox[j].event
      ensures SentBefore(s', f.outbox[i].event, p)
    {
      if p < |f.stream| {
        assert SentBefore(f.stream, f.outbox[i].event, p);
        assert s'[..p] == f.stream[..p];
      } else {
        SameEventSameRow(f.outbox, j, f.relay.batch[f.relay.next]);
        PredecessorSent(ordered, f, i);
        assert s'[..p] == f.stream;
      }
    }
  }

  lemma PublishKeepsBatch(ordered: bool, f: Flow, a: RelayAction)
    requires FlowInv(ordered, f) && a.Publish? && RelayEnabled(f, a)
    ensures BatchInv(ordered, RelayNext(f, a))
  {
    var f', b := RelayNext(f, a), f.relay.batch;
    forall k | 0 <= k < f'.relay.next ensures f'.outbox[b[k]].event in f'.stream {
      if k < f.relay.next {
        assert f.outbox[b[k]].event in f.stream;
      } else {
        assert f'.outbox[b[k]].event == NextEvent(f);
      }
    }
  }

  lemma PublishKeepsInv(ordered: bool, f: Flow, a: RelayAction)
    requires EventIdsDistinct(f.outbox) && FlowInv(ordered, f) && a.Publish? && RelayEnabled(f, a)
    ensures FlowInv(ordered, RelayNext(f, a))
  {
    PublishKeepsOrder(ordered, f, a);
    PublishKeepsBatch(ordered, f, a);
    assert HasRow(f.outbox, NextEvent(f));
  }

  lemma MarkKeepsPrefix(ordered: bool, f: Flow, i: int, j: int)
    requires FlowInv(ordered, f) && f.relay.Sending? && Precedes(ordered, f.outbox, i, j)
             && j in f.relay.batch[..f.relay.next]
    ensures IsPublished(f.outbox, i) || i in f.relay.batch[..f.relay.next]
  {
  }

  lemma MarkKeepsOrder(ordered: bool, o: Outbox, o': Outbox, stream: seq<DomainEvent>)
    requires OrderKept(ordered, o, stream) && |o'| == |o|
    requires forall i :: 0 <= i < |o| && o'[i].Row? ==> o[i].Row? && o[i].event == o'[i].event
    ensures OrderKept(ordered, o', stream)
  {
  }

  lemma MarkKeepsInv(ordered: bool, f: Flow, ok: bool)
    requires FlowInv(ordered, f) && RelayEnabled(f, MarkBatch(ok))
    ensures FlowInv(ordered, RelayNext(f, MarkBatch(ok)))
  {
    var b, n := f.relay.batch, f.relay.next;
    var f' := RelayNext(f, MarkBatch(ok));
    if ok {
      MarkedRows(f.outbox, b[..n]);
      forall i, j | Precedes(ordered, f'.outbox, i, j) && IsPublished(f'.outbox, j) ensures IsPublished(f'.outbox, i) {
        assert Precedes(ordered, f.outbox, i, j);
        if j in b[..n] {
          MarkKeepsPrefix(ordered, f, i, j);
        }
      }
      MarkKeepsOrder(ordered, f.outbox, f'.outbox, f.stream);
    }
  }

  lemma RelayStepKeepsInv(ordered: bool, f: Flow, a: RelayAction)
    requires EventIdsDistinct(f.outbox) && FlowInv(ordered, f) && RelayEnabled(f, a)
    ensures FlowInv(ordered, RelayNext(f, a))
  {
    match a
    case FetchBatch(limit) => FetchKeepsInv(ordered, f, limit);
    case Publish(_, _) => PublishKeepsInv(ordered, f, a);
    case MarkBatch(ok) => MarkKeepsInv(ordered, f, ok);
    case Crash =>
  }

  /** A LinkCreated about to be sent has no acknowledged LinkDisabled. */
  lemma CreatedNotSettled(w: Write, f: Flow, j: int)
    requires WriteInv(w) && w.outbox == f.outbox && FlowInv(false, f) && AboutToSend(f) && NextEvent(f).LinkCreated?
    requires DisabledRow(f.outbox, j, NextEvent(f).code)
    ensures !Acknowledged(f, j)
  {
    var b, n := f.relay.batch, f.relay.next;
    var i, code := b[n], NextEvent(f).code;
    assert CreatedRow(w.outbox, i, code);
    CreatedBeforeDisabled(w, i, j, code);
    assert Precedes(false, f.outbox, i, j);
  }

  lemma PublishKeepsSettled(w: Write, f: Flow, a: RelayAction)
    requires WriteInv(w) && w.outbox == f.outbox && FlowInv(false, f) && Settled(f)
    requires a.Publish? && RelayEnabled(f, a) && SafeDrop(f, a)
    ensures Settled(RelayNext(f, a))
  {
    var f', e := RelayNext(f, a), NextEvent(f);
    forall j, c | DisabledRow(f'.outbox, j, c) && Acknowledged(f', j) ensures LastIsDisabled(f'.stream, c) {
      NewlyAcknowledged(f, a, j);
      if Acknowledged(f, j) {
        if e.LinkCreated? && e.code == c {
          CreatedNotSettled(w, f, j);
        }
        StillDisabled(f.stream, e, c);
      } else {
        EndsDisabled(f.stream, e, c);
      }
    }
  }

  /** The condition on drops is the exact one: a publish that breaks it leaves an
      acknowledged LinkDisabled that is not the stream's last word. */
  lemma SettledExact(w: Write, f: Flow, a: RelayAction)
    requires WriteInv(w) && w.outbox == f.outbox && FlowInv(false, f) && Settled(f)
    requires a.Publish? && RelayEnabled(f, a)
    ensures Settled(RelayNext(f, a)) <==> SafeDrop(f, a)
  {
    if SafeDrop(f, a) {
      PublishKeepsSettled(w, f, a);
    } else {
      var f', j := RelayNext(f, a), f.relay.batch[f.relay.next];
      assert f'.relay.batch[..f'.relay.next][f.relay.next] == j;
      assert DisabledRow(f'.outbox, j, NextEvent(f).code) && Acknowledged(f', j);
    }
  }

  lemma NewlyAcknowledged(f: Flow, a: RelayAction, j: int)
    requires a.Publish? && RelayEnabled(f, a) && Acknowledged(RelayNext(f, a), j)
    ensures Acknowledged(f, j) || (a.acked && f.outbox[j].event == NextEvent(f))
  {
  }

  lemma StillDisabled(stream: seq<DomainEvent>, e: DomainEvent, c: Code)
    requires LastIsDisabled(stream, c) && !(e.LinkCreated? && e.code == c)
    ensures LastIsDisabled(stream + [e], c)
  {
  }

  lemma EndsDisabled(stream: seq<DomainEvent>, e: DomainEvent, c: Code)
    requires e.LinkDisabled? && e.code == c
    ensures LastIsDisabled(stream + [e], c)
  {
  }

  lemma RelayStepKeepsSettled(w: Write, f: Flow, a: RelayAction)
    requires WriteInv(w) && w.outbox == f.outbox && FlowInv(false, f) && Settled(f)
    requires RelayEnabled(f, a) && SafeDrop(f, a)
    ensures Settled(RelayNext(f, a))
  {
    var f' := RelayNext(f, a);
    match a
    case Publish(_, _) => PublishKeepsSettled(w, f, a);
    case MarkBatch(ok) =>
      MarkedRows(f.outbox, f.relay.batch[..f.relay.next]);
      forall j, c | DisabledRow(f'.outbox, j, c) && Acknowledged(f', j) ensures LastIsDisabled(f'.stream, c) {
        assert DisabledRow(f.outbox, j, c) && Acknowledged(f, j);
      }
    case FetchBatch(limit) =>
      forall j, c | DisabledRow(f'.outbox, j, c) && Acknowledged(f', j) ensures LastIsDisabled(f'.stream, c) {
        assert Acknowledged(f, j);
      }
    case Crash =>
      forall j, c | DisabledRow(f'.outbox, j, c) && Acknowledged(f', j) ensures LastIsDisabled(f'.stream, c) {
        assert Acknowledged(f, j);
      }
  }

  ghost predicate SameRows(o: Outbox, o': Outbox) {
    && |o| == |o'|
    && forall i :: 0 <= i < |o| ==> o'[i] == o[i] || (o[i].Row? && o'[i].Row? && o'[i].event == o[i].event)
  }

  lemma SameRowsKeepWrite(w: Write, o': Outbox)
    requires WriteInv(w) && SameRows(w.outbox, o')
    ensures WriteInv(w.(outbox := o'))
  {
    var w' := w.(outbox := o');
    assert forall i, c :: CreatedRow(o', i, c) <==> CreatedRow(w.outbox, i, c);
    assert forall i, c :: DisabledRow(o', i, c) <==> DisabledRow(w.outbox, i, c);
    assert forall j, c :: CreatedBelow(w.outbox, j, c) ==> CreatedBelow(o', j, c);
    forall j: nat | IsOpen(o', j) ensures OpenOk(w', j) { assert IsOpen(w.outbox, j) && OpenOk(w, j); }
    forall j: nat | j < |o'| && o'[j].Row? ensures RowOk(w', j) { assert w.outbox[j].Row? && RowOk(w, j); }
    forall id | id in w'.links ensures LinkOk(w', id) { assert LinkOk(w, id); }
    SameRowsKeepIds(w.outbox, o');
  }

  lemma SameRowsKeepIds(o: Outbox, o': Outbox)
    requires SameRows(o, o') && EventIdsDistinct(o) && LinkIdsDistinct(o)
    ensures EventIdsDistinct(o') && LinkIdsDistinct(o')
  {
  }

  /** The relay only flips published flags, so the write side's invariant is untouched. */
  lemma RelayStepKeepsWrite(w: Write, f: Flow, a: RelayAction)
    requires WriteInv(w) && w.outbox == f.outbox && RelayEnabled(f, a)
    ensures WriteInv(w.(outbox := RelayNext(f, a).outbox)) && SameRows(f.outbox, RelayNext(f, a).outbox)
  {
    SameRowsKeepWrite(w, RelayNext(f, a).outbox);
  }

  // ---------- write steps under a running relay ----------

  predicate NoOpenBelow(o: Outbox, k: nat) {
    forall i :: 0 <= i < k && i < |o| ==> !o[i].Open?
  }

  /** In the ordered mode a transaction commits only after every smaller seq number has ended. */
  predicate CommitsInOrder(w: Write, a: WriteAction) {
    a.Commit? ==> NoOpenBelow(w.outbox, a.slot)
  }

  lemma OrderedStep(w: Write, a: WriteAction)
    requires WriteEnabled(w, a) && CommitsInOrder(w, a) && NoOpenBelowRow(w.outbox)
    ensures NoOpenBelowRow(WriteNext(w, a).outbox)
  {
  }

  /** A write step puts no new row in front of an old one it would have to precede. */
  lemma NoLatePredecessor(ordered: bool, w: Write, a: WriteAction, i: int, j: int)
    requires WriteInv(w) && WriteEnabled(w, a)
    requires ordered ==> CommitsInOrder(w, a) && NoOpenBelowRow(w.outbox)
    requires Precedes(ordered, WriteNext(w, a).outbox, i, j) && j < |w.outbox| && w.outbox[j].Row?
    ensures Precedes(ordered, w.outbox, i, j)
  {
  }

  lemma WriteStepKeepsStream(w: Write, a: WriteAction, stream: seq<DomainEvent>)
    requires WriteInv(w) && WriteEnabled(w, a)
    ensures forall e :: HasRow(w.outbox, e) ==> HasRow(WriteNext(w, a).outbox, e)
  {
    WriteStepExtends(w, a);
    forall e | HasRow(w.outbox, e) ensures HasRow(WriteNext(w, a).outbox, e) {
      var i :| 0 <= i < |w.outbox| && w.outbox[i].Row? && w.outbox[i].event == e;
      assert WriteNext(w, a).outbox[i].event == e;
    }
  }

  lemma WriteStepPublishes(w: Write, a: WriteAction)
    requires WriteInv(w) && WriteEnabled(w, a)
    ensures forall i :: IsPublished(WriteNext(w, a).outbox, i) <==> IsPublished(w.outbox, i)
  {
  }

  lemma WriteStepKeepsOrder(ordered: bool, w: Write, a: WriteAction, f: Flow)
    requires WriteInv(w) && WriteEnabled(w, a) && w.outbox == f.outbox && FlowInv(ordered, f)
    requires ordered ==> CommitsInOrder(w, a) && NoOpenBelowRow(w.outbox)
    ensures OrderKept(ordered, WriteNext(w, a).outbox, f.stream)
  {
    var o' := WriteNext(w, a).outbox;
    WriteStepExtends(w, a);
    WriteStepKeepsInv(w, a);
    forall i, j, p | Precedes(ordered, o', i, j) && 0 <= p < |f.stream| && f.stream[p] == o'[j].event
      ensures SentBefore(f.stream, o'[i].event, p)
    {
      assert f.stream[p] in f.stream;
      var m :| 0 <= m < |f.outbox| && f.outbox[m].Row? && f.outbox[m].event == f.stream[p];
      SameEventSameRow(o', m, j);
      NoLatePredecessor(ordered, w, a, i, j);
    }
  }

  lemma WriteStepKeepsFlow(ordered: bool, w: Write, a: WriteAction, f: Flow)
    requires WriteInv(w) && WriteEnabled(w, a) && w.outbox == f.outbox && FlowInv(ordered, f)
    requires ordered ==> CommitsInOrder(w, a) && NoOpenBelowRow(w.outbox)
    ensures FlowInv(ordered, f.(outbox := WriteNext(w, a).outbox))
  {
    var o' := WriteNext(w, a).outbox;
    WriteStepExtends(w, a);
    WriteStepPublishes(w, a);
    WriteStepKeepsStream(w, a, f.stream);
    WriteStepKeepsOrder(ordered, w, a, f);
    forall i, j | Precedes(ordered, o', i, j) && IsPublished(o', j) ensures IsPublished(o', i) {
      NoLatePredecessor(ordered, w, a, i, j);
    }
    if f.relay.Sending? {
      WriteStepKeepsBatch(ordered, w, a, f);
    }
  }

  lemma WriteStepKeepsBatch(ordered: bool, w: Write, a: WriteAction, f: Flow)
    requires WriteInv(w) && WriteEnabled(w, a) && w.outbox == f.outbox && f.relay.Sending? && BatchInv(ordered, f)
    requires ordered ==> CommitsInOrder(w, a) && NoOpenBelowRow(w.outbox)
    ensures BatchInv(ordered, f.(outbox := WriteNext(w, a).outbox))
  {
    var o' := WriteNext(w, a).outbox;
    WriteStepExtends(w, a);
    WriteStepPublishes(w, a);
    forall i, j | Precedes(ordered, o', i, j) && j in f.relay.batch ensures IsPublished(o', i) || i in f.relay.batch {
      NoLatePredecessor(ordered, w, a, i, j);
    }
  }

  lemma WriteStepKeepsSettled(w: Write, a: WriteAction, f: Flow)
    requires WriteInv(w) && WriteEnabled(w, a) && w.outbox == f.outbox && FlowInv(false, f) && Settled(f)
    ensures Settled(f.(outbox := WriteNext(w, a).outbox))
  {
    var f' := f.(outbox := WriteNext(w, a).outbox);
    WriteStepExtends(w, a);
    forall j, c | DisabledRow(f'.outbox, j, c) && Acknowledged(f', j) ensures LastIsDisabled(f'.stream, c) {
      assert DisabledRow(f.outbox, j, c) && Acknowledged(f, j);
    }
  }
}
