/** The projector as an interleaving. Messages are delivered in any order and as
    often as the broker likes, even once more when a delivery was on its way while
    the acknowledgement of an earlier one arrived; every write
    may fail, or succeed without the projector learning it; the process may crash
    anywhere; Redis may be wiped at any moment. */
module ProjectorSteps {
  import opened Wrappers
  import opened LinkDomain
  import opened Tables
  import opened WriteSteps
  import opened Replay
  import opened RelaySteps

  datatype Mode =
    | Down
    | BootLinks(links: Links)
    | BootClicks(counts: map<Code, nat>, clean: bool)
    | Ready
    | Counted(pos: nat, total: nat)
    | Handled(pos: nat)

  /** Tables and read model first, then the broker's acknowledgements. `applied`,
      `recorded`, `wiped` and `mirrored` are history: the link-map writes since the
      last wipe, the positions whose click was recorded, whether Redis was ever
      wiped, and whether a Bootstrap has written every counter since. */
  datatype Proj = Proj(
    processed: set<Id>, analytics: map<Code, nat>,
    linkKeys: LinkMap, clickKeys: map<Code, nat>,
    acked: set<nat>, mode: Mode,
    applied: seq<DomainEvent>, recorded: set<nat>, wiped: bool, mirrored: bool)

  datatype ProjAction =
    | Start(ok: bool)
    | BootLink(id: Id, write: Outcome)
    | BootRead(ok: bool)
    | BootClick(code: Code, write: Outcome)
    | BootEnd
    | Deliver(pos: nat, write: Outcome)
    | SetClicks(write: Outcome)
    | Ack(arrives: bool)
    | Crash
    | Wipe

  /** A Bootstrap write, told as the event that would have caused it. */
  function BootEvent(id: Id, row: LinkRow): DomainEvent {
    if row.status.Disabled? then LinkDisabled(0, id, row.code) else LinkCreated(0, id, row.code, row.url)
  }

  predicate ProjEnabled(p: Proj, links: Links, stream: seq<DomainEvent>, a: ProjAction) {
    match a
    case Start(_) => p.mode.Down?
    case BootLink(id, _) => p.mode.BootLinks? && id in p.mode.links
    case BootRead(_) => p.mode.BootLinks? && p.mode.links == map[]
    case BootClick(code, _) => p.mode.BootClicks? && code in p.mode.counts
    case BootEnd => p.mode.BootClicks? && p.mode.counts == map[]
    case Deliver(pos, _) => p.mode.Ready? && pos < |stream|
    case SetClicks(_) => p.mode.Counted? && p.mode.pos < |stream|
    case Ack(_) => p.mode.Handled?
    case Crash => true
    case Wipe => true
  }

  function ApplyLink(p: Proj, e: DomainEvent): Proj {
    p.(linkKeys := Project(p.linkKeys, e), applied := p.applied + [e])
  }

  function DeliverNext(p: Proj, pos: nat, e: DomainEvent, write: Outcome): Proj {
    if write.Fails? then p
    else if e.LinkClicked? then
      var (processed, analytics) := CountClick(p.processed, p.analytics, e.id, e.code);
      p.(processed := processed, analytics := analytics, recorded := p.recorded + {pos},
         mode := if write.Succeeds? then Counted(pos, Clicks(analytics, e.code)) else Ready)
    else ApplyLink(p, e).(mode := if write.Succeeds? then Handled(pos) else Ready)
  }

  function ProjNext(p: Proj, links: Links, stream: seq<DomainEvent>, a: ProjAction): Proj
    requires ProjEnabled(p, links, stream, a)
  {
    match a
    case Start(ok) => p.(mode := if ok then BootLinks(links) else Ready)
    case BootLink(id, write) =>
      var written := if write.Fails? then p else ApplyLink(p, BootEvent(id, p.mode.links[id]));
      written.(mode := BootLinks(p.mode.links - {id}))
    case BootRead(ok) => p.(mode := if ok then BootClicks(p.analytics, true) else Ready)
    case BootClick(code, write) =>
      p.(clickKeys := if write.Fails? then p.clickKeys else p.clickKeys[code := p.mode.counts[code]],
         mode := BootClicks(p.mode.counts - {code}, p.mode.clean && !write.Fails?))
    case BootEnd => p.(mode := Ready, mirrored := p.mirrored || p.mode.clean)
    case Deliver(pos, write) => DeliverNext(p, pos, stream[pos], write)
    case SetClicks(write) =>
      p.(clickKeys := if write.Fails? then p.clickKeys else p.clickKeys[stream[p.mode.pos].code := p.mode.total],
         mode := if write.Succeeds? then Handled(p.mode.pos) else Ready)
    case Ack(arrives) => p.(acked := if arrives then p.acked + {p.mode.pos} else p.acked, mode := Ready)
    case Crash => p.(mode := Down)
    case Wipe =>
      p.(linkKeys := map[], clickKeys := map[], applied := [], wiped := true, mirrored := false,
         mode := if p.mode.BootClicks? then p.mode.(clean := false) else p.mode)
  }

  ghost predicate ProjInit(p: Proj) {
    p == Proj({}, map[], map[], map[], {}, Down, [], {}, false, false)
  }

  // ---------- exactly-once counting ----------

  predicate ClickRow(o: Outbox, i: int, code: Code) {
    0 <= i < |o| && o[i].Row? && o[i].event.LinkClicked? && o[i].event.code == code
  }

  /** Seq numbers of the code's click rows. */
  ghost function ClickRows(o: Outbox, code: Code): set<int> {
    set i | 0 <= i < |o| && ClickRow(o, i, code)
  }

  /** Those whose event id the projector has processed. */
  ghost function CountedRows(o: Outbox, processed: set<Id>, code: Code): set<int> {
    set i | 0 <= i < |o| && ClickRow(o, i, code) && o[i].event.id in processed
  }

  ghost predicate IsClickId(o: Outbox, id: Id) {
    exists i, c :: ClickRow(o, i, c) && o[i].event.id == id
  }

  ghost predicate CountInv(o: Outbox, p: Proj) {
    && (forall id :: id in p.processed ==> IsClickId(o, id))
    && (forall c :: Clicks(p.analytics, c) == |CountedRows(o, p.processed, c)|)
  }

  ghost predicate AckInv(stream: seq<DomainEvent>, p: Proj) {
    && (forall pos :: pos in p.acked ==> pos < |stream|)
    && (forall pos :: pos in p.acked && stream[pos].LinkClicked? ==> stream[pos].id in p.processed)
    && (forall pos :: pos in p.acked && !stream[pos].LinkClicked? && !p.wiped ==> stream[pos] in p.applied)
    && (p.mode.Counted? ==>
          && p.mode.pos < |stream| && stream[p.mode.pos].LinkClicked?
          && stream[p.mode.pos].id in p.processed)
    && (p.mode.Handled? ==>
          && p.mode.pos < |stream|
          && (stream[p.mode.pos].LinkClicked? ==> stream[p.mode.pos].id in p.processed)
          && (!stream[p.mode.pos].LinkClicked? && !p.wiped ==> stream[p.mode.pos] in p.applied))
  }

  // ---------- the Redis mirror of the counters ----------

  ghost predicate InStep(p: Proj, c: Code) {
    Clicks(p.clickKeys, c) == Clicks(p.analytics, c)
  }

  /** A click for the code was recorded at a position still not acknowledged. */
  ghost predicate Owed(stream: seq<DomainEvent>, p: Proj, c: Code) {
    exists pos :: pos in p.recorded && pos !in p.acked && pos < |stream| && stream[pos].code == c
  }

  ghost predicate MirrorInv(stream: seq<DomainEvent>, p: Proj) {
    && (forall c :: Clicks(p.clickKeys, c) <= Clicks(p.analytics, c))
    && (p.mirrored ==> forall c :: InStep(p, c) || Owed(stream, p, c))
    && (p.mode.BootClicks? ==>
          && (forall c :: c in p.mode.counts ==> c in p.analytics && p.mode.counts[c] == p.analytics[c])
          && (p.mode.clean ==> forall c :: c !in p.mode.counts ==> InStep(p, c)))
    && (p.mode.Counted? ==>
          && p.mode.pos < |stream| && stream[p.mode.pos].LinkClicked?
          && p.mode.total == Clicks(p.analytics, stream[p.mode.pos].code))
    && (p.mode.Handled? && p.mirrored ==>
          p.mode.pos < |stream| && (stream[p.mode.pos].LinkClicked? ==> InStep(p, stream[p.mode.pos].code)))
    && (forall pos :: pos in p.recorded ==> pos < |stream| && stream[pos].LinkClicked?)
  }

  // ---------- the link keys ----------

  ghost predicate BootSound(links: Links, m: Links) {
    forall id :: id in m ==> SameLink(links, id, m[id]) && (m[id].status.Disabled? ==> links[id].status.Disabled?)
  }

  ghost predicate LinkKeysInv(links: Links, p: Proj) {
    && p.linkKeys == Consume(map[], p.applied)
    && LogSound(links, p.applied)
    && (p.mode.BootLinks? ==> BootSound(links, p.mode.links))
  }

  // ---------- projector steps ----------

  lemma CountOneClick(o: Outbox, p: Proj, e: DomainEvent)
    requires EventIdsDistinct(o) && CountInv(o, p) && e.LinkClicked? && HasRow(o, e)
    ensures var (processed, analytics) := CountClick(p.processed, p.analytics, e.id, e.code);
            CountInv(o, p.(processed := processed, analytics := analytics))
  {
    var (processed, analytics) := CountClick(p.processed, p.analytics, e.id, e.code);
    var i :| 0 <= i < |o| && o[i].Row? && o[i].event == e;
    assert ClickRow(o, i, e.code);
    if e.id !in p.processed {
      forall c ensures Clicks(analytics, c) == |CountedRows(o, processed, c)| {
        CountedRowsGrow(o, p.processed, i, c);
      }
    }
  }

  lemma CountedRowsGrow(o: Outbox, processed: set<Id>, i: int, c: Code)
    requires EventIdsDistinct(o) && 0 <= i < |o| && o[i].Row? && ClickRow(o, i, o[i].event.code)
             && o[i].event.id !in processed
    ensures |CountedRows(o, processed + {o[i].event.id}, c)|
         == |CountedRows(o, processed, c)| + (if c == o[i].event.code then 1 else 0)
  {
    var before, after := CountedRows(o, processed, c), CountedRows(o, processed + {o[i].event.id}, c);
    forall k | k in after && k !in before ensures k == i {
      assert EventOf(o[k]).id == EventOf(o[i]).id;
    }
    if c == o[i].event.code {
      assert after == before + {i};
    } else {
      assert after == before;
    }
  }

  lemma ProjStepKeepsCount(o: Outbox, links: Links, stream: seq<DomainEvent>, p: Proj, a: ProjAction)
    requires EventIdsDistinct(o) && CountInv(o, p) && ProjEnabled(p, links, stream, a)
    requires forall e :: e in stream ==> HasRow(o, e)
    ensures CountInv(o, ProjNext(p, links, stream, a))
  {
    if a.Deliver? && !a.write.Fails? && stream[a.pos].LinkClicked? {
      assert stream[a.pos] in stream;
      CountOneClick(o, p, stream[a.pos]);
    }
  }

  lemma DeliverKeepsAck(links: Links, stream: seq<DomainEvent>, p: Proj, a: ProjAction)
    requires AckInv(stream, p) && ProjEnabled(p, links, stream, a) && a.Deliver?
    ensures AckInv(stream, ProjNext(p, links, stream, a))
  {
  }

  lemma ProjStepKeepsAck(links: Links, stream: seq<DomainEvent>, p: Proj, a: ProjAction)
    requires AckInv(stream, p) && ProjEnabled(p, links, stream, a)
    ensures AckInv(stream, ProjNext(p, links, stream, a))
  {
    match a
    case Deliver(_, _) => DeliverKeepsAck(links, stream, p, a);
    case BootLink(_, _) =>
    case _ =>
  }

  /** A recorded click stays owed until Redis has caught up with its counter. */
  lemma OwedPersists(stream: seq<DomainEvent>, p: Proj, p': Proj, c: Code)
    requires Owed(stream, p, c) && p.recorded <= p'.recorded && p'.acked <= p.acked
    ensures Owed(stream, p', c)
  {
  }

  lemma DeliverKeepsMirror(links: Links, stream: seq<DomainEvent>, p: Proj, a: ProjAction)
    requires AckInv(stream, p) && MirrorInv(stream, p) && ProjEnabled(p, links, stream, a) && a.Deliver?
    ensures MirrorInv(stream, ProjNext(p, links, stream, a))
  {
    var p', e := ProjNext(p, links, stream, a), stream[a.pos];
    forall c | p'.mirrored ensures InStep(p', c) || Owed(stream, p', c) {
      if e.LinkClicked? && !a.write.Fails? && c == e.code && a.pos !in p.acked {
        assert a.pos in p'.recorded && a.pos !in p'.acked;
      } else if !InStep(p, c) {
        OwedPersists(stream, p, p', c);
      }
    }
  }

  lemma SetClicksKeepsMirror(links: Links, stream: seq<DomainEvent>, p: Proj, a: ProjAction)
    requires MirrorInv(stream, p) && ProjEnabled(p, links, stream, a) && a.SetClicks?
    ensures MirrorInv(stream, ProjNext(p, links, stream, a))
  {
    var p' := ProjNext(p, links, stream, a);
    forall c | p'.mirrored ensures InStep(p', c) || Owed(stream, p', c) {
      if !InStep(p, c) { OwedPersists(stream, p, p', c); }
    }
  }

  lemma AckKeepsMirror(links: Links, stream: seq<DomainEvent>, p: Proj, a: ProjAction)
    requires MirrorInv(stream, p) && ProjEnabled(p, links, stream, a) && a.Ack?
    ensures MirrorInv(stream, ProjNext(p, links, stream, a))
  {
    var p' := ProjNext(p, links, stream, a);
    forall c | p'.mirrored ensures InStep(p', c) || Owed(stream, p', c) {
      if !InStep(p, c) {
        var pos :| pos in p.recorded && pos !in p.acked && pos < |stream| && stream[pos].code == c;
        assert pos in p'.recorded && pos !in p'.acked;
      }
    }
  }

  lemma BootKeepsMirror(links: Links, stream: seq<DomainEvent>, p: Proj, a: ProjAction)
    requires MirrorInv(stream, p) && ProjEnabled(p, links, stream, a)
    requires !a.Deliver? && !a.SetClicks? && !a.Ack?
    ensures MirrorInv(stream, ProjNext(p, links, stream, a))
  {
    var p' := ProjNext(p, links, stream, a);
    forall c | p'.mirrored ensures InStep(p', c) || Owed(stream, p', c) {
      if p.mirrored && !InStep(p, c) { OwedPersists(stream, p, p', c); }
    }
  }

  lemma ProjStepKeepsMirror(links: Links, stream: seq<DomainEvent>, p: Proj, a: ProjAction)
    requires AckInv(stream, p) && MirrorInv(stream, p) && ProjEnabled(p, links, stream, a)
    ensures MirrorInv(stream, ProjNext(p, links, stream, a))
  {
    match a
    case Deliver(_, _) => DeliverKeepsMirror(links, stream, p, a);
    case SetClicks(_) => SetClicksKeepsMirror(links, stream, p, a);
    case Ack(_) => AckKeepsMirror(links, stream, p, a);
    case _ => BootKeepsMirror(links, stream, p, a);
  }

  /** Only a wipe lets a Redis counter fall. */
  lemma ClicksNeverFall(links: Links, stream: seq<DomainEvent>, p: Proj, a: ProjAction, c: Code)
    requires MirrorInv(stream, p) && ProjEnabled(p, links, stream, a) && !a.Wipe?
    ensures Clicks(p.clickKeys, c) <= Clicks(ProjNext(p, links, stream, a).clickKeys, c)
  {
  }

  lemma ApplyKeepsLinkKeys(links: Links, p: Proj, e: DomainEvent)
    requires LinkKeysInv(links, p) && EventSound(links, e)
    ensures ApplyLink(p, e).linkKeys == Consume(map[], ApplyLink(p, e).applied)
            && LogSound(links, ApplyLink(p, e).applied)
  {
  }

  lemma BootLinkKeepsLinkKeys(links: Links, stream: seq<DomainEvent>, p: Proj, a: ProjAction)
    requires LinkKeysInv(links, p) && ProjEnabled(p, links, stream, a) && a.BootLink?
    ensures LinkKeysInv(links, ProjNext(p, links, stream, a))
  {
    ApplyKeepsLinkKeys(links, p, BootEvent(a.id, p.mode.links[a.id]));
  }

  lemma ProjStepKeepsLinkKeys(links: Links, stream: seq<DomainEvent>, p: Proj, a: ProjAction)
    requires LinkKeysInv(links, p) && ProjEnabled(p, links, stream, a) && LogSound(links, stream)
    ensures LinkKeysInv(links, ProjNext(p, links, stream, a))
  {
    match a
    case BootLink(_, _) => BootLinkKeepsLinkKeys(links, stream, p, a);
    case Deliver(_, _) => DeliverKeepsLinkKeys(links, stream, p, a);
    case _ =>
  }

  lemma DeliverKeepsLinkKeys(links: Links, stream: seq<DomainEvent>, p: Proj, a: ProjAction)
    requires LinkKeysInv(links, p) && ProjEnabled(p, links, stream, a) && LogSound(links, stream) && a.Deliver?
    ensures LinkKeysInv(links, ProjNext(p, links, stream, a))
  {
    assert stream[a.pos] in stream;
    ApplyKeepsLinkKeys(links, p, stream[a.pos]);
  }

  // ---------- the other processes' steps ----------

  lemma LogSoundExtends(links: Links, links': Links, log: seq<DomainEvent>)
    requires LogSound(links, log)
    requires forall id :: id in links ==>
               SameLink(links', id, links[id]) && (links[id].status.Disabled? ==> links'[id].status.Disabled?)
    ensures LogSound(links', log)
  {
  }

  lemma WriteStepKeepsLinkKeys(w: Write, a: WriteAction, p: Proj)
    requires WriteInv(w) && WriteEnabled(w, a) && LinkKeysInv(w.links, p)
    ensures LinkKeysInv(WriteNext(w, a).links, p)
  {
    WriteStepExtends(w, a);
    LogSoundExtends(w.links, WriteNext(w, a).links, p.applied);
  }

  /** Rows with the same events count the same. */
  lemma SameRowsKeepCount(o: Outbox, o': Outbox, p: Proj)
    requires SameRows(o, o') && CountInv(o, p)
    ensures CountInv(o', p)
  {
    assert forall i, c :: ClickRow(o', i, c) <==> ClickRow(o, i, c);
    forall id | id in p.processed ensures IsClickId(o', id) {
      var i, c :| ClickRow(o, i, c) && o[i].event.id == id;
      assert ClickRow(o', i, c);
    }
    forall c ensures Clicks(p.analytics, c) == |CountedRows(o', p.processed, c)| {
      assert CountedRows(o', p.processed, c) == CountedRows(o, p.processed, c);
    }
  }

  /** A row that commits brings an event id nobody has processed. */
  lemma WriteStepKeepsCount(w: Write, a: WriteAction, p: Proj)
    requires WriteInv(w) && WriteEnabled(w, a) && CountInv(w.outbox, p)
    ensures CountInv(WriteNext(w, a).outbox, p)
  {
    WriteStepExtends(w, a);
    WriteStepKeepsInv(w, a);
    MoreRowsSameCount(w.outbox, WriteNext(w, a).outbox, p);
  }

  lemma MoreRowsSameCount(o: Outbox, o': Outbox, p: Proj)
    requires EventIdsDistinct(o') && CountInv(o, p)
    requires |o| <= |o'| && forall i :: 0 <= i < |o| && o[i].Row? ==> o'[i] == o[i]
    ensures CountInv(o', p)
  {
    assert forall i, c :: ClickRow(o, i, c) ==> ClickRow(o', i, c);
    forall id | id in p.processed ensures IsClickId(o', id) {
      var i, c :| ClickRow(o, i, c) && o[i].event.id == id;
      assert ClickRow(o', i, c);
    }
    forall c ensures CountedRows(o', p.processed, c) == CountedRows(o, p.processed, c) {
      forall i | i in CountedRows(o', p.processed, c) ensures i in CountedRows(o, p.processed, c) {
        var k, d :| ClickRow(o, k, d) && o[k].event.id == o'[i].event.id;
        SameIdSameRow(o', i, k);
      }
    }
  }

  lemma SameIdSameRow(o: Outbox, i: int, k: int)
    requires EventIdsDistinct(o) && 0 <= i < |o| && 0 <= k < |o| && o[i].Row? && o[k].Row?
             && o[i].event.id == o[k].event.id
    ensures i == k
  {
  }
}
