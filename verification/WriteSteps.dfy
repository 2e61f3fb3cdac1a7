/** The write side as an interleaving. A session loads an aggregate, later opens
    its transaction (drawing a seq number), and later still commits or rolls
    back; other sessions run in between, and nothing checks the version column. */
module WriteSteps {
  import opened Wrappers
  import opened LinkDomain
  import opened Tables

  /** A row as some handler read it, perhaps long ago. */
  datatype Loaded = Loaded(id: Id, row: LinkRow)

  datatype Write = Write(links: Links, outbox: Outbox, loaded: set<Loaded>)

  datatype WriteAction =
    | BeginCreate(linkId: Id, code: Code, url: Url, eventId: Id)
    | Load(linkId: Id)
    | BeginDisable(agg: Loaded, eventId: Id)
    | BeginClick(code: Code, aggregateId: Id, eventId: Id)
    | Commit(slot: nat)
    | Rollback(slot: nat)

  function CreateTx(linkId: Id, code: Code, url: Url, eventId: Id): Tx {
    Tx(Some(LinkWrite(linkId, LinkRow(code, url, Active, 1))), LinkCreated(eventId, linkId, code, url))
  }

  /** The whole stale row is written back, disabled and one version up. */
  function DisableTx(agg: Loaded, eventId: Id): Tx {
    Tx(Some(LinkWrite(agg.id, agg.row.(status := LinkStatus.Disabled, version := agg.row.version + 1))),
       LinkDisabled(eventId, agg.id, agg.row.code))
  }

  predicate EventIdFresh(o: Outbox, eventId: Id) {
    forall i :: 0 <= i < |o| && !o[i].Void? ==> EventOf(o[i]).id != eventId
  }

  function EventOf(s: Slot): DomainEvent
    requires !s.Void?
  {
    if s.Open? then s.tx.event else s.event
  }

  predicate OpensLink(s: Slot, linkId: Id) {
    s.Open? && s.tx.event.LinkCreated? && s.tx.event.aggregateId == linkId
  }

  predicate LinkIdFresh(w: Write, linkId: Id) {
    linkId !in w.links && forall i :: 0 <= i < |w.outbox| ==> !OpensLink(w.outbox[i], linkId)
  }

  predicate CanCommit(links: Links, tx: Tx) {
    tx.write.Some? ==> CodeFree(links, tx.write.value.id, tx.write.value.row.code)
  }

  predicate IsOpen(o: Outbox, i: nat) {
    i < |o| && o[i].Open?
  }

  predicate WriteEnabled(w: Write, a: WriteAction) {
    match a
    case BeginCreate(linkId, code, url, eventId) => LinkIdFresh(w, linkId) && EventIdFresh(w.outbox, eventId)
    case Load(linkId) => linkId in w.links
    case BeginDisable(agg, eventId) => agg in w.loaded && agg.row.status.Active? && EventIdFresh(w.outbox, eventId)
    case BeginClick(code, aggregateId, eventId) => EventIdFresh(w.outbox, eventId)
    case Commit(i) => IsOpen(w.outbox, i) && CanCommit(w.links, w.outbox[i].tx)
    case Rollback(i) => IsOpen(w.outbox, i)
  }

  function Begin(w: Write, tx: Tx): Write {
    w.(outbox := w.outbox + [Open(tx)])
  }

  function CommitAt(w: Write, i: nat): Write
    requires IsOpen(w.outbox, i)
  {
    var tx := w.outbox[i].tx;
    w.(links := if tx.write.Some? then w.links[tx.write.value.id := tx.write.value.row] else w.links,
       outbox := w.outbox[i := Row(tx.event, false)])
  }

  function WriteNext(w: Write, a: WriteAction): Write
    requires WriteEnabled(w, a)
  {
    match a
    case BeginCreate(linkId, code, url, eventId) => Begin(w, CreateTx(linkId, code, url, eventId))
    case Load(linkId) => w.(loaded := w.loaded + {Loaded(linkId, w.links[linkId])})
    case BeginDisable(agg, eventId) => Begin(w, DisableTx(agg, eventId))
    case BeginClick(code, aggregateId, eventId) => Begin(w, Tx(None, LinkClicked(eventId, aggregateId, code)))
    case Commit(i) => CommitAt(w, i)
    case Rollback(i) => w.(outbox := w.outbox[i := Void])
  }

  // ---------- the invariant ----------

  ghost predicate CreatedRow(o: Outbox, i: int, code: Code) {
    0 <= i < |o| && o[i].Row? && o[i].event.LinkCreated? && o[i].event.code == code
  }

  ghost predicate DisabledRow(o: Outbox, j: int, code: Code) {
    0 <= j < |o| && o[j].Row? && o[j].event.LinkDisabled? && o[j].event.code == code
  }

  /** A LinkCreated row of `code` sits below position j. */
  ghost predicate CreatedBelow(o: Outbox, j: int, code: Code) {
    exists i :: i < j && CreatedRow(o, i, code)
  }

  ghost predicate LifecycleRow(row: LinkRow) {
    row.version == if row.status.Active? then 1 else 2
  }

  /** `row` agrees with the stored link on what never changes. */
  ghost predicate SameLink(links: Links, id: Id, row: LinkRow) {
    id in links && links[id].code == row.code && links[id].url == row.url
  }

  ghost predicate OpenOk(w: Write, j: nat)
    requires IsOpen(w.outbox, j)
  {
    var tx := w.outbox[j].tx;
    match tx.event
    case LinkCreated(_, aggId, code, url) =>
      tx.write == Some(LinkWrite(aggId, LinkRow(code, url, Active, 1))) && aggId !in w.links
    case LinkDisabled(_, aggId, code) =>
      && tx.write.Some? && tx.write.value.id == aggId && tx.write.value.row.code == code
      && tx.write.value.row.status.Disabled? && LifecycleRow(tx.write.value.row)
      && SameLink(w.links, aggId, tx.write.value.row) && CreatedBelow(w.outbox, j, code)
    case LinkClicked(_, _, _) => tx.write.None?
  }

  ghost predicate RowOk(w: Write, j: nat)
    requires j < |w.outbox| && w.outbox[j].Row?
  {
    match w.outbox[j].event
    case LinkCreated(_, aggId, code, url) =>
      aggId in w.links && w.links[aggId].code == code && w.links[aggId].url == url
    case LinkDisabled(_, aggId, code) =>
      && aggId in w.links && w.links[aggId].code == code && w.links[aggId].status.Disabled?
      && CreatedBelow(w.outbox, j, code)
    case LinkClicked(_, _, _) => true
  }

  ghost predicate EventIdsDistinct(o: Outbox) {
    forall i, j :: 0 <= i < j < |o| && !o[i].Void? && !o[j].Void? ==> EventOf(o[i]).id != EventOf(o[j]).id
  }

  ghost predicate LinkIdsDistinct(o: Outbox) {
    forall i, j, id :: 0 <= i < j < |o| && OpensLink(o[i], id) ==> !OpensLink(o[j], id)
  }

  ghost predicate LinkOk(w: Write, id: Id)
    requires id in w.links
  {
    && LifecycleRow(w.links[id])
    && CreatedBelow(w.outbox, |w.outbox|, w.links[id].code)
    && (w.links[id].status.Disabled? ==> exists j :: DisabledRow(w.outbox, j, w.links[id].code))
  }

  ghost predicate WriteInv(w: Write) {
    && UniqueCodes(w.links)
    && EventIdsDistinct(w.outbox)
    && LinkIdsDistinct(w.outbox)
    && (forall j: nat :: IsOpen(w.outbox, j) ==> OpenOk(w, j))
    && (forall j: nat :: j < |w.outbox| && w.outbox[j].Row? ==> RowOk(w, j))
    && (forall i, j, c :: CreatedRow(w.outbox, i, c) && CreatedRow(w.outbox, j, c) ==> i == j)
    && (forall id :: id in w.links ==> LinkOk(w, id))
    && (forall l :: l in w.loaded ==> LifecycleRow(l.row) && SameLink(w.links, l.id, l.row))
  }

  ghost predicate WriteInit(w: Write) {
    w == Write(map[], [], {})
  }

  /** What every step keeps: rows stay where they are, links keep code and URL,
      and a disabled link stays disabled. */
  ghost predicate WriteExtends(w: Write, w': Write) {
    && |w.outbox| <= |w'.outbox|
    && (forall i :: 0 <= i < |w.outbox| && w.outbox[i].Row? ==> w'.outbox[i] == w.outbox[i])
    && (forall id :: id in w.links ==>
          && SameLink(w'.links, id, w.links[id])
          && (w.links[id].status.Disabled? ==> w'.links[id].status.Disabled?))
  }

  lemma BelowExtends(o: Outbox, o': Outbox)
    requires |o| <= |o'| && forall i :: 0 <= i < |o| && o[i].Row? ==> o'[i] == o[i]
    ensures forall i, c :: CreatedRow(o, i, c) ==> CreatedRow(o', i, c)
    ensures forall i, c :: DisabledRow(o, i, c) ==> DisabledRow(o', i, c)
    ensures forall j, c :: CreatedBelow(o, j, c) ==> CreatedBelow(o', j, c)
  {
  }

  lemma WriteStepExtends(w: Write, a: WriteAction)
    requires WriteInv(w) && WriteEnabled(w, a)
    ensures WriteExtends(w, WriteNext(w, a))
  {
    if a.Commit? {
      assert OpenOk(w, a.slot);
    }
  }

  lemma BeginKeepsInv(w: Write, tx: Tx)
    requires WriteInv(w) && EventIdFresh(w.outbox, tx.event.id)
    requires tx.event.LinkCreated? ==> LinkIdFresh(w, tx.event.aggregateId)
    requires OpenOk(Begin(w, tx), |w.outbox|)
    ensures WriteInv(Begin(w, tx))
  {
    var w' := Begin(w, tx);
    BelowExtends(w.outbox, w'.outbox);
    forall j: nat | IsOpen(w'.outbox, j) ensures OpenOk(w', j) {
      if j < |w.outbox| { assert IsOpen(w.outbox, j) && OpenOk(w, j); }
    }
    forall j: nat | j < |w'.outbox| && w'.outbox[j].Row? ensures RowOk(w', j) {
      assert RowOk(w, j);
    }
    forall i, c | CreatedRow(w'.outbox, i, c) ensures CreatedRow(w.outbox, i, c) {}
    forall id | id in w'.links ensures LinkOk(w', id) { assert LinkOk(w, id); }
  }

  lemma BeginDisableOk(w: Write, agg: Loaded, eventId: Id)
    requires WriteInv(w) && WriteEnabled(w, BeginDisable(agg, eventId))
    ensures OpenOk(Begin(w, DisableTx(agg, eventId)), |w.outbox|)
  {
    var w' := Begin(w, DisableTx(agg, eventId));
    assert LinkOk(w, agg.id);
    BelowExtends(w.outbox, w'.outbox);
  }

  lemma CommitKeepsOpen(w: Write, k: nat, j: nat)
    requires WriteInv(w) && WriteEnabled(w, Commit(k)) && IsOpen(CommitAt(w, k).outbox, j)
    ensures OpenOk(CommitAt(w, k), j)
  {
    WriteStepExtends(w, Commit(k));
    assert OpenOk(w, j) && OpenOk(w, k);
    if w.outbox[j].tx.event.LinkCreated? {
      OpenLinkStaysNew(w, k, j);
    }
    OpenStaysOk(w, CommitAt(w, k), j);
  }

  /** Another session's commit does not insert the link this one is about to. */
  lemma OpenLinkStaysNew(w: Write, k: nat, j: nat)
    requires LinkIdsDistinct(w.outbox) && IsOpen(w.outbox, k) && IsOpen(w.outbox, j) && k != j && OpenOk(w, k)
             && OpenOk(w, j)
    requires w.outbox[j].tx.event.LinkCreated?
    ensures w.outbox[j].tx.event.aggregateId !in CommitAt(w, k).links
  {
    var id := w.outbox[j].tx.event.aggregateId;
    assert OpensLink(w.outbox[j], id);
    assert !OpensLink(w.outbox[k], id);
  }

  lemma OpenStaysOk(w: Write, w': Write, j: nat)
    requires WriteExtends(w, w') && IsOpen(w.outbox, j) && IsOpen(w'.outbox, j) && w'.outbox[j] == w.outbox[j]
             && OpenOk(w, j)
    requires w.outbox[j].tx.event.LinkCreated? ==> w.outbox[j].tx.event.aggregateId !in w'.links
    ensures OpenOk(w', j)
  {
    BelowExtends(w.outbox, w'.outbox);
  }

  lemma CommitKeepsRow(w: Write, k: nat, j: nat)
    requires WriteInv(w) && WriteEnabled(w, Commit(k)) && j < |w.outbox| && CommitAt(w, k).outbox[j].Row?
    ensures RowOk(CommitAt(w, k), j)
  {
    var w' := CommitAt(w, k);
    WriteStepExtends(w, Commit(k));
    if j == k {
      assert OpenOk(w, k);
      BelowExtends(w.outbox, w'.outbox);
    } else {
      assert RowOk(w, j);
      RowStaysOk(w, w', j);
    }
  }

  lemma RowStaysOk(w: Write, w': Write, j: nat)
    requires WriteExtends(w, w') && j < |w.outbox| && w.outbox[j].Row? && RowOk(w, j)
    ensures RowOk(w', j)
  {
    BelowExtends(w.outbox, w'.outbox);
  }

  /** A code is taken from the moment its LinkCreated commits. */
  lemma CommittedCodeIsTaken(w: Write, i: int, c: Code, id: Id)
    requires WriteInv(w) && CreatedRow(w.outbox, i, c) && id !in w.links
    ensures !CodeFree(w.links, id, c)
  {
  }

  lemma CommitKeepsOneCreated(w: Write, k: nat, i: int, j: int, c: Code)
    requires WriteInv(w) && WriteEnabled(w, Commit(k))
    requires CreatedRow(CommitAt(w, k).outbox, i, c) && CreatedRow(CommitAt(w, k).outbox, j, c)
    ensures i == j
  {
    assert OpenOk(w, k);
    var ev := w.outbox[k].tx.event;
    if i != j {
      assert forall m :: CreatedRow(CommitAt(w, k).outbox, m, c) && m != k ==> CreatedRow(w.outbox, m, c);
      if i == k {
        CommittedCodeIsTaken(w, j, c, ev.aggregateId);
      } else if j == k {
        CommittedCodeIsTaken(w, i, c, ev.aggregateId);
      }
    }
  }

  lemma CommitKeepsLink(w: Write, k: nat, id: Id)
    requires WriteInv(w) && WriteEnabled(w, Commit(k)) && id in CommitAt(w, k).links
    ensures LinkOk(CommitAt(w, k), id)
  {
    var w', ev := CommitAt(w, k), w.outbox[k].tx.event;
    assert OpenOk(w, k);
    WriteStepExtends(w, Commit(k));
    BelowExtends(w.outbox, w'.outbox);
    assert ev.LinkCreated? ==> CreatedRow(w'.outbox, k, ev.code);
    assert ev.LinkDisabled? ==> DisabledRow(w'.outbox, k, ev.code);
    if id in w.links { assert LinkOk(w, id); }
  }

  lemma CommitKeepsIds(w: Write, k: nat)
    requires WriteInv(w) && WriteEnabled(w, Commit(k))
    ensures UniqueCodes(CommitAt(w, k).links)
    ensures EventIdsDistinct(CommitAt(w, k).outbox) && LinkIdsDistinct(CommitAt(w, k).outbox)
  {
  }

  lemma CommitKeepsLoaded(w: Write, k: nat, l: Loaded)
    requires WriteInv(w) && WriteEnabled(w, Commit(k)) && l in w.loaded
    ensures SameLink(CommitAt(w, k).links, l.id, l.row)
  {
  }

  lemma CommitKeepsInv(w: Write, k: nat)
    requires WriteInv(w) && WriteEnabled(w, Commit(k))
    ensures WriteInv(CommitAt(w, k))
  {
    var w' := CommitAt(w, k);
    CommitKeepsIds(w, k);
    forall j: nat | IsOpen(w'.outbox, j) ensures OpenOk(w', j) { CommitKeepsOpen(w, k, j); }
    forall j: nat | j < |w'.outbox| && w'.outbox[j].Row? ensures RowOk(w', j) { CommitKeepsRow(w, k, j); }
    forall i, j, c | CreatedRow(w'.outbox, i, c) && CreatedRow(w'.outbox, j, c) ensures i == j {
      CommitKeepsOneCreated(w, k, i, j, c);
    }
    forall id | id in w'.links ensures LinkOk(w', id) { CommitKeepsLink(w, k, id); }
    forall l | l in w'.loaded
      ensures LifecycleRow(l.row) && SameLink(w'.links, l.id, l.row)
    {
      CommitKeepsLoaded(w, k, l);
    }
  }

  lemma LoadKeepsInv(w: Write, linkId: Id)
    requires WriteInv(w) && WriteEnabled(w, Load(linkId))
    ensures WriteInv(WriteNext(w, Load(linkId)))
  {
  }

  lemma RollbackKeepsInv(w: Write, k: nat)
    requires WriteInv(w) && WriteEnabled(w, Rollback(k))
    ensures WriteInv(WriteNext(w, Rollback(k)))
  {
    var w' := WriteNext(w, Rollback(k));
    BelowExtends(w.outbox, w'.outbox);
    forall j: nat | IsOpen(w'.outbox, j) ensures OpenOk(w', j) { assert IsOpen(w.outbox, j) && OpenOk(w, j); }
    forall j: nat | j < |w'.outbox| && w'.outbox[j].Row? ensures RowOk(w', j) { assert RowOk(w, j); }
    forall i, c | CreatedRow(w'.outbox, i, c) ensures CreatedRow(w.outbox, i, c) {}
    forall id | id in w'.links ensures LinkOk(w', id) { assert LinkOk(w, id); }
  }

  /** Every step of every interleaving keeps the invariant. */
  lemma WriteStepKeepsInv(w: Write, a: WriteAction)
    requires WriteInv(w) && WriteEnabled(w, a)
    ensures WriteInv(WriteNext(w, a))
  {
    match a
    case BeginCreate(linkId, code, url, eventId) => BeginKeepsInv(w, CreateTx(linkId, code, url, eventId));
    case Load(linkId) => LoadKeepsInv(w, linkId);
    case BeginDisable(agg, eventId) =>
      BeginDisableOk(w, agg, eventId);
      BeginKeepsInv(w, DisableTx(agg, eventId));
    case BeginClick(code, aggregateId, eventId) => BeginKeepsInv(w, Tx(None, LinkClicked(eventId, aggregateId, code)));
    case Commit(i) => CommitKeepsInv(w, i);
    case Rollback(i) => RollbackKeepsInv(w, i);
  }
}
