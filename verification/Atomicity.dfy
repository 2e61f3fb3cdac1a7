/** The repository's transactions as runs of write-side steps, and what becomes of
    an aggregate saved again after a failed Save. */
module Atomicity {
  import opened LinkDomain
  import opened Tables
  import opened WriteSteps
  import opened Replay

  /** A Save is all or nothing for links and event rows; what a failed one leaves are the
      numbers its event inserts had drawn, as gaps: none if the upsert was refused or
      failed, otherwise one for each event inserted before the statement that failed. */
  lemma SaveExact(db: Db, a: SaveArgs, fate: Fate)
    ensures var free := forall k :: k in db.links && db.links[k].code == a.row.code ==> k == a.id;
            var db' := Save(db, a, fate);
            && db'.processed == db.processed && db'.analytics == db.analytics
            && db.outbox <= db'.outbox
            && db'.links == (if free && !fate.FailsAt? then db.links[a.id := a.row] else db.links)
            && (free && !fate.FailsAt? ==>
                  && |db'.outbox| == |db.outbox| + |a.events|
                  && forall i :: 0 <= i < |a.events| ==> db'.outbox[|db.outbox| + i] == Row(a.events[i], false))
            && (!free || fate == FailsAt(0) ==> db' == db)
            && (free && fate.FailsAt? && fate.statement > 0 ==>
                  && |db'.outbox| - |db.outbox|
                     == (if fate.statement - 1 <= |a.events| then fate.statement - 1 else |a.events|)
                  && forall i :: |db.outbox| <= i < |db'.outbox| ==> db'.outbox[i] == Void)
  {
    var free := forall k :: k in db.links && db.links[k].code == a.row.code ==> k == a.id;
    if !free || fate == FailsAt(0) {
      assert db.outbox + Gaps(0) == db.outbox;
    }
  }

  /** The same of an Append, whose first statement is the first event's insert. */
  lemma AppendExact(outbox: Outbox, events: seq<DomainEvent>, fate: Fate)
    ensures var outbox' := Append(outbox, events, fate);
            && outbox <= outbox'
            && (!fate.FailsAt? ==>
                  && |outbox'| == |outbox| + |events|
                  && forall i :: 0 <= i < |events| ==> outbox'[|outbox| + i] == Row(events[i], false))
            && (fate.FailsAt? ==>
                  && |outbox'| - |outbox| == (if fate.statement <= |events| then fate.statement else |events|)
                  && forall i :: |outbox| <= i < |outbox'| ==> outbox'[i] == Void)
  {
  }

  ghost predicate SameTables(w: Write, db: Db) {
    w.links == db.links && w.outbox == db.outbox
  }

  function BegunTx(begin: WriteAction): Tx
    requires begin.BeginCreate? || begin.BeginDisable?
  {
    if begin.BeginCreate? then CreateTx(begin.linkId, begin.code, begin.url, begin.eventId)
    else DisableTx(begin.agg, begin.eventId)
  }

  /** A Save of one event is what the steps Begin and Commit make of it. A failed one is
      Begin and Rollback if it got past the event's insert, and nothing at all if the upsert
      or the insert was what failed. */
  lemma SaveIsSteps(w: Write, db: Db, begin: WriteAction, fate: Fate)
    requires SameTables(w, db) && WriteEnabled(w, begin) && (begin.BeginCreate? || begin.BeginDisable?)
    ensures var tx := BegunTx(begin);
            var args, begun := SaveArgs(tx.write.value.id, tx.write.value.row, [tx.event]), WriteNext(w, begin);
            && WriteEnabled(begun, Rollback(|w.outbox|))
            && (SaveCommits(db, args, fate) ==>
                  WriteEnabled(begun, Commit(|w.outbox|))
                  && SameTables(WriteNext(begun, Commit(|w.outbox|)), Save(db, args, fate)))
            && (!SaveCommits(db, args, fate) ==>
                  if CodeFree(db.links, args.id, args.row.code) && fate.statement >= 2
                  then SameTables(WriteNext(begun, Rollback(|w.outbox|)), Save(db, args, fate))
                  else SameTables(w, Save(db, args, fate)))
  {
  }

  /** So a Save of a new link, or of a loaded one just disabled, keeps the write side's invariant. */
  lemma SaveKeepsInv(w: Write, db: Db, begin: WriteAction, fate: Fate)
    requires SameTables(w, db) && WriteEnabled(w, begin) && (begin.BeginCreate? || begin.BeginDisable?) && WriteInv(w)
    ensures var tx := BegunTx(begin);
            var db' := Save(db, SaveArgs(tx.write.value.id, tx.write.value.row, [tx.event]), fate);
            WriteInv(Write(db'.links, db'.outbox, w.loaded))
  {
    SaveIsSteps(w, db, begin, fate);
    var tx := BegunTx(begin);
    var args, begun, k := SaveArgs(tx.write.value.id, tx.write.value.row, [tx.event]), WriteNext(w, begin), |w.outbox|;
    WriteStepKeepsInv(w, begin);
    if SaveCommits(db, args, fate) {
      WriteStepKeepsInv(begun, Commit(k));
      assert WriteNext(begun, Commit(k)) == Write(Save(db, args, fate).links, Save(db, args, fate).outbox, w.loaded);
    } else {
      WriteStepKeepsInv(begun, Rollback(k));
      assert WriteNext(begun, Rollback(k)) == Write(Save(db, args, fate).links, Save(db, args, fate).outbox, w.loaded)
          || w == Write(Save(db, args, fate).links, Save(db, args, fate).outbox, w.loaded);
    }
  }

  /** An Append of one click is Begin and Commit too, one that fails at its commit Begin
      and Rollback, one that fails at the insert nothing; all keep the invariant. */
  lemma AppendIsSteps(w: Write, begin: WriteAction, fate: Fate)
    requires WriteEnabled(w, begin) && begin.BeginClick?
    ensures var e, begun := LinkClicked(begin.eventId, begin.aggregateId, begin.code), WriteNext(w, begin);
            var appended := w.(outbox := Append(w.outbox, [e], fate));
            && WriteEnabled(begun, Commit(|w.outbox|)) && WriteEnabled(begun, Rollback(|w.outbox|))
            && (!fate.FailsAt? ==> appended == WriteNext(begun, Commit(|w.outbox|)))
            && (fate.FailsAt? ==> appended == if fate.statement == 0 then w else WriteNext(begun, Rollback(|w.outbox|)))
            && (WriteInv(w) ==> WriteInv(appended))
  {
    var e, begun, k := LinkClicked(begin.eventId, begin.aggregateId, begin.code), WriteNext(w, begin), |w.outbox|;
    assert NewRows([e]) == [Row(e, false)] && Gaps(1) == [Void] && Gaps(0) == [];
    assert w.outbox + [] == w.outbox;
    if WriteInv(w) {
      WriteStepKeepsInv(w, begin);
      WriteStepKeepsInv(begun, Commit(k));
      WriteStepKeepsInv(begun, Rollback(k));
    }
  }

  /** Events and table agree. */
  ghost predicate LogMatches(db: Db) {
    UniqueCodes(db.links) && Consume(map[], CommittedLog(db.outbox)) == ActiveLinks(db.links)
  }

  /** `m` maps the code of every active link to its URL, and nothing else. */
  ghost predicate IsActiveMap(links: Links, m: LinkMap) {
    && (forall id :: id in links ==>
          && (links[id].code in m <==> links[id].status.Active?)
          && (links[id].status.Active? ==> m[links[id].code] == links[id].url))
    && (forall c :: c in m ==> exists id :: id in links && links[id].code == c)
  }

  lemma ActiveLinksIs(links: Links)
    requires UniqueCodes(links)
    ensures IsActiveMap(links, ActiveLinks(links))
  {
  }

  lemma UpsertKeepsUnique(links: Links, id: Id, row: LinkRow)
    requires UniqueCodes(links) && CodeFree(links, id, row.code)
    ensures UniqueCodes(links[id := row])
  {
  }

  /** An upsert touches its own code's entry only. */
  lemma OnlyThisCode(links: Links, id: Id, row: LinkRow, m: LinkMap, m': LinkMap, c: Code)
    requires IsActiveMap(links, m) && IsActiveMap(links[id := row], m') && CodeFree(links, id, row.code)
    requires id in links ==> links[id].code == row.code && links[id].url == row.url
    ensures row.code in m <==> id in links && links[id].status.Active?
    ensures row.code in m' <==> row.status.Active?
    ensures c != row.code || (row.code in m <==> row.code in m') ==> Clean(m, m', c)
  {
    var links' := links[id := row];
    assert id in links' && links'[id] == row;
    if c != row.code {
      if k :| k in links && links[k].code == c {
        assert links'[k] == links[k];
      } else {
        assert forall k :: k in links' ==> links'[k].code != c;
      }
    }
  }

  /** A failed Save has drained the aggregate. Saving it once more writes the row
      without its event, and table and event log stay in agreement exactly when
      that row's status is the one the table already shows. */
  lemma RetryExact(db: Db, id: Id, row: LinkRow)
    requires LogMatches(db) && CodeFree(db.links, id, row.code)
    requires id in db.links ==> db.links[id].code == row.code && db.links[id].url == row.url
    ensures LogMatches(Save(db, SaveArgs(id, row, []), Commits))
       <==> (row.status.Active? <==> id in db.links && db.links[id].status.Active?)
  {
    SaveWithoutEvents(db, id, row);
    UpsertKeepsUnique(db.links, id, row);
    ActiveLinksIs(db.links);
    ActiveLinksIs(db.links[id := row]);
    UpsertActive(db.links, id, row, ActiveLinks(db.links), ActiveLinks(db.links[id := row]));
  }

  lemma SaveWithoutEvents(db: Db, id: Id, row: LinkRow)
    requires CodeFree(db.links, id, row.code)
    ensures Save(db, SaveArgs(id, row, []), Commits) == db.(links := db.links[id := row])
  {
  }

  lemma UpsertActive(links: Links, id: Id, row: LinkRow, m: LinkMap, m': LinkMap)
    requires IsActiveMap(links, m) && IsActiveMap(links[id := row], m') && CodeFree(links, id, row.code)
    requires id in links ==> links[id].code == row.code && links[id].url == row.url
    ensures m == m' <==> (row.status.Active? <==> id in links && links[id].status.Active?)
  {
    OnlyThisCode(links, id, row, m, m', row.code);
    if row.code in m <==> row.code in m' {
      forall c ensures Clean(m, m', c) {
        OnlyThisCode(links, id, row, m, m', c);
      }
      SameMap(m, m');
    }
  }
}
