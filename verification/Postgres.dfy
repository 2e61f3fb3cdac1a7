/** The Postgres adapter: link repository, outbox store and analytics store over
    one set of tables. Each method is one transaction. */
module Postgres {
  import opened Wrappers
  import opened LinkDomain
  import T = Tables
  import opened Serde

  /** An outbox row as the relay reads it. */
  datatype OutboxRecord = OutboxRecord(seqNo: nat, envelope: Envelope)

  datatype LinkSnapshot = LinkSnapshot(code: Code, url: Url, disabled: bool)

  function SnapshotOf(row: T.LinkRow): LinkSnapshot {
    LinkSnapshot(row.code, row.url, row.status.Disabled?)
  }

  /** `ids` lists the keys of a table, each once. */
  ghost predicate Enumerates<K(!new)>(ids: seq<K>, keys: set<K>) {
    && (forall i, j :: 0 <= i < j < |ids| ==> ids[i] != ids[j])
    && (forall k :: k in ids <==> k in keys)
  }

  function RecordsOf(outbox: T.Outbox, seqs: seq<nat>): (records: seq<OutboxRecord>)
    requires forall k :: 0 <= k < |seqs| ==> seqs[k] < |outbox| && outbox[seqs[k]].Row?
    ensures |records| == |seqs|
  {
    seq(|seqs|, k requires 0 <= k < |seqs| => OutboxRecord(seqs[k], ToEnvelope(outbox[seqs[k]].event)))
  }

  /** The first `limit` unpublished rows below n. */
  function Batch(outbox: T.Outbox, n: nat, limit: nat): (records: seq<OutboxRecord>)
    requires n <= |outbox|
  {
    RecordsOf(outbox, T.FetchBelow(outbox, n, limit))
  }

  lemma FetchOneMore(outbox: T.Outbox, i: nat, limit: nat)
    requires i < |outbox|
    ensures var f := T.FetchBelow(outbox, i, limit);
            T.FetchBelow(outbox, i + 1, limit) == if T.Unpublished(outbox[i]) && |f| < limit then f + [i] else f
  {
  }

  lemma RecordsOneMore(outbox: T.Outbox, seqs: seq<nat>, i: nat)
    requires i < |outbox| && outbox[i].Row?
    requires forall k :: 0 <= k < |seqs| ==> seqs[k] < |outbox| && outbox[seqs[k]].Row?
    ensures RecordsOf(outbox, seqs + [i]) == RecordsOf(outbox, seqs) + [OutboxRecord(i, ToEnvelope(outbox[i].event))]
  {
  }

  lemma BatchOneMore(outbox: T.Outbox, i: nat, limit: nat, records: seq<OutboxRecord>)
    requires i < |outbox| && records == Batch(outbox, i, limit)
    ensures T.Unpublished(outbox[i]) && |records| < limit ==>
              Batch(outbox, i + 1, limit) == records + [OutboxRecord(i, ToEnvelope(outbox[i].event))]
    ensures !(T.Unpublished(outbox[i]) && |records| < limit) ==> Batch(outbox, i + 1, limit) == records
  {
    FetchOneMore(outbox, i, limit);
    if T.Unpublished(outbox[i]) {
      RecordsOneMore(outbox, T.FetchBelow(outbox, i, limit), i);
    }
  }

  /** A batch is the first `limit` committed, unpublished rows in seq order: what it leaves
      out comes after all of it, and it leaves out nothing unless it is full. */
  lemma FetchExact(outbox: T.Outbox, limit: nat)
    ensures var batch := T.Fetch(outbox, limit);
            && |batch| <= limit
            && (forall k, m :: 0 <= k < m < |batch| ==> batch[k] < batch[m])
            && (forall k :: 0 <= k < |batch| ==>
                  batch[k] < |outbox| && outbox[batch[k]].Row? && !outbox[batch[k]].published)
            && (forall i: nat :: i < |outbox| && outbox[i].Row? && !outbox[i].published && i !in batch ==>
                  |batch| == limit && forall k :: 0 <= k < limit ==> batch[k] < i)
  {
    var p, batch := T.Pending(outbox), T.Fetch(outbox, limit);
    assert forall j :: 0 <= j < |batch| ==> batch[j] == p[j];
    forall i: nat | i < |outbox| && outbox[i].Row? && !outbox[i].published && i !in batch
      ensures |batch| == limit && forall k :: 0 <= k < limit ==> batch[k] < i
    {
      assert T.Unpublished(outbox[i]) && i in p;
      var j :| 0 <= j < |p| && p[j] == i;
    }
  }

  class Store {
    var links: T.Links
    var outbox: T.Outbox
    var processed: set<Id>
    var analytics: map<Code, nat>

    function Tables(): T.Db
      reads this
    {
      T.Db(links, outbox, processed, analytics)
    }

    /** The unique index on short_code. */
    ghost predicate Valid()
      reads this
    {
      T.UniqueCodes(links)
    }

    constructor ()
      ensures Valid() && Tables() == T.Db(map[], [], {}, map[])
    {
      links, outbox, processed, analytics := map[], [], {}, map[];
    }

    /** State and pending events in one transaction. The aggregate is drained before
        the transaction starts, so a failed Save leaves it without its events. */
    method Save(l: Link, fate: T.Fate) returns (ok: bool)
      requires Valid()
      modifies this`links, this`outbox, l`events
      ensures Valid() && l.events == []
      ensures var a := T.SaveArgs(l.id, T.LinkRow(l.code, l.url, l.status, l.version), old(l.events));
              && ok == (T.SaveCommits(old(Tables()), a, fate) && fate.Commits?)
              && Tables() == T.Save(old(Tables()), a, fate)
    {
      var row := T.LinkRow(l.code, l.url, l.status, l.version);
      var events := l.PullEvents();
      if fate == T.FailsAt(0) || !T.CodeFree(links, l.id, row.code) {
        assert outbox + T.Gaps(0) == outbox;
        return false;
      }
      var rows: T.Outbox := [];
      for i := 0 to |events|
        invariant rows == T.NewRows(events[..i])
        invariant fate.FailsAt? ==> i < fate.statement
        invariant links == old(links) && outbox == old(outbox) && l.events == []
      {
        if fate == T.FailsAt(i + 1) {
          outbox := outbox + T.Gaps(i);
          return false;
        }
        rows := rows + [T.Row(events[i], false)];
      }
      assert events[..|events|] == events;
      if fate.FailsAt? {
        outbox := outbox + T.Gaps(|events|);
        return false;
      }
      links := links[l.id := row];
      outbox := outbox + rows;
      return fate.Commits?;
    }

    /** Loads and reconstitutes the aggregate of a code. */
    method FindByShortCode(code: Code, readOk: bool) returns (r: Result<Link, LinkError>)
      ensures !readOk ==> r == Err(ReadFailed)
      ensures readOk && r.Err? ==> r.error == LinkNotFound && forall id :: id in links ==> links[id].code != code
      ensures r.Ok? ==>
                && fresh(r.value) && r.value.events == []
                && r.value.id in links && r.value.code == code
                && links[r.value.id] == T.LinkRow(code, r.value.url, r.value.status, r.value.version)
    {
      if !readOk {
        return Err(ReadFailed);
      }
      if id :| id in links && links[id].code == code {
        var row := links[id];
        var l := new Link.Reconstitute(id, row.code, row.url, row.status, row.version);
        return Ok(l);
      }
      return Err(LinkNotFound);
    }

    method ExistsByShortCode(code: Code, readOk: bool) returns (r: Result<bool, LinkError>)
      ensures r == if readOk then Ok(T.CodeTaken(links, code)) else Err(ReadFailed)
    {
      if !readOk {
        return Err(ReadFailed);
      }
      var count := set id | id in links && links[id].code == code;
      if |count| > 0 {
        var id :| id in count;
      } else {
        assert forall id :: id in links && links[id].code == code ==> id in count;
      }
      return Ok(|count| > 0);
    }

    /** Flat snapshots of every link, in whatever order the table yields them. */
    method ListLinks(readOk: bool) returns (r: Result<seq<LinkSnapshot>, LinkError>, ghost ids: seq<Id>)
      ensures !readOk ==> r == Err(ReadFailed)
      ensures readOk ==> r.Ok? && Enumerates(ids, links.Keys) && |r.value| == |ids|
      ensures readOk ==> forall k :: 0 <= k < |ids| ==>
                           ids[k] in links && r.value[k] == SnapshotOf(links[ids[k]])
    {
      ids := [];
      if !readOk {
        return Err(ReadFailed), ids;
      }
      var snapshots, todo := [], links.Keys;
      while todo != {}
        invariant todo <= links.Keys && Enumerates(ids, links.Keys - todo) && |snapshots| == |ids|
        invariant forall k :: 0 <= k < |ids| ==> ids[k] in links && snapshots[k] == SnapshotOf(links[ids[k]])
        decreases |todo|
      {
        var id :| id in todo;
        snapshots, ids, todo := snapshots + [SnapshotOf(links[id])], ids + [id], todo - {id};
      }
      return Ok(snapshots), ids;
    }

    /** One or more events in a transaction of their own. */
    method Append(events: seq<DomainEvent>, fate: T.Fate) returns (ok: bool)
      modifies this`outbox
      ensures ok == (events == [] || fate.Commits?)
      ensures outbox == T.Append(old(outbox), events, fate)
    {
      if |events| == 0 {
        assert outbox + T.NewRows([]) == outbox && outbox + T.Gaps(0) == outbox;
        return true;
      }
      var rows: T.Outbox := [];
      for i := 0 to |events|
        invariant rows == T.NewRows(events[..i])
        invariant fate.FailsAt? ==> i <= fate.statement
        invariant outbox == old(outbox)
      {
        if fate == T.FailsAt(i) {
          outbox := outbox + T.Gaps(i);
          return false;
        }
        rows := rows + [T.Row(events[i], false)];
      }
      assert events[..|events|] == events;
      if fate.FailsAt? {
        outbox := outbox + T.Gaps(|events|);
        return false;
      }
      outbox := outbox + rows;
      return fate.Commits?;
    }

    /** The next batch of unpublished rows in seq order. */
    method FetchUnpublished(limit: nat, readOk: bool) returns (r: Result<seq<OutboxRecord>, LinkError>)
      ensures r == if readOk then Ok(Batch(outbox, |outbox|, limit)) else Err(ReadFailed)
    {
      if !readOk {
        return Err(ReadFailed);
      }
      var records := [];
      for i := 0 to |outbox|
        invariant records == Batch(outbox, i, limit)
      {
        BatchOneMore(outbox, i, limit, records);
        if T.Unpublished(outbox[i]) && |records| < limit {
          records := records + [OutboxRecord(i, ToEnvelope(outbox[i].event))];
        }
      }
      return Ok(records);
    }

    method MarkPublished(seqs: seq<nat>, write: Outcome) returns (ok: bool)
      modifies this`outbox
      ensures ok == (seqs == [] || write.Succeeds?)
      ensures outbox == if write.Fails? then old(outbox) else T.Mark(old(outbox), seqs)
    {
      if |seqs| == 0 {
        assert T.Mark(outbox, seqs) == outbox;
        return true;
      }
      if !write.Fails? {
        outbox := T.Mark(outbox, seqs);
      }
      return write.Succeeds?;
    }

    /** Applies a click once per event id and reads the total back. */
    method RecordClick(eventId: Id, code: Code, write: Outcome) returns (r: Result<nat, LinkError>)
      modifies this`processed, this`analytics
      ensures write.Fails? ==> processed == old(processed) && analytics == old(analytics)
      ensures !write.Fails? ==> (processed, analytics) == T.CountClick(old(processed), old(analytics), eventId, code)
      ensures r == if write.Succeeds? then Ok(T.Clicks(analytics, code)) else Err(SaveFailed)
      ensures !write.Fails? ==>
                var count := if code in old(analytics) then old(analytics)[code] else 0;
                && processed == old(processed) + {eventId}
                && analytics == if eventId in old(processed) then old(analytics)
                                else old(analytics)[code := count + 1]
    {
      if write.Fails? {
        return Err(SaveFailed);
      }
      if eventId !in processed {
        processed := processed + {eventId};
        if code in analytics {
          analytics := analytics[code := analytics[code] + 1];
        } else {
          analytics := analytics[code := 1];
        }
      }
      var count := if code in analytics then analytics[code] else 0;
      return if write.Succeeds? then Ok(count) else Err(SaveFailed);
    }

    method ListCounts(readOk: bool) returns (r: Result<seq<(Code, nat)>, LinkError>, ghost codes: seq<Code>)
      ensures !readOk ==> r == Err(ReadFailed)
      ensures readOk ==> r.Ok? && Enumerates(codes, analytics.Keys) && |r.value| == |codes|
      ensures readOk ==> forall k :: 0 <= k < |codes| ==>
                           codes[k] in analytics && r.value[k] == (codes[k], analytics[codes[k]])
    {
      codes := [];
      if !readOk {
        return Err(ReadFailed), codes;
      }
      var counts, todo := [], analytics.Keys;
      while todo != {}
        invariant todo <= analytics.Keys && Enumerates(codes, analytics.Keys - todo) && |counts| == |codes|
        invariant forall k :: 0 <= k < |codes| ==> codes[k] in analytics && counts[k] == (codes[k], analytics[codes[k]])
        decreases |todo|
      {
        var code :| code in todo;
        counts, codes, todo := counts + [(code, analytics[code])], codes + [code], todo - {code};
      }
      return Ok(counts), codes;
    }

    /** Transactions other sessions commit, or fail to, while a handler is between two of its steps. */
    method Others(txs: seq<(T.SaveArgs, T.Fate)>)
      requires Valid()
      modifies this`links, this`outbox
      ensures Valid() && Tables() == SaveAll(old(Tables()), txs)
    {
      assert txs[..0] == [];
      for i := 0 to |txs|
        invariant Valid() && Tables() == SaveAll(old(Tables()), txs[..i])
      {
        assert txs[..i + 1][..i] == txs[..i];
        var after := T.Save(Tables(), txs[i].0, txs[i].1);
        links, outbox := after.links, after.outbox;
      }
      assert txs[..|txs|] == txs;
    }
  }

  function SaveAll(db: T.Db, txs: seq<(T.SaveArgs, T.Fate)>): T.Db {
    if txs == [] then db
    else
      var n := |txs| - 1;
      T.Save(SaveAll(db, txs[..n]), txs[n].0, txs[n].1)
  }
}
