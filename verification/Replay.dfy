/** Replaying lifecycle events into the read model's link map, and what the
    replay of a log says about the links table. */
module Replay {
  import opened Wrappers
  import opened LinkDomain
  import opened Tables
  import opened WriteSteps

  type LinkMap = map<Code, Url>

  /** SaveLink for a LinkCreated, DeleteLink for a LinkDisabled, nothing for a click. */
  function Project(m: LinkMap, e: DomainEvent): LinkMap {
    match e
    case LinkCreated(_, _, code, url) => m[code := url]
    case LinkDisabled(_, _, code) => m - {code}
    case LinkClicked(_, _, _) => m
  }

  function Consume(m: LinkMap, log: seq<DomainEvent>): LinkMap {
    if log == [] then m else Project(Consume(m, log[..|log| - 1]), log[|log| - 1])
  }

  predicate IsLifecycle(e: DomainEvent, code: Code) {
    !e.LinkClicked? && e.code == code
  }

  function LastLifecycle(log: seq<DomainEvent>, code: Code): Option<DomainEvent> {
    if log == [] then None
    else if IsLifecycle(log[|log| - 1], code) then Some(log[|log| - 1])
    else LastLifecycle(log[..|log| - 1], code)
  }

  /** The read model at its freshest: short code to URL of every active link. */
  function ActiveLinks(links: Links): LinkMap
    requires UniqueCodes(links)
  {
    map id | id in links && links[id].status.Active? :: links[id].code := links[id].url
  }

  /** The last word on a code decides its entry, whatever the map held before. */
  lemma {:induction false} ConsumeByLast(m: LinkMap, log: seq<DomainEvent>, code: Code)
    ensures match LastLifecycle(log, code)
            case None => Clean(m, Consume(m, log), code)
            case Some(e) =>
              && IsLifecycle(e, code) && e in log
              && (e.LinkCreated? ==> code in Consume(m, log) && Consume(m, log)[code] == e.url)
              && (e.LinkDisabled? ==> code !in Consume(m, log))
  {
    if log != [] {
      ConsumeByLast(m, log[..|log| - 1], code);
    }
  }

  ghost predicate Clean(m: LinkMap, m': LinkMap, code: Code) {
    (code in m <==> code in m') && (code in m ==> m[code] == m'[code])
  }

  lemma {:induction false} LastLifecycleNone(log: seq<DomainEvent>, code: Code)
    ensures LastLifecycle(log, code).None? <==> forall e :: e in log ==> !IsLifecycle(e, code)
  {
    if log != [] {
      assert log == log[..|log| - 1] + [log[|log| - 1]];
      LastLifecycleNone(log[..|log| - 1], code);
    }
  }

  lemma {:induction false} LastLifecycleConcat(a: seq<DomainEvent>, b: seq<DomainEvent>, code: Code)
    ensures LastLifecycle(a + b, code)
         == if LastLifecycle(b, code).Some? then LastLifecycle(b, code) else LastLifecycle(a, code)
  {
    if b == [] {
      assert a + b == a;
    } else {
      assert (a + b)[..|a + b| - 1] == a + b[..|b| - 1];
      LastLifecycleConcat(a, b[..|b| - 1], code);
    }
  }

  // ---------- logs that agree with a links table ----------

  /** The event says nothing about its link that the table denies. */
  ghost predicate EventSound(links: Links, e: DomainEvent) {
    match e
    case LinkCreated(_, aggId, code, url) => aggId in links && links[aggId].code == code && links[aggId].url == url
    case LinkDisabled(_, aggId, code) => aggId in links && links[aggId].code == code && links[aggId].status.Disabled?
    case LinkClicked(_, _, _) => true
  }

  ghost predicate LogSound(links: Links, log: seq<DomainEvent>) {
    forall e :: e in log ==> EventSound(links, e)
  }

  ghost predicate HasCreated(log: seq<DomainEvent>, code: Code) {
    exists e :: e in log && e.LinkCreated? && e.code == code
  }

  /** Every active link has been announced. */
  ghost predicate LogComplete(links: Links, log: seq<DomainEvent>) {
    forall id :: id in links && links[id].status.Active? ==> HasCreated(log, links[id].code)
  }

  ghost predicate DisabledAfter(log: seq<DomainEvent>, p: nat, code: Code) {
    exists q :: p < q < |log| && log[q].LinkDisabled? && log[q].code == code
  }

  /** The LinkCreated of a link that is disabled. */
  ghost predicate OfDisabled(links: Links, e: DomainEvent) {
    e.LinkCreated? && e.aggregateId in links && links[e.aggregateId].status.Disabled?
  }

  /** Order of application: no LinkCreated of a disabled link is left without a LinkDisabled behind it. */
  ghost predicate DisabledLast(links: Links, log: seq<DomainEvent>) {
    forall p :: 0 <= p < |log| && OfDisabled(links, log[p]) ==> DisabledAfter(log, p, log[p].code)
  }

  lemma {:induction false} LastIsCreated(log: seq<DomainEvent>, code: Code)
    ensures (LastLifecycle(log, code).Some? && LastLifecycle(log, code).value.LinkCreated?)
       <==> exists p :: 0 <= p < |log| && log[p].LinkCreated? && log[p].code == code && !DisabledAfter(log, p, code)
  {
    if log != [] {
      var n := |log| - 1;
      LastIsCreated(log[..n], code);
      forall p | 0 <= p < n
        ensures DisabledAfter(log, p, code)
           <==> DisabledAfter(log[..n], p, code) || (log[n].LinkDisabled? && log[n].code == code)
      {
        if DisabledAfter(log[..n], p, code) {
          var q :| p < q < n && log[..n][q].LinkDisabled? && log[..n][q].code == code;
          assert log[q] == log[..n][q];
        }
        if DisabledAfter(log, p, code) && !(log[n].LinkDisabled? && log[n].code == code) {
          var q :| p < q < |log| && log[q].LinkDisabled? && log[q].code == code;
          assert log[q] == log[..n][q];
        }
      }
      assert !DisabledAfter(log, n, code);
      if log[n].LinkCreated? && log[n].code == code {
      } else if log[n].LinkDisabled? && log[n].code == code {
      } else {
        assert forall p :: 0 <= p < n ==> log[p] == log[..n][p];
      }
    }
  }

  /** The read model converges, after any schedule of applied events, exactly when
      the schedule announces every active link and puts no LinkCreated of a disabled
      link last. */
  lemma ReplayExact(links: Links, log: seq<DomainEvent>)
    requires UniqueCodes(links) && LogSound(links, log)
    ensures Consume(map[], log) == ActiveLinks(links) <==> LogComplete(links, log) && DisabledLast(links, log)
  {
    if !LogComplete(links, log) {
      var id :| id in links && links[id].status.Active? && !HasCreated(log, links[id].code);
      ReplayMisses(links, log, id);
    } else if DisabledLast(links, log) {
      ReplayConverges(links, log);
    } else {
      var p :| 0 <= p < |log| && log[p].LinkCreated? && log[p].aggregateId in links
               && links[log[p].aggregateId].status.Disabled? && !DisabledAfter(log, p, log[p].code);
      ReplayRevives(links, log, p);
    }
  }

  lemma ReplayConverges(links: Links, log: seq<DomainEvent>)
    requires UniqueCodes(links) && LogSound(links, log) && LogComplete(links, log) && DisabledLast(links, log)
    ensures Consume(map[], log) == ActiveLinks(links)
  {
    forall code ensures Clean(Consume(map[], log), ActiveLinks(links), code) {
      ReplayCode(links, log, code);
    }
    SameMap(Consume(map[], log), ActiveLinks(links));
  }

  lemma SameMap(m: LinkMap, m': LinkMap)
    requires forall code :: Clean(m, m', code)
    ensures m == m'
  {
    forall code
      ensures (code in m <==> code in m') && (code in m ==> m[code] == m'[code])
    {
      assert Clean(m, m', code);
    }
  }

  lemma ReplayMisses(links: Links, log: seq<DomainEvent>, id: Id)
    requires UniqueCodes(links) && LogSound(links, log)
    requires id in links && links[id].status.Active? && !HasCreated(log, links[id].code)
    ensures links[id].code !in Consume(map[], log) && links[id].code in ActiveLinks(links)
  {
    ConsumeByLast(map[], log, links[id].code);
  }

  lemma ReplayRevives(links: Links, log: seq<DomainEvent>, p: nat)
    requires UniqueCodes(links) && LogSound(links, log)
    requires p < |log| && log[p].LinkCreated? && log[p].aggregateId in links
    requires links[log[p].aggregateId].status.Disabled? && !DisabledAfter(log, p, log[p].code)
    ensures log[p].code in Consume(map[], log) && log[p].code !in ActiveLinks(links)
  {
    assert EventSound(links, log[p]);
    LastIsCreated(log, log[p].code);
    ConsumeByLast(map[], log, log[p].code);
  }

  lemma ReplayCode(links: Links, log: seq<DomainEvent>, code: Code)
    requires UniqueCodes(links) && LogSound(links, log) && LogComplete(links, log) && DisabledLast(links, log)
    ensures Clean(Consume(map[], log), ActiveLinks(links), code)
  {
    ConsumeByLast(map[], log, code);
    LastIsCreated(log, code);
    LastLifecycleNone(log, code);
    if LastLifecycle(log, code).Some? {
      var e := LastLifecycle(log, code).value;
      assert EventSound(links, e);
      if e.LinkCreated? {
        var p :| 0 <= p < |log| && log[p].LinkCreated? && log[p].code == code && !DisabledAfter(log, p, code);
        assert EventSound(links, log[p]);
      }
    }
  }

  // ---------- the outbox as an event log ----------

  /** Events of the committed rows, in seq order. */
  function CommittedLog(o: Outbox): seq<DomainEvent> {
    if o == [] then []
    else
      var n := |o| - 1;
      if o[n].Row? then CommittedLog(o[..n]) + [o[n].event] else CommittedLog(o[..n])
  }

  lemma {:induction false} CommittedLogHolds(o: Outbox, e: DomainEvent)
    ensures e in CommittedLog(o) <==> exists i :: 0 <= i < |o| && o[i].Row? && o[i].event == e
  {
    if o != [] {
      var n := |o| - 1;
      CommittedLogHolds(o[..n], e);
      assert forall i :: 0 <= i < n ==> o[..n][i] == o[i];
    }
  }

  /** A code disabled in a prefix of the table stays the last word, as no LinkCreated follows. */
  lemma {:induction false} LastInOutbox(o: Outbox, code: Code)
    requires exists j :: DisabledRow(o, j, code)
    requires forall i, j :: CreatedRow(o, i, code) && DisabledRow(o, j, code) ==> i < j
    ensures LastLifecycle(CommittedLog(o), code).Some? && LastLifecycle(CommittedLog(o), code).value.LinkDisabled?
  {
    var n := |o| - 1;
    assert forall i, c :: CreatedRow(o[..n], i, c) ==> CreatedRow(o, i, c);
    assert forall i, c :: DisabledRow(o[..n], i, c) ==> DisabledRow(o, i, c);
    if DisabledRow(o, n, code) {
    } else {
      var j :| DisabledRow(o, j, code);
      assert DisabledRow(o[..n], j, code);
      LastInOutbox(o[..n], code);
      assert !CreatedRow(o, n, code);
    }
  }

  lemma CreatedBeforeDisabled(w: Write, i: int, j: int, code: Code)
    requires WriteInv(w) && CreatedRow(w.outbox, i, code) && DisabledRow(w.outbox, j, code)
    ensures i < j
  {
  }

  /** In every state the handlers can reach, racing as they like, folding the
      committed events in seq order gives exactly the active links. */
  lemma LogDeterminesState(w: Write)
    requires WriteInv(w)
    ensures Consume(map[], CommittedLog(w.outbox)) == ActiveLinks(w.links)
  {
    var log := CommittedLog(w.outbox);
    forall e | e in log ensures EventSound(w.links, e) {
      CommittedLogHolds(w.outbox, e);
      var i :| 0 <= i < |w.outbox| && w.outbox[i].Row? && w.outbox[i].event == e;
      assert RowOk(w, i);
    }
    forall id | id in w.links && w.links[id].status.Active? ensures HasCreated(log, w.links[id].code) {
      assert LinkOk(w, id);
      var i :| i < |w.outbox| && CreatedRow(w.outbox, i, w.links[id].code);
      CommittedLogHolds(w.outbox, w.outbox[i].event);
    }
    forall p | 0 <= p < |log| && OfDisabled(w.links, log[p])
      ensures DisabledAfter(log, p, log[p].code)
    {
      var code := log[p].code;
      assert log[p] in log;
      assert EventSound(w.links, log[p]);
      assert LinkOk(w, log[p].aggregateId);
      forall i, j | CreatedRow(w.outbox, i, code) && DisabledRow(w.outbox, j, code) ensures i < j {
        CreatedBeforeDisabled(w, i, j, code);
      }
      LastInOutbox(w.outbox, code);
      LastIsCreated(log, code);
    }
    ReplayExact(w.links, log);
  }
}
