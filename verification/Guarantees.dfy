/** What the URL shortener promises, for every run of the pipeline. */
module Guarantees {
  import opened LinkDomain
  import opened Tables
  import opened WriteSteps
  import opened Replay
  import opened RelaySteps
  import opened ProjectorSteps
  import opened Pipeline

  /** Every committed row is marked. */
  ghost predicate Drained(s: Sys) {
    forall i :: 0 <= i < |s.write.outbox| && s.write.outbox[i].Row? ==> s.write.outbox[i].published
  }

  ghost predicate AllAcked(s: Sys) {
    forall pos: nat :: pos < |s.stream| ==> pos in s.proj.acked
  }

  // ---------- write side ----------

  /** However handlers race, the committed events folded in seq order are exactly the active links. */
  lemma EventLogDeterminesState(m: Assumptions, s0: Sys, acts: seq<Action>, s: Sys)
    requires Init(s0) && Run(m, s0, acts, s)
    ensures UniqueCodes(s.write.links)
    ensures Consume(map[], CommittedLog(s.write.outbox)) == ActiveLinks(s.write.links)
  {
    InitInv(m, s0);
    RunKeepsInv(m, s0, acts, s);
    LogDeterminesState(s.write);
  }

  ghost predicate LinkTellsItsRows(w: Write, id: Id)
    requires id in w.links
  {
    var l := w.links[id];
    && l.version == (if l.status.Active? then 1 else 2)
    && (exists i :: CreatedRow(w.outbox, i, l.code) && w.outbox[i].event.url == l.url
          && (forall k :: CreatedRow(w.outbox, k, l.code) ==> k == i)
          && (forall j :: DisabledRow(w.outbox, j, l.code) ==> i < j))
    && (l.status.Disabled? <==> exists j :: DisabledRow(w.outbox, j, l.code))
  }

  /** A link is active at version 1 or disabled at version 2, has exactly one
      LinkCreated row, every LinkDisabled row is above it, and there is at least
      one of those exactly when the link is disabled. How many there can be, with no
      version checked, is said in Disabling. */
  lemma LinkLifecycle(m: Assumptions, s0: Sys, acts: seq<Action>, s: Sys, id: Id)
    requires Init(s0) && Run(m, s0, acts, s) && id in s.write.links
    ensures LinkTellsItsRows(s.write, id)
  {
    InitInv(m, s0);
    RunKeepsInv(m, s0, acts, s);
    LifecycleRows(s.write, id);
  }

  lemma LifecycleRows(w: Write, id: Id)
    requires WriteInv(w) && id in w.links
    ensures LinkTellsItsRows(w, id)
  {
    var l := w.links[id];
    assert LinkOk(w, id);
    var i :| i < |w.outbox| && CreatedRow(w.outbox, i, l.code);
    assert RowOk(w, i);
    forall j | DisabledRow(w.outbox, j, l.code) ensures i < j && l.status.Disabled? {
      CreatedBeforeDisabled(w, i, j, l.code);
      assert RowOk(w, j);
    }
  }

  /** Between any two points of a run, links keep code and URL, and a disabled link stays disabled. */
  lemma DisabledForever(m: Assumptions, s0: Sys, acts: seq<Action>, s: Sys, more: seq<Action>, s': Sys, id: Id)
    requires Init(s0) && Run(m, s0, acts, s) && Run(m, s, more, s') && id in s.write.links
    ensures id in s'.write.links
    ensures s'.write.links[id].code == s.write.links[id].code && s'.write.links[id].url == s.write.links[id].url
    ensures s.write.links[id].status.Disabled? ==> s'.write.links[id] == s.write.links[id]
  {
    InitInv(m, s0);
    RunKeepsInv(m, s0, acts, s);
    RunKeepsInv(m, s, more, s');
    RunExtends(m, s, more, s');
    assert LinkOk(s.write, id) && LinkOk(s'.write, id);
  }

  // ---------- relay ----------

  /** Nothing is lost: a marked row is in the stream, and everything in the stream was committed. */
  lemma NothingMarkedIsMissing(m: Assumptions, s0: Sys, acts: seq<Action>, s: Sys)
    requires Init(s0) && Run(m, s0, acts, s)
    ensures forall i :: IsPublished(s.write.outbox, i) ==> s.write.outbox[i].event in s.stream
    ensures forall e :: e in s.stream ==> HasRow(s.write.outbox, e)
  {
    InitInv(m, s0);
    RunKeepsInv(m, s0, acts, s);
  }

  /** Whatever the commit order, no LinkDisabled is ever in the stream without its code's LinkCreated before it. */
  lemma CausalOrder(m: Assumptions, s0: Sys, acts: seq<Action>, s: Sys, p: nat)
    requires Init(s0) && Run(m, s0, acts, s) && p < |s.stream| && s.stream[p].LinkDisabled?
    ensures exists q :: 0 <= q < p && s.stream[q].LinkCreated? && s.stream[q].code == s.stream[p].code
  {
    InitInv(m, s0);
    RunKeepsInv(m, s0, acts, s);
    assert s.stream[p] in s.stream;
    var j :| 0 <= j < |s.write.outbox| && s.write.outbox[j].Row? && s.write.outbox[j].event == s.stream[p];
    assert RowOk(s.write, j);
    var i :| i < j && CreatedRow(s.write.outbox, i, s.stream[p].code);
    SentFirst(false, FlowOf(s), i, j, p);
  }

  lemma SentFirst(ordered: bool, f: Flow, i: int, j: int, p: nat)
    requires FlowInv(ordered, f) && Precedes(ordered, f.outbox, i, j) && p < |f.stream|
             && f.stream[p] == f.outbox[j].event
    ensures exists q :: 0 <= q < p && f.stream[q] == f.outbox[i].event
  {
  }

  /** With transactions committing in seq order, marked rows form a prefix of the
      committed rows, the rows in the stream form one at least as long, and first
      occurrences are in seq order. */
  lemma RelayPrefix(m: Assumptions, s0: Sys, acts: seq<Action>, s: Sys, i: nat, j: nat)
    requires m.ordered && Init(s0) && Run(m, s0, acts, s)
    requires i < j < |s.write.outbox| && s.write.outbox[i].Row? && s.write.outbox[j].Row?
    ensures s.write.outbox[j].published ==> s.write.outbox[i].published && s.write.outbox[j].event in s.stream
    ensures s.write.outbox[j].event in s.stream ==> s.write.outbox[i].event in s.stream
    ensures forall p :: 0 <= p < |s.stream| && s.stream[p] == s.write.outbox[j].event
              ==> exists q :: 0 <= q < p && s.stream[q] == s.write.outbox[i].event
  {
    InitInv(m, s0);
    RunKeepsInv(m, s0, acts, s);
    var o := s.write.outbox;
    assert Precedes(true, o, i, j);
    assert IsPublished(o, j) <==> o[j].published;
    forall p | 0 <= p < |s.stream| && s.stream[p] == o[j].event
      ensures exists q :: 0 <= q < p && s.stream[q] == o[i].event
    {
      SentFirst(true, FlowOf(s), i, j, p);
    }
  }

  // ---------- clicks ----------

  lemma CountedAtMostRows(o: Outbox, processed: set<Id>, c: Code)
    ensures CountedRows(o, processed, c) <= ClickRows(o, c)
    ensures |CountedRows(o, processed, c)| <= |ClickRows(o, c)|
  {
    var counted, all := CountedRows(o, processed, c), ClickRows(o, c);
    assert all == counted + (all - counted);
  }

  /** Under reordering, duplication, naks, lost acks and crashes the counter is the
      number of distinct processed clicks, never above the clicks committed. */
  lemma NoDoubleCounting(m: Assumptions, s0: Sys, acts: seq<Action>, s: Sys, c: Code)
    requires Init(s0) && Run(m, s0, acts, s)
    ensures Clicks(s.proj.analytics, c) == |CountedRows(s.write.outbox, s.proj.processed, c)|
    ensures Clicks(s.proj.analytics, c) <= |ClickRows(s.write.outbox, c)|
  {
    InitInv(m, s0);
    RunKeepsInv(m, s0, acts, s);
    CountedAtMostRows(s.write.outbox, s.proj.processed, c);
  }

  /** Once every row is marked and every message acknowledged, each click counts exactly once. */
  lemma ExactlyOnce(m: Assumptions, s0: Sys, acts: seq<Action>, s: Sys, c: Code)
    requires Init(s0) && Run(m, s0, acts, s) && Drained(s) && AllAcked(s)
    ensures Clicks(s.proj.analytics, c) == |ClickRows(s.write.outbox, c)|
  {
    InitInv(m, s0);
    RunKeepsInv(m, s0, acts, s);
    var o := s.write.outbox;
    forall i | i in ClickRows(o, c) ensures i in CountedRows(o, s.proj.processed, c) {
      assert IsPublished(o, i);
      var pos :| 0 <= pos < |s.stream| && s.stream[pos] == o[i].event;
      assert pos in s.proj.acked;
    }
    CountedAtMostRows(o, s.proj.processed, c);
    assert CountedRows(o, s.proj.processed, c) == ClickRows(o, c);
  }

  ghost predicate RecordedAreAcked(s: Sys, c: Code) {
    forall pos :: pos in s.proj.recorded && pos < |s.stream| && s.stream[pos].code == c ==> pos in s.proj.acked
  }

  /** A Redis counter never exceeds the durable one; since the last Bootstrap that
      wrote every counter after the last wipe, it equals the durable one whenever
      every recorded click of the code has been acknowledged. */
  lemma SelfHealingMirror(m: Assumptions, s0: Sys, acts: seq<Action>, s: Sys, c: Code)
    requires Init(s0) && Run(m, s0, acts, s)
    ensures Clicks(s.proj.clickKeys, c) <= Clicks(s.proj.analytics, c)
    ensures s.proj.mirrored && RecordedAreAcked(s, c) ==> Clicks(s.proj.clickKeys, c) == Clicks(s.proj.analytics, c)
  {
    InitInv(m, s0);
    RunKeepsInv(m, s0, acts, s);
    assert s.proj.mirrored ==> InStep(s.proj, c) || Owed(s.stream, s.proj, c);
  }

  ghost predicate NoWipe(acts: seq<Action>) {
    forall k :: 0 <= k < |acts| ==> acts[k] != ByProjector(Wipe)
  }

  /** Along any run without a wipe, a Redis counter never decreases. */
  lemma {:induction false} MirrorNeverFalls(m: Assumptions, s: Sys, acts: seq<Action>, s': Sys, c: Code)
    requires Inv(m, s) && Run(m, s, acts, s') && NoWipe(acts)
    ensures Clicks(s.proj.clickKeys, c) <= Clicks(s'.proj.clickKeys, c)
    decreases acts
  {
    if acts != [] {
      var a := acts[0];
      if a.ByProjector? {
        ClicksNeverFall(s.write.links, s.stream, s.proj, a.proj, c);
      }
      StepKeepsInv(m, s, a);
      MirrorNeverFalls(m, Next(s, a), acts[1..], s', c);
    }
  }

  // ---------- the link keys ----------

  lemma DrainedStreamIsComplete(m: Assumptions, s: Sys)
    requires CoreInv(m, s) && Drained(s)
    ensures forall id :: id in s.write.links ==> HasCreated(s.stream, s.write.links[id].code)
    ensures LogComplete(s.write.links, s.stream)
  {
  }

  /** With every row marked and a broker that drops safely, each disabled code's last word is its LinkDisabled. */
  lemma DrainedIsSettled(m: Assumptions, s: Sys, id: Id)
    requires m.safeDrops && CoreInv(m, s) && Drained(s) && id in s.write.links && s.write.links[id].status.Disabled?
    ensures LastIsDisabled(s.stream, s.write.links[id].code)
  {
  }

  /** Replaying a drained stream from nothing gives the active links exactly when
      no LinkCreated of a disabled link is left without a LinkDisabled behind it. */
  lemma DrainedReplayExact(m: Assumptions, s0: Sys, acts: seq<Action>, s: Sys)
    requires Init(s0) && Run(m, s0, acts, s) && Drained(s)
    ensures UniqueCodes(s.write.links)
    ensures Consume(map[], s.stream) == ActiveLinks(s.write.links) <==> DisabledLast(s.write.links, s.stream)
  {
    InitInv(m, s0);
    RunKeepsInv(m, s0, acts, s);
    StreamIsSound(m, s);
    DrainedStreamIsComplete(m, s);
    ReplayExact(s.write.links, s.stream);
  }

  /** `m'` is what Bootstrap makes of the link keys `m` from a snapshot, its writes succeeding. */
  ghost predicate Booted(m: LinkMap, snapshot: Links, m': LinkMap) {
    && (forall id :: id in snapshot ==>
          if snapshot[id].status.Disabled? then snapshot[id].code !in m'
          else snapshot[id].code in m' && m'[snapshot[id].code] == snapshot[id].url)
    && (forall c :: (forall id :: id in snapshot ==> snapshot[id].code != c) ==> Clean(m, m', c))
  }

  lemma RebuildIsActive(links: Links, m': LinkMap)
    requires UniqueCodes(links) && Booted(map[], links, m')
    ensures m' == ActiveLinks(links)
  {
    var active := ActiveLinks(links);
    forall c ensures Clean(m', active, c) {
      if forall id :: id in links ==> links[id].code != c {
        assert Clean(map[], m', c);
      }
    }
    SameMap(m', active);
  }

  ghost predicate KnownCode(links: Links, c: Code) {
    exists id :: id in links && links[id].code == c
  }

  ghost predicate AllKnown(links: Links, keys: LinkMap) {
    forall c :: c in keys ==> KnownCode(links, c)
  }

  /** After a restart from whatever Redis held, a snapshot taken while sessions
      keep writing and the rest of the stream in order still meet at the active links. */
  lemma RestartCode(m: Assumptions, s: Sys, s': Sys, keys: LinkMap, booted: LinkMap, k: nat, c: Code)
    requires CoreInv(m, s) && CoreInv(m, s') && SysExtends(s, s') && Drained(s') && k <= |s.stream|
    requires Booted(keys, s.write.links, booted) && (c in keys ==> KnownCode(s'.write.links, c))
    requires DisabledLast(s'.write.links, s'.stream[k..])
    ensures Clean(Consume(booted, s'.stream[k..]), ActiveLinks(s'.write.links), c)
  {
    var links, links', rest := s.write.links, s'.write.links, s'.stream[k..];
    ConsumeByLast(booted, rest, c);
    if LastLifecycle(rest, c).Some? {
      StreamIsSound(m, s');
      LastWordIsTrue(links', rest, c);
    } else if KnownCode(links', c) {
      var id :| id in links' && links'[id].code == c;
      LastLifecycleNone(rest, c);
      SeenBeforeRestart(m, s, s', k, id);
    } else {
      assert forall id :: id in links ==> links[id].code != c;
      assert Clean(keys, booted, c);
    }
  }

  /** The last word on a code agrees with the table. */
  lemma LastWordIsTrue(links: Links, log: seq<DomainEvent>, c: Code)
    requires UniqueCodes(links) && LogSound(links, log) && DisabledLast(links, log) && LastLifecycle(log, c).Some?
    ensures var e := LastLifecycle(log, c).value;
            && IsLifecycle(e, c) && EventSound(links, e)
            && (e.LinkCreated? <==> links[e.aggregateId].status.Active?)
  {
    var e := LastLifecycle(log, c).value;
    ConsumeByLast(map[], log, c);
    assert EventSound(links, e);
    if e.LinkCreated? {
      LastIsCreated(log, c);
      var p :| 0 <= p < |log| && log[p].LinkCreated? && log[p].code == c && !DisabledAfter(log, p, c);
      assert EventSound(links, log[p]);
    }
  }

  /** A key of no link survives a restart. */
  lemma StrayKeyStays(m: Assumptions, s: Sys, s': Sys, keys: LinkMap, booted: LinkMap, k: nat, c: Code)
    requires CoreInv(m, s) && CoreInv(m, s') && SysExtends(s, s') && k <= |s.stream|
    requires Booted(keys, s.write.links, booted) && c in keys && !KnownCode(s'.write.links, c)
    ensures c in Consume(booted, s'.stream[k..]) && c !in ActiveLinks(s'.write.links)
  {
    var links, links', rest := s.write.links, s'.write.links, s'.stream[k..];
    StreamIsSound(m, s');
    forall e | e in rest ensures !IsLifecycle(e, c) {
      assert EventSound(links', e);
    }
    LastLifecycleNone(rest, c);
    ConsumeByLast(booted, rest, c);
    forall id | id in links ensures links[id].code != c {
      assert SameLink(links', id, links[id]);
    }
    assert Clean(keys, booted, c);
  }

  /** So does a disabled link whose LinkCreated comes last in the rest of the stream. */
  lemma RestRevives(links: Links, rest: seq<DomainEvent>, booted: LinkMap)
    requires UniqueCodes(links) && LogSound(links, rest) && !DisabledLast(links, rest)
    ensures Consume(booted, rest) != ActiveLinks(links)
  {
    var p :| 0 <= p < |rest| && rest[p].LinkCreated? && rest[p].aggregateId in links
             && links[rest[p].aggregateId].status.Disabled? && !DisabledAfter(rest, p, rest[p].code);
    assert EventSound(links, rest[p]);
    LastIsCreated(rest, rest[p].code);
    ConsumeByLast(booted, rest, rest[p].code);
    assert rest[p].code !in ActiveLinks(links);
  }

  /** A link the rest of the stream is silent about was already as it is at the snapshot. */
  lemma SeenBeforeRestart(m: Assumptions, s: Sys, s': Sys, k: nat, id: Id)
    requires CoreInv(m, s) && CoreInv(m, s') && SysExtends(s, s') && Drained(s') && k <= |s.stream|
    requires id in s'.write.links && forall e :: e in s'.stream[k..] ==> !IsLifecycle(e, s'.write.links[id].code)
    ensures id in s.write.links && SameLink(s'.write.links, id, s.write.links[id])
    ensures s.write.links[id].status == s'.write.links[id].status
  {
    var c := s'.write.links[id].code;
    StreamIsSound(m, s);
    StreamIsSound(m, s');
    DrainedStreamIsComplete(m, s');
    var e :| e in s'.stream && e.LinkCreated? && e.code == c;
    InPrefix(s.stream, s'.stream, k, e);
    assert EventSound(s.write.links, e) && EventSound(s'.write.links, e);
    if s'.write.links[id].status.Disabled? {
      assert LinkOk(s'.write, id);
      var j :| DisabledRow(s'.write.outbox, j, c);
      assert IsPublished(s'.write.outbox, j);
      var d := s'.write.outbox[j].event;
      InPrefix(s.stream, s'.stream, k, d);
      assert EventSound(s.write.links, d);
    }
  }

  lemma InPrefix(a: seq<DomainEvent>, b: seq<DomainEvent>, k: nat, e: DomainEvent)
    requires a <= b && k <= |a| && e in b && e !in b[k..]
    ensures e in a
  {
  }

  /** What consuming the stream from k on makes of Bootstrap's link keys is the
      active links exactly when every key Redis held at the restart is a link's code
      by the end and the rest of the stream leaves no LinkCreated of a disabled link
      without a LinkDisabled behind it. */
  lemma RestartConverges(m: Assumptions, s: Sys, s': Sys, keys: LinkMap, booted: LinkMap, k: nat)
    requires CoreInv(m, s) && CoreInv(m, s') && SysExtends(s, s') && Drained(s') && k <= |s.stream|
    requires Booted(keys, s.write.links, booted)
    ensures Consume(booted, s'.stream[k..]) == ActiveLinks(s'.write.links)
       <==> AllKnown(s'.write.links, keys) && DisabledLast(s'.write.links, s'.stream[k..])
  {
    if c :| c in keys && !KnownCode(s'.write.links, c) {
      StrayKeyStays(m, s, s', keys, booted, k, c);
    } else if !DisabledLast(s'.write.links, s'.stream[k..]) {
      StreamIsSound(m, s');
      RestRevives(s'.write.links, s'.stream[k..], booted);
    } else {
      forall c ensures Clean(Consume(booted, s'.stream[k..]), ActiveLinks(s'.write.links), c) {
        RestartCode(m, s, s', keys, booted, k, c);
      }
      SameMap(Consume(booted, s'.stream[k..]), ActiveLinks(s'.write.links));
    }
  }

  /** A broker that drops safely leaves every rest of the stream in that shape. */
  lemma SafeDropsSettleTheRest(m: Assumptions, s: Sys, k: nat)
    requires m.safeDrops && CoreInv(m, s) && Drained(s) && k <= |s.stream|
    ensures DisabledLast(s.write.links, s.stream[k..])
  {
    var links, rest := s.write.links, s.stream[k..];
    StreamIsSound(m, s);
    forall p | 0 <= p < |rest| && rest[p].LinkCreated? && rest[p].aggregateId in links
               && links[rest[p].aggregateId].status.Disabled?
      ensures DisabledAfter(rest, p, rest[p].code)
    {
      assert EventSound(links, rest[p]);
      DrainedIsSettled(m, s, rest[p].aggregateId);
      LastOfRest(s.stream, k, p);
    }
  }

  lemma LastOfRest(stream: seq<DomainEvent>, k: nat, p: nat)
    requires k <= |stream| && p < |stream[k..]| && stream[k..][p].LinkCreated?
             && LastIsDisabled(stream, stream[k..][p].code)
    ensures DisabledAfter(stream[k..], p, stream[k..][p].code)
  {
    var rest := stream[k..];
    assert stream == stream[..k] + rest;
    LastLifecycleConcat(stream[..k], rest, rest[p].code);
    LastIsCreated(rest, rest[p].code);
    LastLifecycleNone(rest, rest[p].code);
  }

  lemma ReplayFromNothing(m: Assumptions, s: Sys)
    requires m.safeDrops && CoreInv(m, s) && Drained(s)
    ensures Consume(map[], s.stream) == ActiveLinks(s.write.links)
  {
    SafeDropsSettleTheRest(m, s, 0);
    assert s.stream[0..] == s.stream;
    StreamIsSound(m, s);
    DrainedStreamIsComplete(m, s);
    ReplayExact(s.write.links, s.stream);
  }

  /** Replay equals rebuild: consuming a drained stream from nothing gives the
      active links, and so does Bootstrap on an empty Redis. */
  lemma ReplayEqualsRebuild(m: Assumptions, s0: Sys, acts: seq<Action>, s: Sys, rebuilt: LinkMap)
    requires m.safeDrops && Init(s0) && Run(m, s0, acts, s) && Drained(s)
    requires Booted(map[], s.write.links, rebuilt)
    ensures UniqueCodes(s.write.links)
    ensures Consume(map[], s.stream) == ActiveLinks(s.write.links) == rebuilt
  {
    InitInv(m, s0);
    RunKeepsInv(m, s0, acts, s);
    ReplayFromNothing(m, s);
    RebuildIsActive(s.write.links, rebuilt);
  }

  /** The projector's link keys in any reachable state, after any schedule of
      deliveries, naks, lost acks, crashes and wipes: they are the active links
      exactly when what was applied since the last wipe announces every active link
      and leaves no LinkCreated of a disabled link without a LinkDisabled behind it. */
  lemma LinkKeysExact(m: Assumptions, s0: Sys, acts: seq<Action>, s: Sys)
    requires Init(s0) && Run(m, s0, acts, s)
    ensures UniqueCodes(s.write.links)
    ensures s.proj.linkKeys == ActiveLinks(s.write.links)
       <==> LogComplete(s.write.links, s.proj.applied) && DisabledLast(s.write.links, s.proj.applied)
  {
    InitInv(m, s0);
    RunKeepsInv(m, s0, acts, s);
    ReplayExact(s.write.links, s.proj.applied);
  }

  /** Without a wipe, once all is marked and acknowledged every link has been announced. */
  lemma SettledKeysExact(m: Assumptions, s0: Sys, acts: seq<Action>, s: Sys)
    requires Init(s0) && Run(m, s0, acts, s) && Drained(s) && AllAcked(s) && !s.proj.wiped
    ensures UniqueCodes(s.write.links)
    ensures s.proj.linkKeys == ActiveLinks(s.write.links) <==> DisabledLast(s.write.links, s.proj.applied)
  {
    InitInv(m, s0);
    RunKeepsInv(m, s0, acts, s);
    LinkKeysExact(m, s0, acts, s);
    DrainedStreamIsComplete(m, s);
    forall id | id in s.write.links ensures HasCreated(s.proj.applied, s.write.links[id].code) {
      var e :| e in s.stream && e.LinkCreated? && e.code == s.write.links[id].code;
      var pos :| 0 <= pos < |s.stream| && s.stream[pos] == e;
      assert pos in s.proj.acked;
    }
  }
}
