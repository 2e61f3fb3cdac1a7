/** Runs the code allows that break a promise made without its condition. */
module Scenarios {
  import opened Wrappers
  import opened LinkDomain
  import opened Tables
  import opened WriteSteps
  import opened Replay
  import opened RelaySteps
  import opened ProjectorSteps
  import opened Pipeline
  import opened Guarantees
  import opened CommitOrder
  import opened Disabling

  const CODE: Code := "abc1234"
  const URL: Url := "https://example.com"
  const CREATED := LinkCreated(1, 7, CODE, URL)
  const DISABLED := LinkDisabled(2, 7, CODE)

  const EMPTY_PROJ := Proj({}, map[], map[], map[], {}, Down, [], {}, false, false)
  const EMPTY := Sys(Write(map[], [], {}), Idle, [], EMPTY_PROJ)

  lemma {:induction false} RunSnoc(m: Assumptions, s0: Sys, acts: seq<Action>, s: Sys, a: Action)
    requires Run(m, s0, acts, s) && Legal(m, s, a)
    ensures Run(m, s0, acts + [a], Next(s, a))
    decreases acts
  {
    if acts == [] {
      assert acts + [a] == [a];
      assert Run(m, Next(s, a), [], Next(s, a));
    } else {
      RunSnoc(m, Next(s0, acts[0]), acts[1..], s, a);
      assert (acts + [a])[1..] == acts[1..] + [a];
    }
  }

  lemma Perform(acts: seq<Action>, s: Sys, a: Action) returns (acts': seq<Action>, s': Sys)
    requires Run(NO_ASSUMPTIONS, EMPTY, acts, s) && Enabled(s, a)
    ensures Run(NO_ASSUMPTIONS, EMPTY, acts', s') && s' == Next(s, a)
  {
    RunSnoc(NO_ASSUMPTIONS, EMPTY, acts, s, a);
    acts', s' := acts + [a], Next(s, a);
  }

  lemma PendingOfTwo(a: Slot, b: Slot)
    ensures Pending([a, b]) == (if Unpublished(a) then [0] else []) + if Unpublished(b) then [1] else []
  {
    var o := [a, b];
    assert PendingBelow(o, 1) == if Unpublished(a) then [0] else [];
    assert PendingBelow(o, 2) == PendingBelow(o, 1) + if Unpublished(b) then [1] else [];
  }

  const FIRST := LinkClicked(1, 8, CODE)
  const SECOND := LinkClicked(2, 9, CODE)

  /** Two clicks: the one with the larger seq number commits and is published first. */
  lemma OvertakenClick() returns (acts: seq<Action>, s: Sys)
    ensures Init(EMPTY) && Run(NO_ASSUMPTIONS, EMPTY, acts, s)
    ensures s.write.outbox == [Row(FIRST, false), Row(SECOND, false)]
    ensures s.stream == [SECOND] && !SeqOrdered(s)
  {
    acts, s := SecondPublished();
    acts, s := Perform(acts, s, ByApi(Commit(0)));
    assert Precedes(true, s.write.outbox, 0, 1) && s.stream[0] == s.write.outbox[1].event;
    assert !SentBefore(s.stream, s.write.outbox[0].event, 0);
  }

  lemma SecondPublished() returns (acts: seq<Action>, s: Sys)
    ensures Run(NO_ASSUMPTIONS, EMPTY, acts, s)
    ensures s.write == Write(map[], [Open(Tx(None, FIRST)), Row(SECOND, false)], {}) && s.stream == [SECOND]
  {
    acts, s := SecondCommitted();
    PendingOfTwo(Open(Tx(None, FIRST)), Row(SECOND, false));
    assert Pending(s.write.outbox) == [1];
    acts, s := Perform(acts, s, ByRelay(FetchBatch(100)));
    assert s.relay == Sending([1], 0, false);
    acts, s := Perform(acts, s, ByRelay(Publish(true, true)));
  }

  lemma SecondCommitted() returns (acts: seq<Action>, s: Sys)
    ensures Run(NO_ASSUMPTIONS, EMPTY, acts, s)
    ensures s == EMPTY.(write := Write(map[], [Open(Tx(None, FIRST)), Row(SECOND, false)], {}))
  {
    acts, s := [], EMPTY;
    acts, s := Perform(acts, s, ByApi(BeginClick(CODE, 8, 1)));
    acts, s := Perform(acts, s, ByApi(BeginClick(CODE, 9, 2)));
    acts, s := Perform(acts, s, ByApi(Commit(1)));
  }

  // ---------- one link, created and disabled ----------

  const STALE := Loaded(7, LinkRow(CODE, URL, Active, 1))
  const ROWS := [Row(CREATED, false), Row(DISABLED, false)]
  const DISABLED_LINKS: Links := map[7 := LinkRow(CODE, URL, LinkStatus.Disabled, 2)]
  const WRITTEN := Write(DISABLED_LINKS, ROWS, {STALE})

  lemma CreateAndLoad() returns (acts: seq<Action>, s: Sys)
    ensures Run(NO_ASSUMPTIONS, EMPTY, acts, s)
    ensures s == EMPTY.(write := Write(map[7 := STALE.row], [Row(CREATED, false)], {STALE}))
  {
    acts, s := [], EMPTY;
    acts, s := Perform(acts, s, ByApi(BeginCreate(7, CODE, URL, 1)));
    acts, s := Perform(acts, s, ByApi(Commit(0)));
    assert s.write.links == map[7 := STALE.row] && s.write.outbox == [Row(CREATED, false)];
    acts, s := Perform(acts, s, ByApi(Load(7)));
    assert s.write.loaded == {STALE};
  }

  /** A session creates the link and another disables it; nothing is published yet. */
  lemma CreateAndDisable() returns (acts: seq<Action>)
    ensures Run(NO_ASSUMPTIONS, EMPTY, acts, EMPTY.(write := WRITTEN))
  {
    var s;
    acts, s := CreateAndLoad();
    acts, s := Perform(acts, s, ByApi(BeginDisable(STALE, 2)));
    acts, s := Perform(acts, s, ByApi(Commit(1)));
    assert s.write.outbox == ROWS && s.write.links == DISABLED_LINKS;
    assert s == EMPTY.(write := WRITTEN);
  }

  const AGAIN := LinkDisabled(3, 7, CODE)

  /** Two sessions load the active link, and both disable it: both commit, and the
      link has two LinkDisabled events. */
  lemma DisabledTwice() returns (acts: seq<Action>, s: Sys)
    ensures Init(EMPTY) && Run(NO_ASSUMPTIONS, EMPTY, acts, s)
    ensures s.write.outbox == [Row(CREATED, false), Row(DISABLED, false), Row(AGAIN, false)]
    ensures s.write.links == DISABLED_LINKS && !DisabledOnce(s.write.outbox)
  {
    acts, s := CreateAndLoad();
    acts, s := Perform(acts, s, ByApi(BeginDisable(STALE, 2)));
    acts, s := Perform(acts, s, ByApi(BeginDisable(STALE, 3)));
    assert s.write.outbox == [Row(CREATED, false), Open(DisableTx(STALE, 2)), Open(DisableTx(STALE, 3))];
    acts, s := CommitBoth(acts, s);
    assert DisabledRow(s.write.outbox, 1, CODE) && DisabledRow(s.write.outbox, 2, CODE);
  }

  lemma CommitBoth(acts: seq<Action>, s: Sys) returns (acts': seq<Action>, s': Sys)
    requires Run(NO_ASSUMPTIONS, EMPTY, acts, s) && s.write.links == map[7 := STALE.row]
    requires s.write.outbox == [Row(CREATED, false), Open(DisableTx(STALE, 2)), Open(DisableTx(STALE, 3))]
    ensures Run(NO_ASSUMPTIONS, EMPTY, acts', s') && s'.write.links == DISABLED_LINKS
    ensures s'.write.outbox == [Row(CREATED, false), Row(DISABLED, false), Row(AGAIN, false)]
  {
    acts', s' := Perform(acts, s, ByApi(Commit(1)));
    assert s'.write.links == DISABLED_LINKS;
    acts', s' := Perform(acts', s', ByApi(Commit(2)));
  }

  /** From any state at rest with both rows unmarked, a tick publishes both. */
  lemma PublishBoth(acts: seq<Action>, s: Sys, dropSecond: bool, ok: bool) returns (acts': seq<Action>, s': Sys)
    requires Run(NO_ASSUMPTIONS, EMPTY, acts, s) && s.write == WRITTEN && s.relay.Idle?
    requires dropSecond ==> DISABLED in s.stream
    ensures Run(NO_ASSUMPTIONS, EMPTY, acts', s')
    ensures s'.stream == s.stream + [CREATED] + (if dropSecond then [] else [DISABLED])
    ensures s'.proj == s.proj && s'.relay.Idle?
    ensures s'.write == if ok then WRITTEN.(outbox := [Row(CREATED, true), Row(DISABLED, true)]) else WRITTEN
  {
    acts', s' := SendBoth(acts, s, dropSecond);
    assert [0, 1][..2] == [0, 1];
    acts', s' := Perform(acts', s', ByRelay(MarkBatch(ok)));
    assert ok ==> s'.write.outbox == [Row(CREATED, true), Row(DISABLED, true)];
  }

  lemma FetchBoth(acts: seq<Action>, s: Sys) returns (acts': seq<Action>, s': Sys)
    requires Run(NO_ASSUMPTIONS, EMPTY, acts, s) && s.write == WRITTEN && s.relay.Idle?
    ensures Run(NO_ASSUMPTIONS, EMPTY, acts', s') && s' == s.(relay := Sending([0, 1], 0, false))
  {
    PendingOfTwo(Row(CREATED, false), Row(DISABLED, false));
    assert Pending(s.write.outbox) == [0, 1];
    acts', s' := Perform(acts, s, ByRelay(FetchBatch(100)));
  }

  lemma SendBoth(acts: seq<Action>, s: Sys, dropSecond: bool) returns (acts': seq<Action>, s': Sys)
    requires Run(NO_ASSUMPTIONS, EMPTY, acts, s) && s.write == WRITTEN && s.relay.Idle?
    requires dropSecond ==> DISABLED in s.stream
    ensures Run(NO_ASSUMPTIONS, EMPTY, acts', s')
    ensures s' == s.(relay := Sending([0, 1], 2, false),
                     stream := s.stream + [CREATED] + (if dropSecond then [] else [DISABLED]))
  {
    acts', s' := FetchBoth(acts, s);
    acts', s' := Perform(acts', s', ByRelay(Publish(true, true)));
    acts', s' := Perform(acts', s', ByRelay(Publish(!dropSecond, true)));
  }

  /** Marking fails once; the broker has by then forgotten the LinkCreated but still
      drops the LinkDisabled. The drained stream replays to a link that is disabled. */
  lemma RevivedByDedup() returns (acts: seq<Action>, s: Sys)
    ensures Init(EMPTY) && Run(NO_ASSUMPTIONS, EMPTY, acts, s) && Drained(s)
    ensures s.stream == [CREATED, DISABLED, CREATED]
    ensures UniqueCodes(s.write.links) && Consume(map[], s.stream) != ActiveLinks(s.write.links)
  {
    acts, s := PublishTwice();
    DrainedReplayExact(NO_ASSUMPTIONS, EMPTY, acts, s);
    EndsInCreated(s.stream);
  }

  lemma PublishTwice() returns (acts: seq<Action>, s: Sys)
    ensures Run(NO_ASSUMPTIONS, EMPTY, acts, s)
    ensures s.stream == [CREATED, DISABLED, CREATED]
            && s.write == WRITTEN.(outbox := [Row(CREATED, true), Row(DISABLED, true)])
  {
    acts := CreateAndDisable();
    acts, s := PublishBoth(acts, EMPTY.(write := WRITTEN), false, false);
    acts, s := PublishBoth(acts, s, true, true);
  }

  lemma EndsInCreated(log: seq<DomainEvent>)
    requires log != [] && log[|log| - 1] == CREATED
    ensures !DisabledLast(DISABLED_LINKS, log)
  {
  }

  /** The LinkCreated is nacked and redelivered after the LinkDisabled: all is
      marked and acknowledged, and the disabled link still resolves. */
  lemma RevivedByNak() returns (acts: seq<Action>, s: Sys)
    ensures Init(EMPTY) && Run(NO_ASSUMPTIONS, EMPTY, acts, s) && Drained(s) && AllAcked(s)
    ensures s.stream == [CREATED, DISABLED]
    ensures UniqueCodes(s.write.links) && s.proj.linkKeys != ActiveLinks(s.write.links)
  {
    acts := CreateAndDisable();
    acts, s := PublishBoth(acts, EMPTY.(write := WRITTEN), false, true);
    acts, s := DeliverDisabledFirst(acts, s);
    SettledKeysExact(NO_ASSUMPTIONS, EMPTY, acts, s);
    EndsInCreated(s.proj.applied);
  }

  lemma DeliverDisabledFirst(acts: seq<Action>, s: Sys) returns (acts': seq<Action>, s': Sys)
    requires Run(NO_ASSUMPTIONS, EMPTY, acts, s) && s.proj == EMPTY_PROJ && s.stream == [CREATED, DISABLED]
    ensures Run(NO_ASSUMPTIONS, EMPTY, acts', s')
    ensures s' == s.(proj := s'.proj) && s'.proj.applied == [DISABLED, CREATED] && !s'.proj.wiped
            && s'.proj.acked == {0, 1}
  {
    acts', s' := Perform(acts, s, ByProjector(Start(false)));
    acts', s' := Perform(acts', s', ByProjector(Deliver(0, Fails)));
    acts', s' := Perform(acts', s', ByProjector(Deliver(1, Succeeds)));
    acts', s' := Perform(acts', s', ByProjector(Ack(true)));
    acts', s' := Perform(acts', s', ByProjector(Deliver(0, Succeeds)));
    acts', s' := Perform(acts', s', ByProjector(Ack(true)));
  }
}
