/** "A disabled link cannot be disabled again" is a check on a loaded aggregate. The
    version column is never compared, so of two sessions that loaded the same active
    row both pass the check. Here is exactly when a link is disabled only once. */
module Disabling {
  import opened LinkDomain
  import opened Tables
  import opened WriteSteps
  import opened RelaySteps
  import opened Pipeline

  /** No code has two committed LinkDisabled rows. */
  ghost predicate DisabledOnce(o: Outbox) {
    forall i, j, c :: DisabledRow(o, i, c) && DisabledRow(o, j, c) ==> i == j
  }

  /** If the step commits a LinkDisabled, the link is still active in the table: what
      a comparison of versions on the update would check. */
  predicate FindsActive(w: Write, a: WriteAction)
    requires WriteEnabled(w, a)
  {
    a.Commit? && w.outbox[a.slot].tx.event.LinkDisabled? ==>
      var id := w.outbox[a.slot].tx.event.aggregateId;
      id in w.links && w.links[id].status.Active?
  }

  ghost predicate AllFindActive(m: Assumptions, s: Sys, acts: seq<Action>, s': Sys)
    requires Run(m, s, acts, s')
    decreases acts
  {
    acts != [] ==>
      && (acts[0].ByApi? ==> FindsActive(s.write, acts[0].write))
      && AllFindActive(m, Next(s, acts[0]), acts[1..], s')
  }

  /** A row is a code's LinkDisabled before the commit, or is the one committed. */
  lemma DisabledRowsAfterCommit(w: Write, k: nat, i: int, c: Code)
    requires IsOpen(w.outbox, k)
    ensures var e := w.outbox[k].tx.event;
            DisabledRow(CommitAt(w, k).outbox, i, c)
            <==> DisabledRow(w.outbox, i, c) || (i == k && e.LinkDisabled? && e.code == c)
  {
  }

  /** A link's row is active exactly when none of its LinkDisabled rows has committed. */
  lemma ActiveHasNone(w: Write, id: Id)
    requires WriteInv(w) && id in w.links
    ensures w.links[id].status.Active? <==> forall i :: !DisabledRow(w.outbox, i, w.links[id].code)
  {
    assert LinkOk(w, id);
    forall i | DisabledRow(w.outbox, i, w.links[id].code) ensures w.links[id].status.Disabled? {
      assert RowOk(w, i);
    }
  }

  lemma CommitDisablesOnce(w: Write, k: nat)
    requires WriteInv(w) && WriteEnabled(w, Commit(k)) && w.outbox[k].tx.event.LinkDisabled?
    ensures DisabledOnce(CommitAt(w, k).outbox) <==> DisabledOnce(w.outbox) && FindsActive(w, Commit(k))
  {
    var o, o', e := w.outbox, CommitAt(w, k).outbox, w.outbox[k].tx.event;
    assert OpenOk(w, k);
    ActiveHasNone(w, e.aggregateId);
    forall i, c ensures DisabledRow(o', i, c) <==> DisabledRow(o, i, c) || (i == k && e.code == c) {
      DisabledRowsAfterCommit(w, k, i, c);
    }
    assert DisabledRow(o', k, e.code) && forall c :: !DisabledRow(o, k, c);
  }

  lemma OtherWritesDisableNothing(w: Write, a: WriteAction)
    requires WriteEnabled(w, a) && !(a.Commit? && w.outbox[a.slot].tx.event.LinkDisabled?)
    ensures forall i, c :: DisabledRow(WriteNext(w, a).outbox, i, c) <==> DisabledRow(w.outbox, i, c)
  {
    if a.Commit? {
      forall i, c ensures DisabledRow(WriteNext(w, a).outbox, i, c) <==> DisabledRow(w.outbox, i, c) {
        DisabledRowsAfterCommit(w, a.slot, i, c);
      }
    }
  }

  lemma StepDisablesOnce(m: Assumptions, s: Sys, a: Action)
    requires CoreInv(m, s) && Legal(m, s, a)
    ensures DisabledOnce(Next(s, a).write.outbox)
       <==> DisabledOnce(s.write.outbox) && (a.ByApi? ==> FindsActive(s.write, a.write))
  {
    match a
    case ByApi(w) =>
      if w.Commit? && s.write.outbox[w.slot].tx.event.LinkDisabled? {
        CommitDisablesOnce(s.write, w.slot);
      } else {
        OtherWritesDisableNothing(s.write, w);
      }
    case ByRelay(r) =>
      RelayStepKeepsWrite(s.write, FlowOf(s), r);
      SameRowsDisableAlike(s.write.outbox, Next(s, a).write.outbox);
    case ByProjector(_) =>
  }

  lemma SameRowsDisableAlike(o: Outbox, o': Outbox)
    requires SameRows(o, o')
    ensures DisabledOnce(o) <==> DisabledOnce(o')
  {
    assert forall i, c :: DisabledRow(o, i, c) <==> DisabledRow(o', i, c);
  }

  lemma {:induction false} RunDisablesOnce(m: Assumptions, s: Sys, acts: seq<Action>, s': Sys)
    requires CoreInv(m, s) && Run(m, s, acts, s')
    ensures DisabledOnce(s'.write.outbox) <==> DisabledOnce(s.write.outbox) && AllFindActive(m, s, acts, s')
    decreases acts
  {
    if acts != [] {
      StepKeepsCore(m, s, acts[0]);
      StepDisablesOnce(m, s, acts[0]);
      RunDisablesOnce(m, Next(s, acts[0]), acts[1..], s');
    }
  }

  /** Every link of a run is disabled at most once exactly when every LinkDisabled
      that committed found its link still active in the table. */
  lemma DisabledOnceExact(m: Assumptions, s0: Sys, acts: seq<Action>, s: Sys)
    requires Init(s0) && Run(m, s0, acts, s)
    ensures DisabledOnce(s.write.outbox) <==> AllFindActive(m, s0, acts, s)
  {
    InitInv(m, s0);
    RunDisablesOnce(m, s0, acts, s);
  }
}
