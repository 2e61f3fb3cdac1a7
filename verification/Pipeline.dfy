/** The whole URL shortener as one transition system: API sessions, relay, broker
    and projector, interleaved step by step, with the guarantees the repository
    states for it proved of every run. */
module Pipeline {
  import opened LinkDomain
  import opened Tables
  import opened WriteSteps
  import opened Replay
  import opened RelaySteps
  import opened ProjectorSteps

  datatype Sys = Sys(write: Write, relay: RelayState, stream: seq<DomainEvent>, proj: Proj)

  datatype Action =
    | ByApi(write: WriteAction)
    | ByRelay(relay: RelayAction)
    | ByProjector(proj: ProjAction)

  /** What a guarantee assumes of its runs: `ordered`, transactions commit in seq
      order; `safeDrops`, the broker drops a duplicate LinkDisabled only while it
      is the last word on its code. */
  datatype Assumptions = Assumptions(ordered: bool, safeDrops: bool)

  const NO_ASSUMPTIONS := Assumptions(false, false)

  function FlowOf(s: Sys): Flow {
    Flow(s.write.outbox, s.relay, s.stream)
  }

  predicate Enabled(s: Sys, a: Action) {
    match a
    case ByApi(w) => WriteEnabled(s.write, w)
    case ByRelay(r) => RelayEnabled(FlowOf(s), r)
    case ByProjector(p) => ProjEnabled(s.proj, s.write.links, s.stream, p)
  }

  function Next(s: Sys, a: Action): Sys
    requires Enabled(s, a)
  {
    match a
    case ByApi(w) => s.(write := WriteNext(s.write, w))
    case ByRelay(r) =>
      var f := RelayNext(FlowOf(s), r);
      s.(write := s.write.(outbox := f.outbox), relay := f.relay, stream := f.stream)
    case ByProjector(p) => s.(proj := ProjNext(s.proj, s.write.links, s.stream, p))
  }

  ghost predicate Legal(m: Assumptions, s: Sys, a: Action) {
    && Enabled(s, a)
    && (m.ordered && a.ByApi? ==> CommitsInOrder(s.write, a.write))
    && (m.safeDrops && a.ByRelay? ==> SafeDrop(FlowOf(s), a.relay))
  }

  ghost predicate Init(s: Sys) {
    WriteInit(s.write) && s.relay.Idle? && s.stream == [] && ProjInit(s.proj)
  }

  ghost predicate Run(m: Assumptions, s: Sys, acts: seq<Action>, s': Sys)
    decreases acts
  {
    if acts == [] then s == s'
    else Legal(m, s, acts[0]) && Run(m, Next(s, acts[0]), acts[1..], s')
  }

  /** Everything but what Redis holds under its link keys. */
  ghost predicate CoreInv(m: Assumptions, s: Sys) {
    && WriteInv(s.write)
    && FlowInv(false, FlowOf(s))
    && (m.ordered ==> FlowInv(true, FlowOf(s)) && NoOpenBelowRow(s.write.outbox))
    && (m.safeDrops ==> Settled(FlowOf(s)))
    && CountInv(s.write.outbox, s.proj)
    && AckInv(s.stream, s.proj)
    && MirrorInv(s.stream, s.proj)
  }

  ghost predicate Inv(m: Assumptions, s: Sys) {
    CoreInv(m, s) && LinkKeysInv(s.write.links, s.proj)
  }

  lemma InitCounts(s: Sys)
    requires Init(s)
    ensures CountInv(s.write.outbox, s.proj) && MirrorInv(s.stream, s.proj)
  {
  }

  lemma InitInv(m: Assumptions, s: Sys)
    requires Init(s)
    ensures Inv(m, s)
  {
    InitCounts(s);
    assert WriteInv(s.write);
    assert FlowInv(false, FlowOf(s)) && FlowInv(true, FlowOf(s));
  }

  lemma StreamIsSound(m: Assumptions, s: Sys)
    requires CoreInv(m, s)
    ensures LogSound(s.write.links, s.stream)
  {
    forall e | e in s.stream ensures EventSound(s.write.links, e) {
      var i :| 0 <= i < |s.write.outbox| && s.write.outbox[i].Row? && s.write.outbox[i].event == e;
      assert RowOk(s.write, i);
    }
  }

  lemma ApiKeepsCore(m: Assumptions, s: Sys, a: Action)
    requires CoreInv(m, s) && Legal(m, s, a) && a.ByApi?
    ensures CoreInv(m, Next(s, a))
  {
    WriteStepKeepsInv(s.write, a.write);
    WriteStepKeepsFlow(false, s.write, a.write, FlowOf(s));
    if m.ordered {
      WriteStepKeepsFlow(true, s.write, a.write, FlowOf(s));
      OrderedStep(s.write, a.write);
    }
    if m.safeDrops {
      WriteStepKeepsSettled(s.write, a.write, FlowOf(s));
    }
    WriteStepKeepsCount(s.write, a.write, s.proj);
  }

  lemma RelayKeepsCore(m: Assumptions, s: Sys, a: Action)
    requires CoreInv(m, s) && Legal(m, s, a) && a.ByRelay?
    ensures CoreInv(m, Next(s, a))
  {
    var f := FlowOf(s);
    RelayStepKeepsWrite(s.write, f, a.relay);
    RelayStepKeepsInv(false, f, a.relay);
    if m.ordered {
      RelayStepKeepsInv(true, f, a.relay);
    }
    if m.safeDrops {
      RelayStepKeepsSettled(s.write, f, a.relay);
    }
    SameRowsKeepCount(s.write.outbox, Next(s, a).write.outbox, s.proj);
    StreamGrows(s.stream, Next(s, a).stream, s.proj);
  }

  lemma StreamGrows(stream: seq<DomainEvent>, stream': seq<DomainEvent>, p: Proj)
    requires AckInv(stream, p) && MirrorInv(stream, p) && stream <= stream'
    ensures AckInv(stream', p) && MirrorInv(stream', p)
  {
  }

  lemma ProjectorKeepsCore(m: Assumptions, s: Sys, a: Action)
    requires CoreInv(m, s) && Legal(m, s, a) && a.ByProjector?
    ensures CoreInv(m, Next(s, a))
  {
    StreamIsSound(m, s);
    ProjStepKeepsCount(s.write.outbox, s.write.links, s.stream, s.proj, a.proj);
    ProjStepKeepsAck(s.write.links, s.stream, s.proj, a.proj);
    ProjStepKeepsMirror(s.write.links, s.stream, s.proj, a.proj);
  }

  lemma StepKeepsCore(m: Assumptions, s: Sys, a: Action)
    requires CoreInv(m, s) && Legal(m, s, a)
    ensures CoreInv(m, Next(s, a))
  {
    match a
    case ByApi(_) => ApiKeepsCore(m, s, a);
    case ByRelay(_) => RelayKeepsCore(m, s, a);
    case ByProjector(_) => ProjectorKeepsCore(m, s, a);
  }

  lemma StepKeepsLinkKeys(m: Assumptions, s: Sys, a: Action)
    requires CoreInv(m, s) && Legal(m, s, a) && LinkKeysInv(s.write.links, s.proj)
    ensures LinkKeysInv(Next(s, a).write.links, Next(s, a).proj)
  {
    match a
    case ByApi(w) => WriteStepKeepsLinkKeys(s.write, w, s.proj);
    case ByRelay(_) =>
    case ByProjector(p) =>
      StreamIsSound(m, s);
      ProjStepKeepsLinkKeys(s.write.links, s.stream, s.proj, p);
  }

  lemma StepKeepsInv(m: Assumptions, s: Sys, a: Action)
    requires Inv(m, s) && Legal(m, s, a)
    ensures Inv(m, Next(s, a))
  {
    StepKeepsCore(m, s, a);
    StepKeepsLinkKeys(m, s, a);
  }

  lemma {:induction false} RunKeepsCore(m: Assumptions, s: Sys, acts: seq<Action>, s': Sys)
    requires CoreInv(m, s) && Run(m, s, acts, s')
    ensures CoreInv(m, s')
    decreases acts
  {
    if acts != [] {
      StepKeepsCore(m, s, acts[0]);
      RunKeepsCore(m, Next(s, acts[0]), acts[1..], s');
    }
  }

  /** Every reachable state of every run satisfies the invariant. */
  lemma {:induction false} RunKeepsInv(m: Assumptions, s: Sys, acts: seq<Action>, s': Sys)
    requires Inv(m, s) && Run(m, s, acts, s')
    ensures Inv(m, s')
    decreases acts
  {
    if acts != [] {
      StepKeepsInv(m, s, acts[0]);
      RunKeepsInv(m, Next(s, acts[0]), acts[1..], s');
    }
  }

  // ---------- what a run never undoes ----------

  ghost predicate SysExtends(s: Sys, s': Sys) {
    && |s.write.outbox| <= |s'.write.outbox|
    && (forall i :: 0 <= i < |s.write.outbox| && s.write.outbox[i].Row? ==>
          s'.write.outbox[i].Row? && s'.write.outbox[i].event == s.write.outbox[i].event)
    && (forall id :: id in s.write.links ==>
          && SameLink(s'.write.links, id, s.write.links[id])
          && (s.write.links[id].status.Disabled? ==> s'.write.links[id].status.Disabled?))
    && s.stream <= s'.stream
    && s.proj.processed <= s'.proj.processed
    && (forall c :: Clicks(s.proj.analytics, c) <= Clicks(s'.proj.analytics, c))
  }

  lemma ApiStepExtends(s: Sys, a: Action)
    requires WriteInv(s.write) && a.ByApi? && Enabled(s, a)
    ensures SysExtends(s, Next(s, a))
  {
    WriteStepExtends(s.write, a.write);
  }

  lemma RelayStepExtends(s: Sys, a: Action)
    requires WriteInv(s.write) && a.ByRelay? && Enabled(s, a)
    ensures SysExtends(s, Next(s, a))
  {
  }

  lemma CountersGrow(p: Proj, links: Links, stream: seq<DomainEvent>, a: ProjAction)
    requires ProjEnabled(p, links, stream, a)
    ensures p.processed <= ProjNext(p, links, stream, a).processed
    ensures forall c :: Clicks(p.analytics, c) <= Clicks(ProjNext(p, links, stream, a).analytics, c)
  {
  }

  lemma ProjectorStepExtends(s: Sys, a: Action)
    requires a.ByProjector? && Enabled(s, a)
    ensures SysExtends(s, Next(s, a))
  {
    CountersGrow(s.proj, s.write.links, s.stream, a.proj);
  }

  lemma StepExtends(m: Assumptions, s: Sys, a: Action)
    requires CoreInv(m, s) && Legal(m, s, a)
    ensures SysExtends(s, Next(s, a))
  {
    match a
    case ByApi(_) => ApiStepExtends(s, a);
    case ByRelay(_) => RelayStepExtends(s, a);
    case ByProjector(_) => ProjectorStepExtends(s, a);
  }

  lemma ExtendsTransitive(a: Sys, b: Sys, c: Sys)
    requires SysExtends(a, b) && SysExtends(b, c)
    ensures SysExtends(a, c)
  {
  }

  /** Committed rows stay, links keep code and URL, a disabled link never returns
      to active, the stream is append-only, and counters only grow. */
  lemma {:induction false} RunExtends(m: Assumptions, s: Sys, acts: seq<Action>, s': Sys)
    requires CoreInv(m, s) && Run(m, s, acts, s')
    ensures SysExtends(s, s')
    decreases acts
  {
    if acts != [] {
      StepKeepsCore(m, s, acts[0]);
      StepExtends(m, s, acts[0]);
      RunExtends(m, Next(s, acts[0]), acts[1..], s');
      ExtendsTransitive(s, Next(s, acts[0]), s');
    }
  }
}
